/**
  The AND tree that vlg_hnet.cpp prints: every new input is carried through the pending wires
  as in a binary counter, so that the tree stays balanced.
 */
module VerilogTree {
  // The wire rdy<num>_lv<lv>; level 0 is an input.
  datatype Wire = Wire(num: nat, lv: nat)

  // assign out = a && b;
  datatype Gate = Gate(out: Wire, a: Wire, b: Wire)

  function Pow2(a: nat): (p: nat)
    ensures p > 0
  {
    if a == 0 then 1 else 2 * Pow2(a - 1)
  }

  // ---------------------------------------------------------------- the counter

  datatype Inced = Inced(pending: seq<nat>, gates: seq<Gate>)

  // The loop of print_verilog_inc_ready_and, from level `lv` on.
  function Inc(pend: seq<nat>, t: nat, lv: nat): Inced
    decreases |pend|
  {
    if pend == [] then Inced([t], [])
    else if pend[0] == 0 then Inced([t] + pend[1..], [])
    else
      var r := Inc(pend[1..], t, lv + 1);
      Inced([0] + r.pending, [Gate(Wire(t, lv + 1), Wire(pend[0], lv), Wire(t, lv))] + r.gates)
  }

  // The pending wires of the levels from `lv` on stand for the inputs 1 to `n`: each for 2^level
  // inputs, those of higher levels first.
  ghost predicate Tiles(pend: seq<nat>, n: nat, lv: nat)
    decreases |pend|
  {
    if pend == [] then n == 0
    else if pend[0] == 0 then Tiles(pend[1..], n, lv + 1)
    else pend[0] == n && Pow2(lv) <= n && Tiles(pend[1..], n - Pow2(lv), lv + 1)
  }

  lemma {:induction false} IncTiles(pend: seq<nat>, n: nat, lv: nat)
    requires Tiles(pend, n, lv)
    ensures Tiles(Inc(pend, n + Pow2(lv), lv).pending, n + Pow2(lv), lv)
    decreases |pend|
  {
    var t, r := n + Pow2(lv), Inc(pend, n + Pow2(lv), lv).pending;
    if pend != [] && pend[0] != 0 {
      IncTiles(pend[1..], n - Pow2(lv), lv + 1);
      assert r[1..] == Inc(pend[1..], t, lv + 1).pending;
    } else if pend != [] {
      assert r[1..] == pend[1..];
    }
  }

  // Bit `a` of a number.
  predicate Bit(n: nat, a: nat) { if a == 0 then n % 2 == 1 else Bit(n / 2, a - 1) }

  // The number in units of 2^lv.
  ghost function Units(pend: seq<nat>): nat {
    if pend == [] then 0 else (if pend[0] != 0 then 1 else 0) + 2 * Units(pend[1..])
  }

  lemma Doubled(u: nat, p: nat)
    ensures u * (2 * p) == (2 * u) * p && (1 + 2 * u) * p == p + (2 * u) * p
  {
  }

  lemma {:induction false} TilesUnits(pend: seq<nat>, n: nat, lv: nat)
    requires Tiles(pend, n, lv)
    ensures n == Units(pend) * Pow2(lv)
    decreases |pend|
  {
    if pend != [] {
      var u := Units(pend[1..]);
      TilesUnits(pend[1..], if pend[0] == 0 then n else n - Pow2(lv), lv + 1);
      Doubled(u, Pow2(lv));
    }
  }

  lemma BitOf(b: nat, u: nat, a: nat)
    requires b <= 1
    ensures Bit(b + 2 * u, a) <==> if a == 0 then b == 1 else Bit(u, a - 1)
  {
    assert (b + 2 * u) / 2 == u && (b + 2 * u) % 2 == b;
  }

  lemma {:induction false} UnitsBit(pend: seq<nat>, a: nat)
    requires a < |pend|
    ensures Bit(Units(pend), a) <==> pend[a] != 0
    decreases a
  {
    BitOf(if pend[0] != 0 then 1 else 0, Units(pend[1..]), a);
    if a > 0 { UnitsBit(pend[1..], a - 1); }
  }

  // Entry `a` is in use exactly when bit `a` of the number of inputs is set.
  lemma PendingIsBinary(pend: seq<nat>, n: nat, a: nat)
    requires Tiles(pend, n, 0) && a < |pend|
    ensures pend[a] != 0 <==> Bit(n, a)
  {
    TilesUnits(pend, n, 0);
    UnitsBit(pend, a);
  }

  // ---------------------------------------------------------------- what the wires carry

  type Signal = Wire -> bool

  // The values fit the gates.
  ghost predicate Fits(gates: seq<Gate>, v: Signal) {
    forall i | 0 <= i < |gates| :: v(gates[i].out) == (v(gates[i].a) && v(gates[i].b))
  }

  // All inputs from `lo` up to but not `hi` are on.
  ghost predicate All(v: Signal, lo: nat, hi: nat) {
    forall k {:trigger v(Wire(k, 0))} | lo <= k < hi :: v(Wire(k, 0))
  }

  // Each pending wire carries the conjunction of its inputs.
  ghost predicate Carries(pend: seq<nat>, n: nat, lv: nat, v: Signal)
    decreases |pend|
  {
    if pend == [] then true
    else if pend[0] == 0 then Carries(pend[1..], n, lv + 1, v)
    else
      && Pow2(lv) <= n && (v(Wire(n, lv)) <==> All(v, n - Pow2(lv) + 1, n + 1))
      && Carries(pend[1..], n - Pow2(lv), lv + 1, v)
  }

  lemma AllJoins(v: Signal, a: nat, b: nat, c: nat)
    requires a <= b <= c
    ensures All(v, a, c) <==> All(v, a, b) && All(v, b, c)
  {
  }

  lemma {:induction false} IncCarries(pend: seq<nat>, n: nat, lv: nat, v: Signal)
    requires Tiles(pend, n, lv) && Carries(pend, n, lv, v)
    requires v(Wire(n + Pow2(lv), lv)) <==> All(v, n + 1, n + Pow2(lv) + 1)
    requires Fits(Inc(pend, n + Pow2(lv), lv).gates, v)
    ensures Carries(Inc(pend, n + Pow2(lv), lv).pending, n + Pow2(lv), lv, v)
    decreases |pend|
  {
    var t, p := n + Pow2(lv), Pow2(lv);
    var r := Inc(pend, t, lv);
    if pend == [] {
    } else if pend[0] == 0 {
      assert r.pending[1..] == pend[1..];
    } else {
      var s := Inc(pend[1..], t, lv + 1);
      assert r.pending[1..] == s.pending && r.gates[1..] == s.gates;
      assert r.gates[0] == Gate(Wire(t, lv + 1), Wire(n, lv), Wire(t, lv));
      AllJoins(v, n - p + 1, n + 1, t + 1);
      assert forall i | 0 <= i < |s.gates| :: s.gates[i] == r.gates[i + 1];
      IncCarries(pend[1..], n - p, lv + 1, v);
    }
  }

  // ---------------------------------------------------------------- every input has its values

  // The gate joins the wires of two neighbouring runs of inputs of the same length.
  predicate SpansAt(g: Gate) {
    var t, p := g.out.num, Pow2(g.b.lv);
    g.out.lv == g.b.lv + 1 && 2 * p <= t && g.b.num == t && g.a == Wire(t - p, g.b.lv)
  }

  ghost predicate Spans(gates: seq<Gate>) { forall i | 0 <= i < |gates| :: SpansAt(gates[i]) }

  lemma {:induction false} IncSpans(pend: seq<nat>, n: nat, lv: nat)
    requires Tiles(pend, n, lv)
    ensures Spans(Inc(pend, n + Pow2(lv), lv).gates)
    decreases |pend|
  {
    if pend != [] && pend[0] != 0 { IncSpans(pend[1..], n - Pow2(lv), lv + 1); }
  }

  // The conjunction of the last 2^level inputs up to the one the wire is named after.
  ghost function Ideal(on: nat -> bool): Signal {
    (w: Wire) => forall k: nat | k <= w.num < k + Pow2(w.lv) :: on(k)
  }

  // The level-0 wires carry the inputs.
  ghost predicate Inputs(v: Signal, on: nat -> bool) { forall k: nat :: v(Wire(k, 0)) == on(k) }

  ghost predicate HasValues(gates: seq<Gate>, on: nat -> bool) { exists v: Signal :: Fits(gates, v) && Inputs(v, on) }

  lemma IdealJoins(on: nat -> bool, t: nat, lv: nat)
    requires Pow2(lv + 1) <= t
    ensures var v := Ideal(on); v(Wire(t, lv + 1)) == (v(Wire(t - Pow2(lv), lv)) && v(Wire(t, lv)))
  {
    var p := Pow2(lv);
    assert Pow2(lv + 1) == 2 * p;
    if Ideal(on)(Wire(t - p, lv)) && Ideal(on)(Wire(t, lv)) {
      forall k: nat | k <= t < k + 2 * p ensures on(k) { assert k <= t - p < k + p || k <= t < k + p; }
    }
  }

  // Whatever the inputs are, there are values for all wires that fit the gates.
  lemma {:induction false} ValuesExist(gates: seq<Gate>, on: nat -> bool)
    requires Spans(gates)
    ensures HasValues(gates, on)
  {
    var v := Ideal(on);
    forall i | 0 <= i < |gates| ensures v(gates[i].out) == (v(gates[i].a) && v(gates[i].b)) {
      var g := gates[i];
      assert SpansAt(g);
      IdealJoins(on, g.out.num, g.b.lv);
    }
    forall k: nat ensures v(Wire(k, 0)) == on(k) { assert k <= k < k + Pow2(0); }
    assert Fits(gates, v) && Inputs(v, on);
  }

  // The wires of the final expression.
  function InUse(pend: seq<nat>, lv: nat): seq<Wire>
    decreases |pend|
  {
    if pend == [] then []
    else (if pend[0] != 0 then [Wire(pend[0], lv)] else []) + InUse(pend[1..], lv + 1)
  }

  ghost predicate AllOn(v: Signal, ws: seq<Wire>) { forall i | 0 <= i < |ws| :: v(ws[i]) }

  lemma {:induction false} FinalIsAll(pend: seq<nat>, n: nat, lv: nat, v: Signal)
    requires Tiles(pend, n, lv) && Carries(pend, n, lv, v)
    ensures AllOn(v, InUse(pend, lv)) <==> All(v, 1, n + 1)
    decreases |pend|
  {
    if pend != [] {
      var rest := InUse(pend[1..], lv + 1);
      if pend[0] == 0 {
        FinalIsAll(pend[1..], n, lv + 1, v);
        assert InUse(pend, lv) == rest;
      } else {
        FinalIsAll(pend[1..], n - Pow2(lv), lv + 1, v);
        AllJoins(v, 1, n - Pow2(lv) + 1, n + 1);
        var ws := InUse(pend, lv);
        assert ws == [Wire(n, lv)] + rest;
        assert AllOn(v, ws) <==> v(ws[0]) && AllOn(v, rest) by {
          assert forall i | 0 <= i < |rest| :: rest[i] == ws[i + 1];
        }
      }
    }
  }

  // ---------------------------------------------------------------- the printer

  ghost predicate NoneTwice(ws: seq<Wire>) { forall i, j | 0 <= i < j < |ws| :: ws[i] != ws[j] }

  // Every gate joins declared wires, and no wire is assigned twice.
  ghost predicate Wired(ws: seq<Wire>, gates: seq<Gate>) {
    && (forall i | 0 <= i < |gates| :: gates[i].out in ws && gates[i].a in ws && gates[i].b in ws)
    && (forall i, j | 0 <= i < j < |gates| :: gates[i].out != gates[j].out)
  }

  // The wires of one new input: its own, and one for every level it is carried over.
  function Column(t: nat, k: nat): seq<Wire> { seq(k, i requires 0 <= i < k => Wire(t, i)) }

  // Old wires and a new column: nothing is declared twice.
  lemma ColumnNew(ws: seq<Wire>, t: nat, k: nat)
    requires NoneTwice(ws) && forall w | w in ws :: w.num < t
    ensures NoneTwice(ws + Column(t, k)) && forall w | w in ws + Column(t, k) :: w.num <= t
  {
  }

  // What the printer keeps: the counter, and wires and gates that mean what it says.
  ghost predicate Ok(pending: seq<nat>, n: nat, wires: seq<Wire>, gates: seq<Gate>) {
    && Tiles(pending, n, 0)
    && NoneTwice(wires) && (forall w | w in wires :: w.num <= n)
    && Wired(wires, gates)
    && (forall a | 0 <= a < |pending| && pending[a] != 0 :: Wire(pending[a], a) in wires)
    && Means(pending, n, gates)
  }

  // Whatever the inputs are, the pending wires carry their conjunctions.
  ghost predicate Means(pending: seq<nat>, n: nat, gates: seq<Gate>) {
    forall v: Signal :: Fits(gates, v) ==> Carries(pending, n, 0, v)
  }

  class VerilogFile {
    var totRdy: nat
    var pending: seq<nat>
    var wires: seq<Wire>    // the wires declared so far
    var gates: seq<Gate>    // the assignments printed so far

    ghost predicate Valid()
      reads this
    {
      Ok(pending, totRdy, wires, gates) && Spans(gates)
    }

    constructor ()
      ensures Valid() && totRdy == 0
    {
      totRdy, pending, wires, gates := 0, [], [], [];
    }

    // print_verilog_inc_ready_and
    method IncReadyAnd()
      requires Valid()
      modifies this
      ensures Valid() && totRdy == old(totRdy) + 1
      ensures |old(wires)| < |wires| && wires[..|old(wires)|] == old(wires)
      ensures forall k | |old(wires)| <= k < |wires| :: wires[k] == Wire(totRdy, k - |old(wires)|)
    {
      ghost var n, pend0, gates0, wires0 := totRdy, pending, gates, wires;
      totRdy := totRdy + 1;
      wires := wires + [Wire(totRdy, 0)];
      var aa; ghost var added;
      aa, added := CarryOver();
      assert wires == wires0 + Column(totRdy, aa + 1);
      IncOk(pend0, n, wires0, gates0, pending, wires, added, aa);
      MoreSpans(pend0, n, gates0, pending, added);
    }

    // The loop of print_verilog_inc_ready_and; it ends at level `aa`.
    method CarryOver() returns (aa: nat, ghost added: seq<Gate>)
      modifies this`pending, this`wires, this`gates
      ensures aa <= |old(pending)| && |added| == aa
      ensures Inc(old(pending), totRdy, 0) == Inced(pending, added)
      ensures gates == old(gates) + added && wires == old(wires) + Column(totRdy, aa + 1)[1..]
      ensures forall k | 0 <= k < aa :: old(pending)[k] != 0 && added[k] == CarryGate(old(pending), totRdy, k)
      ensures forall k | 0 <= k < |pending| && pending[k] != 0 ::
                if k == aa then pending[k] == totRdy else k < |old(pending)| && pending[k] == old(pending)[k]
    {
      ghost var pend0 := pending;
      aa, added := 0, [];
      while aa < |pending|
        invariant aa <= |pending| == |pend0|
        invariant forall k | 0 <= k < |pending| :: pending[k] == if k < aa then 0 else pend0[k]
        invariant wires == old(wires) + Column(totRdy, aa + 1)[1..]
        invariant gates == old(gates) + added && |added| == aa
        invariant forall k | 0 <= k < aa :: pend0[k] != 0 && added[k] == CarryGate(pend0, totRdy, k)
        invariant Sofar(pend0, totRdy, aa, pending, added)
      {
        var vv := pending[aa];
        if vv != 0 {
          IncStep(pend0, totRdy, aa, pending, added);
          pending := pending[aa := 0];
          wires := wires + [Wire(totRdy, aa + 1)];
          gates := gates + [Gate(Wire(totRdy, aa + 1), Wire(vv, aa), Wire(totRdy, aa))];
          added := added + [CarryGate(pend0, totRdy, aa)];
          aa := aa + 1;
        } else {
          IncStop(pend0, totRdy, aa, pending, added);
          pending := pending[aa := totRdy];
          return;
        }
      }
      IncEnd(pend0, totRdy, pending, added);
      pending := pending + [totRdy];
    }

    // print_verilog_ready_final_and: the operands of the final conjunction.
    method ReadyFinalAnd() returns (ws: seq<Wire>)
      requires Valid()
      modifies this`pending
      ensures ws == InUse(old(pending), 0) && (forall w | w in ws :: w in wires)
      ensures forall v: Signal :: Fits(gates, v) ==> (AllOn(v, ws) <==> All(v, 1, totRdy + 1))
      ensures forall on: nat -> bool :: HasValues(gates, on)
      ensures |pending| == |old(pending)| && forall k | 0 <= k < |pending| :: pending[k] == 0
    {
      ghost var pend0 := pending;
      FinalMeans(pend0, totRdy, gates);
      forall on: nat -> bool ensures HasValues(gates, on) { ValuesExist(gates, on); }
      ws := [];
      for aa := 0 to |pending|
        invariant |pending| == |pend0|
        invariant forall k | 0 <= k < |pending| :: pending[k] == if k < aa then 0 else pend0[k]
        invariant ws + InUse(pend0[aa..], aa) == InUse(pend0, 0)
        invariant forall w | w in ws :: w in wires
      {
        var vv := pending[aa];
        InUseStep(pend0, aa);
        if vv != 0 {
          pending := pending[aa := 0];
          ws := ws + [Wire(vv, aa)];
        }
      }
      assert pend0[|pend0|..] == [] && ws + [] == ws;
    }
  }

  // The gate that carries over level `k`.
  function CarryGate(pend0: seq<nat>, t: nat, k: nat): Gate
    requires k < |pend0|
  {
    Gate(Wire(t, k + 1), Wire(pend0[k], k), Wire(t, k))
  }

  // After `aa` carries: what has been done and what the counter still has to do.
  ghost predicate Sofar(pend0: seq<nat>, t: nat, aa: nat, pending: seq<nat>, added: seq<Gate>)
    requires aa <= |pend0| == |pending|
  {
    var r := Inc(pend0[aa..], t, aa);
    Inc(pend0, t, 0) == Inced(pending[..aa] + r.pending, added + r.gates)
  }

  lemma IncStep(pend0: seq<nat>, t: nat, aa: nat, pending: seq<nat>, added: seq<Gate>)
    requires aa < |pend0| == |pending| && Sofar(pend0, t, aa, pending, added) && pend0[aa] != 0
    ensures Sofar(pend0, t, aa + 1, pending[aa := 0], added + [CarryGate(pend0, t, aa)])
  {
    var p, s := pend0[aa..], Inc(pend0[aa + 1..], t, aa + 1);
    assert p[1..] == pend0[aa + 1..];
    assert pending[aa := 0][..aa + 1] == pending[..aa] + [0];
    assert pending[..aa] + ([0] + s.pending) == (pending[..aa] + [0]) + s.pending;
    assert added + ([CarryGate(pend0, t, aa)] + s.gates) == (added + [CarryGate(pend0, t, aa)]) + s.gates;
  }

  lemma IncStop(pend0: seq<nat>, t: nat, aa: nat, pending: seq<nat>, added: seq<Gate>)
    requires aa < |pend0| == |pending| && Sofar(pend0, t, aa, pending, added) && pend0[aa] == 0
    requires pending[aa..] == pend0[aa..]
    ensures Inc(pend0, t, 0) == Inced(pending[aa := t], added)
  {
    assert pending[aa := t] == pending[..aa] + ([t] + pend0[aa..][1..]);
    assert added + [] == added;
  }

  lemma IncEnd(pend0: seq<nat>, t: nat, pending: seq<nat>, added: seq<Gate>)
    requires |pend0| == |pending| && Sofar(pend0, t, |pend0|, pending, added)
    ensures Inc(pend0, t, 0) == Inced(pending + [t], added)
  {
    assert pend0[|pend0|..] == [] && pending[..|pend0|] == pending;
    assert added + [] == added;
  }

  lemma IncOk(pend0: seq<nat>, n: nat, wires0: seq<Wire>, gates0: seq<Gate>,
              pending: seq<nat>, wires: seq<Wire>, added: seq<Gate>, aa: nat)
    requires Ok(pend0, n, wires0, gates0) && aa <= |pend0| && |added| == aa
    requires Inc(pend0, n + 1, 0) == Inced(pending, added) && wires == wires0 + Column(n + 1, aa + 1)
    requires forall k | 0 <= k < aa :: pend0[k] != 0 && added[k] == CarryGate(pend0, n + 1, k)
    requires forall k | 0 <= k < |pending| && pending[k] != 0 ::
               if k == aa then pending[k] == n + 1 else k < |pend0| && pending[k] == pend0[k]
    ensures Ok(pending, n + 1, wires, gates0 + added)
  {
    IncMeans(pend0, n, gates0, pending, added);
    ColumnNew(wires0, n + 1, aa + 1);
    IncWired(pend0, wires0, gates0, wires, added, n + 1, aa);
  }

  lemma MoreSpans(pend0: seq<nat>, n: nat, gates0: seq<Gate>, pending: seq<nat>, added: seq<Gate>)
    requires Tiles(pend0, n, 0) && Inc(pend0, n + 1, 0) == Inced(pending, added) && Spans(gates0)
    ensures Spans(gates0 + added)
  {
    assert Pow2(0) == 1;
    IncSpans(pend0, n, 0);
  }

  lemma InUseStep(pend: seq<nat>, aa: nat)
    requires aa < |pend|
    ensures InUse(pend[aa..], aa) == (if pend[aa] != 0 then [Wire(pend[aa], aa)] else []) + InUse(pend[aa + 1..], aa + 1)
  {
    assert pend[aa..][1..] == pend[aa + 1..];
  }

  lemma FinalMeans(pend: seq<nat>, n: nat, gates: seq<Gate>)
    requires Tiles(pend, n, 0) && Means(pend, n, gates)
    ensures forall v: Signal :: Fits(gates, v) ==> (AllOn(v, InUse(pend, 0)) <==> All(v, 1, n + 1))
  {
    forall v: Signal | Fits(gates, v) ensures AllOn(v, InUse(pend, 0)) <==> All(v, 1, n + 1) {
      FinalIsAll(pend, n, 0, v);
    }
  }

  // One more input: the counter and the meaning of its wires.
  lemma IncMeans(pend0: seq<nat>, n: nat, gates0: seq<Gate>, pending: seq<nat>, added: seq<Gate>)
    requires Tiles(pend0, n, 0) && Means(pend0, n, gates0)
    requires Inc(pend0, n + 1, 0) == Inced(pending, added)
    ensures Tiles(pending, n + 1, 0)
    ensures Means(pending, n + 1, gates0 + added)
  {
    assert Pow2(0) == 1;
    IncTiles(pend0, n, 0);
    forall v: Signal | Fits(gates0 + added, v) ensures Carries(pending, n + 1, 0, v) {
      FitsParts(gates0, added, v);
      assert v(Wire(n + 1, 0)) <==> All(v, n + 1, n + 2);
      IncCarries(pend0, n, 0, v);
    }
  }

  lemma FitsParts(a: seq<Gate>, b: seq<Gate>, v: Signal)
    requires Fits(a + b, v)
    ensures Fits(a, v) && Fits(b, v)
  {
    assert forall i | 0 <= i < |a| :: a[i] == (a + b)[i];
    assert forall i | 0 <= i < |b| :: b[i] == (a + b)[|a| + i];
  }

  lemma IncWired(pend0: seq<nat>, wires0: seq<Wire>, gates0: seq<Gate>, wires: seq<Wire>, added: seq<Gate>, t: nat, aa: nat)
    requires Wired(wires0, gates0) && (forall w | w in wires0 :: w.num < t)
    requires forall a | 0 <= a < |pend0| && pend0[a] != 0 :: Wire(pend0[a], a) in wires0
    requires wires == wires0 + Column(t, aa + 1) && aa <= |pend0| && |added| == aa
    requires forall k | 0 <= k < aa :: pend0[k] != 0 && added[k] == CarryGate(pend0, t, k)
    ensures Wired(wires, gates0 + added)
    ensures forall k | 0 <= k <= aa :: Wire(t, k) in wires
  {
    var m, gates := |gates0|, gates0 + added;
    forall k | 0 <= k <= aa ensures Wire(t, k) in wires { assert wires[|wires0| + k] == Wire(t, k); }
    forall i | 0 <= i < |gates| ensures gates[i].out in wires && gates[i].a in wires && gates[i].b in wires {
      if i < m { assert gates[i] == gates0[i]; } else { assert gates[i] == CarryGate(pend0, t, i - m); }
    }
    forall i, j | 0 <= i < j < |gates| ensures gates[i].out != gates[j].out {
      if j < m {
        assert gates[i] == gates0[i] && gates[j] == gates0[j];
      } else {
        assert gates[j] == CarryGate(pend0, t, j - m);
        if i < m { assert gates[i] == gates0[i]; } else { assert gates[i] == CarryGate(pend0, t, i - m); }
      }
    }
  }
}
