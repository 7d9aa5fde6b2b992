/**
  Terms of an hlang method body, as the overloaded operators of hlang.cpp build them.

  A block (`hc_steps`) is a flat, non-empty list of terms. `hif`, `helif` and `helse`
  are consecutive members of one list, and so are the `hcase` and `hdefault` terms of
  an `hswitch`. Every term carries the label that `set_num_label` gives it, and a block
  is identified by the label of its first term (`get_first_step`).
 */
module HlangTerms {

  // What `set_jumps` propagates: the three jump keywords, and the expression of a switch.
  datatype Op = Break | Continue | Return | Case

  // The operator of the condition of an `hc_condition` (`get_cond_oper`).
  datatype CondOper = Hif | Helif | Helse | Hwhile | Hfor | Hswitch | Hcase | Hdefault

  datatype Term =
    | Act(id: nat, act: nat)               // any plain statement
    | Call(id: nat, mth: nat)              // hc_mth_call
    | Keyword(id: nat, op: Op)             // hbreak, hcontinue, hreturn
    | Ret(id: nat)                         // hc_mth_ret, the last step of a method
      // hc_condition; `endEach` is the second argument of hfor and is empty otherwise
    | Cond(id: nat, oper: CondOper, test: nat, endEach: seq<Term>, body: seq<Term>)
  {
    // The negation of `is_if_closer`.
    predicate ContinuesIf() { Cond? && (oper.Helif? || oper.Helse?) }

    // A member of an if chain.
    predicate InChain() { Cond? && (oper.Hif? || oper.Helif? || oper.Helse?) }

    predicate IsHif() { Cond? && oper.Hif? }
  }

  // ---------------------------------------------------------------- labels

  // The first label after those of `t` (the body is numbered last).
  function EndT(t: Term): nat {
    if t.Cond? && t.body != [] then EndT(t.body[|t.body| - 1]) else t.id + 1
  }

  // The labels of `t` are those of a depth-first numbering: own label first, then the end
  // part of an hfor, then the body.
  predicate NumT(t: Term) {
    t.Cond? ==>
      && NumS(t.body)
      && (if t.oper.Hfor?
          then NumS(t.endEach) && t.endEach[0].id == t.id + 1 && t.body[0].id == EndS(t.endEach)
          else t.body[0].id == t.id + 1)
  }

  predicate NumS(ss: seq<Term>) {
    && |ss| > 0
    && (forall i | 0 <= i < |ss| :: NumT(ss[i]))
    && (forall i | 0 < i < |ss| :: ss[i].id == EndT(ss[i - 1]))
  }

  function EndS(ss: seq<Term>): nat
    requires |ss| > 0
  {
    EndT(ss[|ss| - 1])
  }

  lemma {:induction false} EndAfterT(t: Term)
    requires NumT(t)
    ensures t.id < EndT(t)
    decreases t
  {
    if t.Cond? {
      EndAfterS(t.body);
      if t.oper.Hfor? { EndAfterS(t.endEach); }
    }
  }

  // Labels grow along a block.
  lemma {:induction false} EndAfterS(ss: seq<Term>)
    requires NumS(ss)
    ensures forall i | 0 <= i < |ss| :: ss[i].id < EndT(ss[i])
    ensures forall i, j | 0 <= i < j < |ss| :: EndT(ss[i]) <= ss[j].id
    ensures ss[0].id < EndS(ss)
    ensures forall i | 0 <= i < |ss| :: ss[0].id <= ss[i].id && EndT(ss[i]) <= EndS(ss)
    decreases ss
  {
    forall i | 0 <= i < |ss| ensures ss[i].id < EndT(ss[i]) { EndAfterT(ss[i]); }
    forall i, j | 0 <= i < j < |ss| ensures EndT(ss[i]) <= ss[j].id { Ordered(ss, i, j); }
  }

  lemma {:induction false} Ordered(ss: seq<Term>, i: nat, j: nat)
    requires forall m | 0 < m < |ss| :: ss[m].id == EndT(ss[m - 1])
    requires forall m | 0 <= m < |ss| :: ss[m].id < EndT(ss[m])
    requires i < j < |ss|
    ensures EndT(ss[i]) <= ss[j].id
    decreases j
  {
    if i + 1 < j { Ordered(ss, i, j - 1); }
  }

  // The labels of the parts of a condition lie inside those of the condition.
  lemma {:induction false} PartsInside(t: Term)
    requires t.Cond? && NumT(t)
    ensures NumS(t.body) && t.id < t.body[0].id < EndS(t.body) == EndT(t)
    ensures t.oper.Hfor? ==>
      NumS(t.endEach) && t.id < t.endEach[0].id < EndS(t.endEach) <= t.body[0].id
  {
    EndAfterS(t.body);
    if t.oper.Hfor? { EndAfterS(t.endEach); }
  }

  // `set_num_label`: numbers a term and its parts from `n` on.
  function LabelT(t: Term, n: nat): Term
    decreases t
  {
    match t
    case Act(_, a) => Act(n, a)
    case Call(_, m) => Call(n, m)
    case Keyword(_, o) => Keyword(n, o)
    case Ret(_) => Ret(n)
    case Cond(_, oper, test, e, b) =>
      if oper.Hfor? && e != [] then
        var e' := LabelS(e, n + 1);
        Cond(n, oper, test, e', LabelS(b, EndS(e')))
      else
        Cond(n, oper, test, [], LabelS(b, n + 1))
  }

  function LabelS(ss: seq<Term>, n: nat): (r: seq<Term>)
    ensures |r| == |ss|
    decreases ss
  {
    if ss == [] then [] else
      var front := LabelS(ss[..|ss| - 1], n);
      var from := if front == [] then n else EndS(front);
      front + [LabelT(ss[|ss| - 1], from)]
  }

  // What the operators can build: no block is empty (each starts from one statement), and
  // a helif or helse follows an hif or helif (`hc_can_add_cond_opers`).
  predicate ShapeT(t: Term) {
    t.Cond? ==> ShapeS(t.body) && (if t.oper.Hfor? then ShapeS(t.endEach) else t.endEach == [])
  }

  predicate ShapeS(ss: seq<Term>) {
    && |ss| > 0
    && (forall i | 0 <= i < |ss| :: ShapeT(ss[i]))
    && (forall i | 0 <= i < |ss| && ss[i].ContinuesIf() ::
          i > 0 && ss[i - 1].Cond? && (ss[i - 1].oper.Hif? || ss[i - 1].oper.Helif?))
  }

  lemma {:induction false} LabelledT(t: Term, n: nat)
    requires ShapeT(t)
    ensures LabelT(t, n).id == n && NumT(LabelT(t, n))
    decreases t, 0
  {
    if t.Cond? {
      if t.oper.Hfor? {
        LabelledS(t.endEach, n + 1);
        LabelledS(t.body, EndS(LabelS(t.endEach, n + 1)));
      } else {
        LabelledS(t.body, n + 1);
      }
    }
  }

  // Numbering a block from any label gives each term, at any depth, a label of its own.
  lemma {:induction false} LabelledS(ss: seq<Term>, n: nat)
    requires |ss| > 0 && (forall i | 0 <= i < |ss| :: ShapeT(ss[i]))
    ensures NumS(LabelS(ss, n)) && LabelS(ss, n)[0].id == n
    decreases ss, 1
  {
    var last := ss[|ss| - 1];
    var front := LabelS(ss[..|ss| - 1], n);
    if |ss| > 1 {
      LabelledS(ss[..|ss| - 1], n);
      LabelledT(last, EndS(front));
    } else {
      assert ss[..0] == [];
      LabelledT(last, n);
    }
  }

  // ---------------------------------------------------------------- grammar

  // An hcase or hdefault stands under an hswitch, though not behind another hcase; only
  // `nm` methods exist; nobody writes the return step of a method.
  predicate WfT(t: Term, inSwitch: bool, nm: nat) {
    match t
    case Act(_, _) => true
    case Call(_, m) => m < nm
    case Keyword(_, op) => op != Case
    case Ret(_) => false
    case Cond(_, oper, _, e, b) =>
      match oper
      case Hfor => WfS(b, inSwitch, nm) && WfS(e, false, nm)
      case Hswitch => WfS(b, true, nm)
      case Hcase => inSwitch && WfS(b, false, nm)
      case Hdefault => inSwitch && WfS(b, true, nm)
      case _ => WfS(b, inSwitch, nm)
  }

  predicate WfS(ss: seq<Term>, inSwitch: bool, nm: nat) {
    forall i | 0 <= i < |ss| :: WfT(ss[i], inSwitch, nm)
  }

  // Numbering keeps the shape.
  lemma {:induction false} LabelKeepsT(t: Term, n: nat, inSwitch: bool, nm: nat)
    requires ShapeT(t) && WfT(t, inSwitch, nm)
    ensures ShapeT(LabelT(t, n)) && WfT(LabelT(t, n), inSwitch, nm)
    ensures t.Cond? == LabelT(t, n).Cond? && (t.Cond? ==> t.oper == LabelT(t, n).oper)
    decreases t, 0
  {
    if t.Cond? {
      var bsw := if t.oper.Hswitch? then true else if t.oper.Hcase? then false else inSwitch;
      if t.oper.Hfor? {
        LabelKeepsS(t.endEach, n + 1, false, nm);
        LabelKeepsS(t.body, EndS(LabelS(t.endEach, n + 1)), bsw, nm);
      } else {
        LabelKeepsS(t.body, n + 1, bsw, nm);
      }
    }
  }

  lemma {:induction false} LabelKeepsS(ss: seq<Term>, n: nat, inSwitch: bool, nm: nat)
    requires ShapeS(ss) && WfS(ss, inSwitch, nm)
    ensures ShapeS(LabelS(ss, n)) && WfS(LabelS(ss, n), inSwitch, nm)
    ensures forall i | 0 <= i < |ss| :: ss[i].ContinuesIf() == LabelS(ss, n)[i].ContinuesIf()
    decreases ss, 1
  {
    LabelKeepsEach(ss, n, inSwitch, nm);
  }

  lemma {:induction false} LabelKeepsEach(ss: seq<Term>, n: nat, inSwitch: bool, nm: nat)
    requires forall i | 0 <= i < |ss| :: ShapeT(ss[i]) && WfT(ss[i], inSwitch, nm)
    ensures var r := LabelS(ss, n);
            forall i | 0 <= i < |ss| ::
              && ShapeT(r[i]) && WfT(r[i], inSwitch, nm)
              && ss[i].Cond? == r[i].Cond? && (ss[i].Cond? ==> ss[i].oper == r[i].oper)
    decreases ss, 0
  {
    if ss != [] {
      var front := LabelS(ss[..|ss| - 1], n);
      LabelKeepsEach(ss[..|ss| - 1], n, inSwitch, nm);
      LabelKeepsT(ss[|ss| - 1], if front == [] then n else EndS(front), inSwitch, nm);
    }
  }
}
