/** The call depth of a class. */
module HlangDepth {
  import opened Options
  import opened HlangTerms

  // calc_depth walks the calls of a method, and stops the program when it meets a method whose
  // depth is still being calculated.

  // The list `calls` of a method, in the order its body is built.
  function CallsT(t: Term): seq<nat> {
    match t
    case Call(_, m) => [m]
    case Cond(_, _, _, e, b) => CallsS(e) + CallsS(b)
    case _ => []
  }

  function CallsS(ss: seq<Term>): seq<nat> {
    if ss == [] then [] else CallsS(ss[..|ss| - 1]) + CallsT(ss[|ss| - 1])
  }

  // Term `u` is `t` or stands in it, at any depth.
  ghost predicate StandsIn(u: Term, t: Term) {
    || u == t
    || (t.Cond? && ((exists i :: 0 <= i < |t.endEach| && StandsIn(u, t.endEach[i]))
                    || (exists i :: 0 <= i < |t.body| && StandsIn(u, t.body[i]))))
  }

  // A call of method `q` stands in a block, at any depth.
  ghost predicate HasCall(ss: seq<Term>, q: nat) {
    exists i, id: nat :: 0 <= i < |ss| && StandsIn(Call(id, q), ss[i])
  }

  lemma {:induction false} CallsOfTerm(t: Term, q: nat)
    ensures q in CallsT(t) <==> exists id: nat :: StandsIn(Call(id, q), t)
    decreases t, 0
  {
    match t
    case Call(id, m) => assert StandsIn(Call(id, m), t);
    case Cond(_, _, _, e, b) =>
      CallsAreCalls(e, q);
      CallsAreCalls(b, q);
      if id: nat :| StandsIn(Call(id, q), t) { assert HasCall(e, q) || HasCall(b, q); }
      if i, id: nat :| 0 <= i < |e| && StandsIn(Call(id, q), e[i]) { assert StandsIn(Call(id, q), t); }
      if i, id: nat :| 0 <= i < |b| && StandsIn(Call(id, q), b[i]) { assert StandsIn(Call(id, q), t); }
    case _ =>
  }

  // The list of a block has exactly the methods that are called in it.
  lemma {:induction false} CallsAreCalls(ss: seq<Term>, q: nat)
    ensures q in CallsS(ss) <==> HasCall(ss, q)
    decreases ss, 1
  {
    if ss != [] {
      var front, t := ss[..|ss| - 1], ss[|ss| - 1];
      CallsAreCalls(front, q);
      CallsOfTerm(t, q);
      if i, id: nat :| 0 <= i < |ss| && StandsIn(Call(id, q), ss[i]) {
        if i < |front| { assert front[i] == ss[i]; }
      }
      if i, id: nat :| 0 <= i < |front| && StandsIn(Call(id, q), front[i]) { assert front[i] == ss[i]; }
      if id: nat :| StandsIn(Call(id, q), t) { assert t == ss[|front|]; }
    }
  }

  lemma {:induction false} CallsMember(ss: seq<Term>, i: nat)
    requires i < |ss|
    ensures forall q | q in CallsT(ss[i]) :: q in CallsS(ss)
    decreases |ss|
  {
    if i < |ss| - 1 { CallsMember(ss[..|ss| - 1], i); }
  }

  // The calls of all methods of a class, by method. A list that names its own method is allowed
  // here, though in the source the call list of a method that calls itself is never completed.
  type CallGraph = seq<seq<nat>>

  predicate Closed(g: CallGraph) {
    forall m, i | 0 <= m < |g| && 0 <= i < |g[m]| :: g[m][i] < |g|
  }

  ghost function Methods(g: CallGraph): set<nat> { UpTo(|g|) }

  ghost function UpTo(n: nat): (r: set<nat>)
    ensures forall x: nat :: x in r <==> x < n
  {
    if n == 0 then {} else UpTo(n - 1) + {n - 1}
  }

  // calc_depth; `defining` are the methods whose flag is set. None stands for hl_abort.
  function CalcDepth(g: CallGraph, m: nat, defining: set<nat>): Option<nat>
    requires Closed(g) && m < |g| && m !in defining
    decreases Methods(g) - defining, 0, 0
  {
    match MaxDepth(g, g[m], defining + {m}, 0)
    case None => None
    case Some(d) => Some(d + 1)
  }

  // Its loop over the calls of one method.
  function MaxDepth(g: CallGraph, calls: seq<nat>, defining: set<nat>, maxd: nat): Option<nat>
    requires Closed(g) && forall i | 0 <= i < |calls| :: calls[i] < |g|
    decreases Methods(g) - defining, 1, |calls|
  {
    if calls == [] then Some(maxd)
    else if calls[0] in defining then None
    else
      match CalcDepth(g, calls[0], defining)
      case None => None
      case Some(d) => MaxDepth(g, calls[1..], defining, if d > maxd then d else maxd)
  }

  // init_depth: the depth of a class.
  function InitDepth(g: CallGraph): Option<nat>
    requires Closed(g)
  {
    MaxDepth(g, seq(|g|, m requires 0 <= m < |g| => m), {}, 0)
  }

  // ---------------------------------------------------------------- properties

  // Fewer flags in the way do not change a result.
  lemma {:induction false} FewerFlags(g: CallGraph, m: nat, a: set<nat>, b: set<nat>)
    requires Closed(g) && m < |g| && a <= b && m !in b && CalcDepth(g, m, b).Some?
    ensures CalcDepth(g, m, a) == CalcDepth(g, m, b)
    decreases Methods(g) - b, 0, 0
  {
    FewerFlagsLoop(g, g[m], a + {m}, b + {m}, 0);
  }

  lemma {:induction false} FewerFlagsLoop(g: CallGraph, calls: seq<nat>, a: set<nat>, b: set<nat>, maxd: nat)
    requires Closed(g) && (forall i | 0 <= i < |calls| :: calls[i] < |g|)
    requires a <= b && MaxDepth(g, calls, b, maxd).Some?
    ensures MaxDepth(g, calls, a, maxd) == MaxDepth(g, calls, b, maxd)
    decreases Methods(g) - b, 1, |calls|
  {
    if calls != [] {
      FewerFlags(g, calls[0], a, b);
      var d := CalcDepth(g, calls[0], b).value;
      FewerFlagsLoop(g, calls[1..], a, b, if d > maxd then d else maxd);
    }
  }

  // A maximum is at least each of its elements.
  lemma {:induction false} MaxIsUpper(g: CallGraph, calls: seq<nat>, defining: set<nat>, maxd: nat, i: nat)
    requires Closed(g) && (forall j | 0 <= j < |calls| :: calls[j] < |g|) && i < |calls|
    requires MaxDepth(g, calls, defining, maxd).Some?
    ensures calls[i] !in defining && CalcDepth(g, calls[i], defining).Some?
    ensures CalcDepth(g, calls[i], defining).value <= MaxDepth(g, calls, defining, maxd).value
    decreases |calls|
  {
    var d := CalcDepth(g, calls[0], defining).value;
    var maxd' := if d > maxd then d else maxd;
    if i == 0 { MaxGrows(g, calls[1..], defining, maxd'); } else { MaxIsUpper(g, calls[1..], defining, maxd', i - 1); }
  }

  lemma {:induction false} MaxGrows(g: CallGraph, calls: seq<nat>, defining: set<nat>, maxd: nat)
    requires Closed(g) && (forall j | 0 <= j < |calls| :: calls[j] < |g|)
    requires MaxDepth(g, calls, defining, maxd).Some?
    ensures maxd <= MaxDepth(g, calls, defining, maxd).value
    decreases |calls|
  {
    if calls != [] {
      var d := CalcDepth(g, calls[0], defining).value;
      MaxGrows(g, calls[1..], defining, if d > maxd then d else maxd);
    }
  }

  // Once a class has a depth, every method has one that does not exceed it.
  lemma {:induction false} MethodDepth(g: CallGraph, m: nat)
    requires Closed(g) && m < |g| && InitDepth(g).Some?
    ensures CalcDepth(g, m, {}).Some? && CalcDepth(g, m, {}).value <= InitDepth(g).value
  {
    MaxIsUpper(g, seq(|g|, m requires 0 <= m < |g| => m), {}, 0, m);
  }

  // A method is deeper than the methods it calls.
  lemma {:induction false} CalleeDepth(g: CallGraph, m: nat, i: nat)
    requires Closed(g) && m < |g| && i < |g[m]| && CalcDepth(g, m, {}).Some?
    ensures CalcDepth(g, g[m][i], {}).Some?
    ensures CalcDepth(g, g[m][i], {}).value < CalcDepth(g, m, {}).value
  {
    assert {} + {m} == {m};
    MaxIsUpper(g, g[m], {m}, 0, i);
    FewerFlags(g, g[m][i], {}, {m});
  }

  // Methods that call each other one after the other.
  ghost predicate Chain(g: CallGraph, c: seq<nat>) {
    && |c| > 0 && (forall i | 0 <= i < |c| :: c[i] < |g|)
    && forall i | 0 <= i < |c| - 1 :: c[i + 1] in g[c[i]]
  }

  lemma {:induction false} NoLongerChain(g: CallGraph, c: seq<nat>)
    requires Closed(g) && Chain(g, c) && CalcDepth(g, c[0], {}).Some?
    ensures |c| <= CalcDepth(g, c[0], {}).value
    decreases |c|
  {
    if |c| == 1 {
      MaxGrows(g, g[c[0]], {} + {c[0]}, 0);
    } else {
      var i :| 0 <= i < |g[c[0]]| && g[c[0]][i] == c[1];
      CalleeDepth(g, c[0], i);
      NoLongerChain(g, c[1..]);
    }
  }

  // A maximum is one of its elements, or the value it starts with.
  lemma {:induction false} MaxIsThere(g: CallGraph, calls: seq<nat>, defining: set<nat>, maxd: nat) returns (i: nat)
    requires Closed(g) && (forall j | 0 <= j < |calls| :: calls[j] < |g|)
    requires MaxDepth(g, calls, defining, maxd).Some? && MaxDepth(g, calls, defining, maxd).value != maxd
    ensures i < |calls| && calls[i] !in defining && CalcDepth(g, calls[i], defining) == MaxDepth(g, calls, defining, maxd)
    decreases |calls|
  {
    var d := CalcDepth(g, calls[0], defining).value;
    var maxd' := if d > maxd then d else maxd;
    if MaxDepth(g, calls, defining, maxd).value == maxd' {
      i := 0;
    } else {
      i := MaxIsThere(g, calls[1..], defining, maxd');
      i := i + 1;
    }
  }

  lemma {:induction false} LongestChain(g: CallGraph, m: nat, defining: set<nat>) returns (c: seq<nat>)
    requires Closed(g) && m < |g| && m !in defining && CalcDepth(g, m, defining).Some?
    ensures Chain(g, c) && c[0] == m && |c| == CalcDepth(g, m, defining).value
    decreases Methods(g) - defining
  {
    c := [m];
    if CalcDepth(g, m, defining).value != 1 {
      var i := MaxIsThere(g, g[m], defining + {m}, 0);
      assert m in Methods(g) - defining;
      var rest := LongestChain(g, g[m][i], defining + {m});
      c := [m] + rest;
    }
  }

  // The depth of a class, by which the call stack of its handler is measured, is the length of its
  // longest chain of calls.
  lemma {:induction false} DepthIsLongestChain(g: CallGraph)
    requires Closed(g) && InitDepth(g).Some?
    ensures forall c | Chain(g, c) :: |c| <= InitDepth(g).value
    ensures |g| > 0 ==> exists c :: Chain(g, c) && |c| == InitDepth(g).value
  {
    forall c | Chain(g, c) ensures |c| <= InitDepth(g).value {
      MethodDepth(g, c[0]);
      NoLongerChain(g, c);
    }
    if |g| > 0 {
      MethodDepth(g, 0);
      NoLongerChain(g, [0]);
      var m := MaxIsThere(g, seq(|g|, m requires 0 <= m < |g| => m), {}, 0);
      var c := LongestChain(g, m, {});
    }
  }

  // Methods can be ranked so that calls go down.
  ghost predicate Ranked(g: CallGraph, rank: seq<nat>) {
    |rank| == |g| && forall m, i | 0 <= m < |g| && 0 <= i < |g[m]| :: g[m][i] < |g| && rank[g[m][i]] < rank[m]
  }

  lemma {:induction false} RankedDepth(g: CallGraph, rank: seq<nat>, m: nat, defining: set<nat>)
    requires Closed(g) && Ranked(g, rank) && m < |g| && m !in defining
    requires forall x | x in defining :: x < |g| && rank[m] < rank[x]
    ensures CalcDepth(g, m, defining).Some?
    decreases rank[m], 1, 0
  {
    RankedLoop(g, rank, m, g[m], defining + {m}, 0);
  }

  lemma {:induction false} RankedLoop(g: CallGraph, rank: seq<nat>, m: nat, calls: seq<nat>, defining: set<nat>, maxd: nat)
    requires Closed(g) && Ranked(g, rank) && m < |g|
    requires forall i | 0 <= i < |calls| :: calls[i] < |g| && rank[calls[i]] < rank[m]
    requires forall x | x in defining :: x < |g| && rank[m] <= rank[x]
    ensures MaxDepth(g, calls, defining, maxd).Some?
    decreases rank[m], 0, |calls|
  {
    if calls != [] {
      RankedDepth(g, rank, calls[0], defining);
      var d := CalcDepth(g, calls[0], defining).value;
      RankedLoop(g, rank, m, calls[1..], defining, if d > maxd then d else maxd);
    }
  }

  lemma {:induction false} AllRanked(g: CallGraph, rank: seq<nat>, calls: seq<nat>, maxd: nat)
    requires Closed(g) && Ranked(g, rank) && forall i | 0 <= i < |calls| :: calls[i] < |g|
    ensures MaxDepth(g, calls, {}, maxd).Some?
    decreases |calls|
  {
    if calls != [] {
      RankedDepth(g, rank, calls[0], {});
      var d := CalcDepth(g, calls[0], {}).value;
      AllRanked(g, rank, calls[1..], if d > maxd then d else maxd);
    }
  }

  // A class is refused exactly when its methods call each other in a circle. In the source this
  // is about circles through two methods or more: a method that calls itself never gets as far
  // as calc_depth, because the call evaluates the code of the method again without end.
  lemma {:induction false} RefusedIffRecursive(g: CallGraph)
    requires Closed(g)
    ensures InitDepth(g).Some? <==> exists rank :: Ranked(g, rank)
  {
    if InitDepth(g).Some? {
      forall m | 0 <= m < |g| ensures CalcDepth(g, m, {}).Some? { MethodDepth(g, m); }
      var rank: seq<nat> := seq(|g|, m requires 0 <= m < |g| => CalcDepth(g, m, {}).value);
      forall m, i | 0 <= m < |g| && 0 <= i < |g[m]| ensures rank[g[m][i]] < rank[m] { CalleeDepth(g, m, i); }
      assert Ranked(g, rank);
    }
    if rank :| Ranked(g, rank) {
      AllRanked(g, rank, seq(|g|, m requires 0 <= m < |g| => m), 0);
    }
  }

  // The methods of a class, with the flag that `calc_depth` sets while it is at work.
  class MethodTable {
    const g: CallGraph
    var defining: set<nat>

    constructor (g: CallGraph)
      ensures this.g == g && defining == {}
    {
      this.g := g;
      defining := {};
    }

    // None: hl_abort.
    method CalcMethodDepth(m: nat) returns (r: Option<nat>)
      requires Closed(g) && m < |g| && m !in defining
      modifies this
      ensures r == CalcDepth(g, m, old(defining))
      ensures r.Some? ==> defining == old(defining)
      decreases Methods(g) - defining
    {
      var maxd := 0;
      ghost var before := defining;
      defining := defining + {m};
      for i := 0 to |g[m]|
        invariant defining == before + {m}
        invariant MaxDepth(g, g[m][i..], before + {m}, maxd) == MaxDepth(g, g[m], before + {m}, 0)
      {
        if g[m][i] in defining { return None; }
        assert m in Methods(g) - before;
        var d := CalcMethodDepth(g[m][i]);
        if d.None? { return None; }
        if d.value > maxd { maxd := d.value; }
        assert g[m][i..][1..] == g[m][i + 1..];
      }
      defining := defining - {m};
      assert defining == before;
      return Some(maxd + 1);
    }

    method InitClassDepth() returns (depth: Option<nat>)
      requires Closed(g) && defining == {}
      modifies this
      ensures depth == InitDepth(g)
    {
      var maxd := 0;
      ghost var all := seq(|g|, m requires 0 <= m < |g| => m);
      for m := 0 to |g|
        invariant defining == {}
        invariant MaxDepth(g, all[m..], {}, maxd) == InitDepth(g)
      {
        var d := CalcMethodDepth(m);
        if d.None? { return None; }
        if d.value > maxd { maxd := d.value; }
        assert all[m..][1..] == all[m + 1..];
      }
      return Some(maxd);
    }
  }
}
