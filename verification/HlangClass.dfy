/** Classes of hlang. */
module HlangClass {
  import opened Options
  import opened HlangTerms
  import opened HlangLinks
  import opened HlangBuild
  import opened HlangLinker
  import opened HlangDepth
  import opened HlangMachine
  import opened HlangSimulation

  // The methods of a class are numbered and linked one after the other, the emitter prints one
  // case per term, and a run of the handler does what the nucleus says.

  // ---------------------------------------------------------------- the cases of the handler

  // print_cpp_term of a term and of its parts: a case for every label.
  function CasesT(t: Term): map<nat, Term>
    decreases t, 0
  {
    map[t.id := t] + (if t.Cond? then CasesS(t.endEach) + CasesS(t.body) else map[])
  }

  function CasesS(ss: seq<Term>): map<nat, Term>
    decreases ss, 1
  {
    if ss == [] then map[] else CasesS(ss[..|ss| - 1]) + CasesT(ss[|ss| - 1])
  }

  ghost predicate Within(cases: map<nat, Term>, lo: nat, hi: nat) {
    forall l | l in cases :: lo <= l < hi
  }

  // More cases at other labels do no harm.
  lemma {:induction false} KeepsT(a: map<nat, Term>, b: map<nat, Term>, t: Term)
    requires HasT(a, t) && (forall l | l in a :: l in b && b[l] == a[l])
    ensures HasT(b, t)
    decreases t
  {
    if t.Cond? {
      KeepsS(a, b, t.body);
      KeepsS(a, b, t.endEach);
    }
  }

  lemma {:induction false} KeepsS(a: map<nat, Term>, b: map<nat, Term>, ss: seq<Term>)
    requires HasS(a, ss) && (forall l | l in a :: l in b && b[l] == a[l])
    ensures HasS(b, ss)
    decreases ss
  {
    forall i | 0 <= i < |ss| ensures HasT(b, ss[i]) { KeepsT(a, b, ss[i]); }
  }

  // Labels of their own give every term a case of its own.
  lemma {:induction false} CasesOfT(t: Term)
    requires NumT(t) && ShapeT(t)
    ensures HasT(CasesT(t), t) && Within(CasesT(t), t.id, EndT(t))
    decreases t, 0
  {
    EndAfterT(t);
    if t.Cond? {
      PartsInside(t);
      CasesOfS(t.body);
      KeepsS(CasesS(t.body), CasesT(t), t.body);
      if t.oper.Hfor? {
        CasesOfS(t.endEach);
        KeepsS(CasesS(t.endEach), CasesT(t), t.endEach);
      }
    }
  }

  lemma {:induction false} CasesOfS(ss: seq<Term>)
    requires NumS(ss) && (forall i | 0 <= i < |ss| :: ShapeT(ss[i]))
    ensures HasS(CasesS(ss), ss) && Within(CasesS(ss), ss[0].id, EndS(ss))
    decreases ss, 1
  {
    var n := |ss| - 1;
    EndAfterS(ss);
    CasesOfT(ss[n]);
    if n > 0 {
      NumPrefix(ss, n);
      CasesOfS(ss[..n]);
      KeepsS(CasesS(ss[..n]), CasesS(ss), ss[..n]);
      forall i | 0 <= i < |ss| ensures HasT(CasesS(ss), ss[i]) {
        if i < n { assert ss[..n][i] == ss[i]; } else { KeepsT(CasesT(ss[n]), CasesS(ss), ss[n]); }
      }
    } else {
      assert ss[..n] == [] && CasesS(ss[..n]) == map[];
      assert CasesS(ss) == CasesT(ss[0]);
    }
  }

  // ---------------------------------------------------------------- numbering and linking

  // A method whose labels are those from `lo` up to but not `hi`, linked in `tab`.
  ghost predicate Defined(tab: Tab, m: Method, lo: nat, hi: nat) {
    && ShapeS(m.body) && NumS(m.body) && m.ret == EndS(m.body) && m.body[0].id == lo && hi == m.ret + 1
    && StS(tab, m.Steps(), None, NO_CTX.(ret := Some(m.ret)))
  }

  // Consecutive methods, from label `lo` on.
  ghost predicate AllDefined(tab: Tab, ms: seq<Method>, lo: nat, hi: nat)
    decreases |ms|
  {
    if ms == [] then lo == hi else
      var m := ms[|ms| - 1];
      && ShapeS(m.body) && lo <= m.body[0].id
      && Defined(tab, m, m.body[0].id, hi)
      && AllDefined(tab, ms[..|ms| - 1], lo, m.body[0].id)
  }

  lemma {:induction false} StepsNumbered(m: Method)
    requires NumS(m.body) && m.ret == EndS(m.body)
    ensures NumS(m.Steps()) && EndS(m.Steps()) == m.ret + 1 && m.Steps()[0] == m.body[0]
    ensures m.body[0].id < m.ret
  {
    var ss := m.Steps();
    EndAfterS(m.body);
    forall j | 0 < j < |ss| ensures ss[j].id == EndT(ss[j - 1]) { assert ss[j - 1] == m.body[j - 1]; }
    assert ss[|ss| - 1] == Ret(m.ret);
  }

  // Linking a method does not disturb those before it.
  lemma {:induction false} EarlierDefined(a: Tab, b: Tab, ms: seq<Method>, lo: nat, hi: nat)
    requires AllDefined(a, ms, lo, hi) && forall id: nat | id < hi :: Get(a, id) == Get(b, id)
    ensures AllDefined(b, ms, lo, hi)
    decreases |ms|
  {
    if ms != [] {
      var m := ms[|ms| - 1];
      StepsNumbered(m);
      FrameS(a, b, m.Steps(), None, NO_CTX.(ret := Some(m.ret)));
      EarlierDefined(a, b, ms[..|ms| - 1], lo, m.body[0].id);
    }
  }

  // The case labels and bodies of consecutive methods.
  function CasesM(ms: seq<Method>): map<nat, Term> {
    if ms == [] then map[] else CasesM(ms[..|ms| - 1]) + CasesS(ms[|ms| - 1].Steps())
  }

  lemma {:induction false} CasesOfMethod(tab: Tab, m: Method, lo: nat, hi: nat)
    requires ShapeS(m.body) && Defined(tab, m, lo, hi)
    ensures HasS(CasesS(m.Steps()), m.Steps()) && Within(CasesS(m.Steps()), lo, hi) && Linked(tab, m) && lo < hi
  {
    StepsNumbered(m);
    StepsShaped(m);
    CasesOfS(m.Steps());
  }

  lemma {:induction false} CasesOfM(tab: Tab, ms: seq<Method>, lo: nat, hi: nat)
    requires AllDefined(tab, ms, lo, hi)
    ensures lo <= hi && Within(CasesM(ms), lo, hi)
    ensures forall f | 0 <= f < |ms| :: HasS(CasesM(ms), ms[f].Steps())
    decreases |ms|
  {
    if ms != [] {
      var m := ms[|ms| - 1];
      CasesOfM(tab, ms[..|ms| - 1], lo, m.body[0].id);
      CasesOfMethod(tab, m, m.body[0].id, hi);
      CasesKept(ms[..|ms| - 1], m, m.body[0].id, hi);
      assert ms[..|ms| - 1] + [m] == ms;
    }
  }

  lemma {:induction false} CasesKept(front: seq<Method>, m: Method, mid: nat, hi: nat)
    requires Within(CasesM(front), 0, mid) && Within(CasesS(m.Steps()), mid, hi)
    requires forall f | 0 <= f < |front| :: HasS(CasesM(front), front[f].Steps())
    requires HasS(CasesS(m.Steps()), m.Steps())
    ensures forall f | 0 <= f <= |front| :: HasS(CasesM(front + [m]), (front + [m])[f].Steps())
  {
    var ms := front + [m];
    assert ms[..|ms| - 1] == front;
    KeepsS(CasesS(m.Steps()), CasesM(ms), m.Steps());
    forall f | 0 <= f < |front| ensures HasS(CasesM(ms), front[f].Steps()) {
      KeepsS(CasesM(front), CasesM(ms), front[f].Steps());
    }
  }

  lemma {:induction false} AllLinked(tab: Tab, ms: seq<Method>, lo: nat, hi: nat)
    requires AllDefined(tab, ms, lo, hi)
    ensures forall f | 0 <= f < |ms| :: Linked(tab, ms[f])
    decreases |ms|
  {
    if ms != [] {
      AllLinked(tab, ms[..|ms| - 1], lo, ms[|ms| - 1].body[0].id);
    }
  }

  ghost predicate Linked(tab: Tab, m: Method) {
    ShapeS(m.body) && StS(tab, m.Steps(), None, NO_CTX.(ret := Some(m.ret)))
  }

  lemma {:induction false} StepsShaped(m: Method)
    requires ShapeS(m.body)
    ensures forall i | 0 <= i < |m.Steps()| :: ShapeT(m.Steps()[i])
  {
    forall i | 0 <= i < |m.Steps()| ensures ShapeT(m.Steps()[i]) {
      if i < |m.body| { assert m.Steps()[i] == m.body[i]; }
    }
  }

  // The method is the numbered source `body`.
  ghost predicate IsNumbered(m: Method, body: seq<Term>, nm: nat) {
    m.body != [] && m.body == LabelS(body, m.body[0].id) && WfS(m.body, false, nm)
  }

  // The caller of a method, then set_num_label.
  method DefineNext(lk: Linker, source: seq<Term>, ghost ms: seq<Method>, ghost from: nat, next: nat, ghost nm: nat)
    returns (m: Method)
    requires ShapeS(source) && WfS(source, false, nm)
    requires AllDefined(lk.tab, ms, from, next) && forall id: nat | id >= next :: Get(lk.tab, id) == FRESH
    modifies lk
    ensures IsNumbered(m, source, nm)
    ensures AllDefined(lk.tab, ms + [m], from, m.ret + 1)
    ensures forall id: nat | id > m.ret :: Get(lk.tab, id) == FRESH
  {
    var body := LabelS(source, next);
    LabelledS(source, next);
    LabelKeepsS(source, next, false, nm);
    m := Method(body, EndS(body));
    StepsNumbered(m);
    ghost var before := lk.tab;
    lk.DefineMethod(body, m.ret);
    DefinedBehind(before, lk.tab, ms, from, next, m);
  }

  lemma {:induction false} DefinedBehind(a: Tab, b: Tab, ms: seq<Method>, from: nat, next: nat, m: Method)
    requires AllDefined(a, ms, from, next) && Linked(b, m)
    requires NumS(m.body) && m.ret == EndS(m.body) && m.body[0].id == next && NumS(m.Steps()) && OnlyS(a, b, m.Steps())
    requires forall id: nat | id >= next :: Get(a, id) == FRESH
    ensures AllDefined(b, ms + [m], from, m.ret + 1)
    ensures forall id: nat | id > m.ret :: Get(b, id) == FRESH
  {
    StepsNumbered(m);
    EarlierDefined(a, b, ms, from, next);
    CasesOfM(b, ms, from, next);
    assert (ms + [m])[..|ms|] == ms;
  }

  ghost predicate AllNumbered(ms: seq<Method>, bodies: seq<seq<Term>>, k: nat, nm: nat) {
    k <= |ms| && k <= |bodies| && forall j | 0 <= j < k :: IsNumbered(ms[j], bodies[j], nm)
  }

  lemma NumberedMore(ms: seq<Method>, bodies: seq<seq<Term>>, k: nat, m: Method, nm: nat)
    requires |ms| == k < |bodies| && AllNumbered(ms, bodies, k, nm) && IsNumbered(m, bodies[k], nm)
    ensures AllNumbered(ms + [m], bodies, k + 1, nm)
  {
  }

  // init_methods: numbers and links the methods of a class, the nucleus last.
  method InitMethods(bodies: seq<seq<Term>>, from: nat, nm: nat) returns (lk: Linker, ms: seq<Method>, end: nat)
    requires forall i | 0 <= i < |bodies| :: ShapeS(bodies[i]) && WfS(bodies[i], false, nm)
    ensures |ms| == |bodies| && AllDefined(lk.tab, ms, from, end)
    ensures forall i | 0 <= i < |ms| :: IsNumbered(ms[i], bodies[i], nm)
  {
    lk := new Linker();
    ms, end := [], from;
    for i := 0 to |bodies|
      invariant |ms| == i && AllDefined(lk.tab, ms, from, end) && fresh(lk)
      invariant forall id: nat | id >= end :: Get(lk.tab, id) == FRESH
      invariant AllNumbered(ms, bodies, i, nm)
    {
      var m := DefineNext(lk, bodies[i], ms, from, end, nm);
      NumberedMore(ms, bodies, i, m, nm);
      ms, end := ms + [m], m.ret + 1;
    }
  }

  // The generated code of a class whose last method is its nucleus.
  ghost function CodeOf(tab: Tab, all: seq<Method>): Code
    requires |all| > 0 && forall f | 0 <= f < |all| :: all[f].body != []
  {
    var n := |all| - 1;
    var g: CallGraph := seq(n, f requires 0 <= f < n => CallsS(all[f].body));
    var d := if Closed(g) && InitDepth(g).Some? then InitDepth(g).value else 0;
    Code(CasesM(all), tab, seq(n, f requires 0 <= f < n => all[f].body[0].id), d)
  }

  lemma {:induction false} CallsWfT(t: Term, inSwitch: bool, nm: nat)
    requires WfT(t, inSwitch, nm) && ShapeT(t)
    ensures forall q | q in CallsT(t) :: q < nm
    decreases t, 0
  {
    if t.Cond? {
      if t.oper.Hfor? { CallsWfS(t.endEach, false, nm); }
      CallsWfS(t.body, if t.oper.Hswitch? then true else if t.oper.Hcase? then false else inSwitch, nm);
    }
  }

  lemma {:induction false} CallsWfS(ss: seq<Term>, inSwitch: bool, nm: nat)
    requires WfS(ss, inSwitch, nm) && forall i | 0 <= i < |ss| :: ShapeT(ss[i])
    ensures forall q | q in CallsS(ss) :: q < nm
    decreases ss, 1
  {
    if ss != [] {
      CallsWfS(ss[..|ss| - 1], inSwitch, nm);
      CallsWfT(ss[|ss| - 1], inSwitch, nm);
    }
  }

  // Numbering leaves the calls alone.
  lemma {:induction false} LabelKeepsCallsT(t: Term, n: nat)
    requires ShapeT(t)
    ensures CallsT(LabelT(t, n)) == CallsT(t)
    decreases t, 0
  {
    if t.Cond? {
      if t.oper.Hfor? {
        LabelKeepsCalls(t.endEach, n + 1);
        LabelKeepsCalls(t.body, EndS(LabelS(t.endEach, n + 1)));
      } else {
        LabelKeepsCalls(t.body, n + 1);
      }
    }
  }

  lemma {:induction false} LabelKeepsCalls(ss: seq<Term>, n: nat)
    requires forall i | 0 <= i < |ss| :: ShapeT(ss[i])
    ensures CallsS(LabelS(ss, n)) == CallsS(ss)
    decreases ss, 1
  {
    if ss != [] {
      var front := LabelS(ss[..|ss| - 1], n);
      LabelKeepsCalls(ss[..|ss| - 1], n);
      LabelKeepsCallsT(ss[|ss| - 1], if front == [] then n else EndS(front));
      assert LabelS(ss, n)[..|ss| - 1] == front;
    }
  }

  lemma NumberedCalls(m: Method, body: seq<Term>, nm: nat)
    requires ShapeS(body) && IsNumbered(m, body, nm)
    ensures CallsS(m.body) == CallsS(body)
  {
    LabelKeepsCalls(body, m.body[0].id);
  }

  // Methods, as they are written, can be ranked so that every call in a body goes down.
  ghost predicate BodiesRanked(bodies: seq<seq<Term>>, rank: seq<nat>) {
    && |rank| == |bodies|
    && forall f: nat, q: nat {:trigger HasCall(bodies[f], q)} | f < |bodies| && HasCall(bodies[f], q) ::
         q < |bodies| && rank[q] < rank[f]
  }

  ghost predicate Rankable(bodies: seq<seq<Term>>) { exists rank :: BodiesRanked(bodies, rank) }

  lemma {:induction false} RankedAlike(bodies: seq<seq<Term>>, g: CallGraph, rank: seq<nat>)
    requires |g| == |bodies| && forall f | 0 <= f < |bodies| :: g[f] == CallsS(bodies[f])
    ensures BodiesRanked(bodies, rank) <==> Ranked(g, rank)
  {
    forall f, q: nat | 0 <= f < |g| ensures q in g[f] <==> HasCall(bodies[f], q) { CallsAreCalls(bodies[f], q); }
    if Ranked(g, rank) {
      forall f: nat, q: nat | f < |bodies| && HasCall(bodies[f], q) ensures q < |bodies| && rank[q] < rank[f] {
        var i :| 0 <= i < |g[f]| && g[f][i] == q;
      }
    }
    if BodiesRanked(bodies, rank) {
      forall f, i | 0 <= f < |g| && 0 <= i < |g[f]| ensures g[f][i] < |g| && rank[g[f][i]] < rank[f] {
        var q := g[f][i];
        assert q in g[f] && HasCall(bodies[f], q);
      }
    }
  }

  lemma {:induction false} GraphClosed(tab: Tab, all: seq<Method>, g: CallGraph)
    requires |all| > 0 && |g| == |all| - 1 && forall f | 0 <= f < |all| :: Linked(tab, all[f])
    requires forall f | 0 <= f < |g| :: WfS(all[f].body, false, |g|) && g[f] == CallsS(all[f].body)
    ensures Closed(g)
  {
    forall f, i | 0 <= f < |g| && 0 <= i < |g[f]| ensures g[f][i] < |g| {
      assert Linked(tab, all[f]);
      CallsWfS(all[f].body, false, |g|);
      assert g[f][i] in CallsS(all[f].body);
    }
  }

  // All that a class needs besides a depth.
  lemma {:induction false} ClassLinked<S>(tab: Tab, all: seq<Method>, lo: nat, hi: nat, I: Interp<S>) returns (w: World<S>)
    requires |all| > 0 && AllDefined(tab, all, lo, hi)
    requires forall f | 0 <= f < |all| :: all[f].body != [] && WfS(all[f].body, false, |all| - 1)
    ensures w == World(all[..|all| - 1], CodeOf(tab, all), I) && Closed(w.Graph())
    ensures w.Compiled() && w.MethodOk(all[|all| - 1]) <==> InitDepth(w.Graph()).Some?
  {
    var n := |all| - 1;
    w := World(all[..n], CodeOf(tab, all), I);
    CasesOfM(tab, all, lo, hi);
    AllLinked(tab, all, lo, hi);
    assert w.Graph() == seq(n, f requires 0 <= f < n => CallsS(all[f].body));
    GraphClosed(tab, all, w.Graph());
    assert forall f | 0 <= f < |all| :: Linked(tab, all[f]);
  }

  // The class `bodies`, the nucleus last, becomes a program for the step machine if and only if its
  // methods can be ranked so that every call in a body goes down.
  lemma {:induction false} ClassCompiled<S>(tab: Tab, all: seq<Method>, lo: nat, hi: nat, bodies: seq<seq<Term>>,
                                            I: Interp<S>) returns (w: World<S>)
    requires |bodies| == |all| > 0 && AllDefined(tab, all, lo, hi)
    requires forall f | 0 <= f < |all| ::
               all[f].body != [] && ShapeS(bodies[f]) && IsNumbered(all[f], bodies[f], |all| - 1)
    ensures w == World(all[..|all| - 1], CodeOf(tab, all), I)
    ensures w.Compiled() && w.MethodOk(all[|all| - 1]) <==> Rankable(bodies[..|all| - 1])
  {
    w := ClassLinked(tab, all, lo, hi, I);
    var n, g := |all| - 1, w.Graph();
    assert |g| == n && forall f | 0 <= f < n :: g[f] == CallsS(all[f].body);
    forall f | 0 <= f < n ensures g[f] == CallsS(bodies[..n][f]) { NumberedCalls(all[f], bodies[f], n); }
    forall rank ensures BodiesRanked(bodies[..n], rank) <==> Ranked(g, rank) { RankedAlike(bodies[..n], g, rank); }
    RefusedIffRecursive(g);
  }

  // ---------------------------------------------------------------- runs of the handler

  ghost predicate Finishes<S>(w: World<S>, nucleus: Method, s: S, fuel: nat, s': S) {
    exists how :: Exec(w.ms, w.I, fuel, nucleus.Steps(), 0, MethodLive(AS_LINKED), s) == Done(how, s')
  }

  // The machine after `n` steps of a handler that was entered with an empty stack.
  ghost function HandlerRun<S>(w: World<S>, nucleus: Method, s: S, n: nat): Conf<S>
    requires nucleus.body != []
  {
    Steps(w.code, w.I, n, Run(nucleus.body[0].id, [], s))
  }

  lemma {:induction false} NucleusFits<S>(w: World<S>, nucleus: Method)
    requires w.Compiled() && w.MethodOk(nucleus)
    ensures Fits(w, MethodPlace(nucleus, w.code.depth))
  {
    EndsInRet(w, nucleus);
    assert nucleus.Steps()[..|nucleus.body|] == nucleus.body;
    assert CallsS(nucleus.Steps()) == CallsS(nucleus.body) + CallsT(Ret(nucleus.ret)) == CallsS(nucleus.body);
    CallsWfS(nucleus.body, false, |w.ms|);
    forall q | q in CallsS(nucleus.Steps()) ensures w.DepthAtMost(q, w.code.depth) { MethodDepth(w.Graph(), q); }
  }

  // With fuel for the program, the machine either ends as the program does, after one more
  // step than it takes to the return step, or is still at work.
  lemma {:induction false} HandlerAgrees<S>(w: World<S>, nucleus: Method, s: S, fuel: nat) returns (n: nat)
    requires w.Compiled() && w.MethodOk(nucleus)
    ensures HandlerRun(w, nucleus, s, n).Run?
    ensures match Exec(w.ms, w.I, fuel, nucleus.Steps(), 0, MethodLive(AS_LINKED), s)
            case Timeout => n >= fuel
            case Done(_, s') => HandlerRun(w, nucleus, s, n + 1) == Halt(s')
  {
    NucleusFits(w, nucleus);
    var p := MethodPlace(nucleus, w.code.depth);
    n := Sim(w, fuel, p, 0, [], s);
    var out := Outcome(w, fuel, p, 0, s);
    var m0 := Run(nucleus.body[0].id, [], s);
    if out.Done? {
      assert HasT(w.code.cases, nucleus.Steps()[|nucleus.body|]);
      OneStep(w, Run(nucleus.ret, [], out.s));
      StepsAdd(w.code, w.I, n, 1, m0);
    }
  }

  lemma {:induction false} StaysStopped<S>(w: World<S>, n: nat, k: nat, m: Conf<S>)
    requires n <= k && !Steps(w.code, w.I, n, m).Run?
    ensures Steps(w.code, w.I, k, m) == Steps(w.code, w.I, n, m)
  {
    StepsAdd(w.code, w.I, n, k - n, m);
    StepsStopped(w.code, w.I, k - n, Steps(w.code, w.I, n, m));
  }

  // For every class without recursion, every meaning of its statements and every start: the
  // handler ends with a state exactly when the structured nucleus does, and it never reaches
  // a default case, of the steps or of the call stack.
  lemma {:induction false} HandlerDoesWhatTheNucleusSays<S>(w: World<S>, nucleus: Method, s: S)
    requires w.Compiled() && w.MethodOk(nucleus)
    ensures forall fuel, s' :: Finishes(w, nucleus, s, fuel, s') ==> exists n :: HandlerRun(w, nucleus, s, n) == Halt(s')
    ensures forall n: nat, s' :: HandlerRun(w, nucleus, s, n) == Halt(s') ==> Finishes(w, nucleus, s, n + 1, s')
    ensures forall n: nat :: !HandlerRun(w, nucleus, s, n).Abort?
  {
    forall fuel, s' | Finishes(w, nucleus, s, fuel, s') ensures exists n :: HandlerRun(w, nucleus, s, n) == Halt(s') {
      var n := HandlerAgrees(w, nucleus, s, fuel);
      assert HandlerRun(w, nucleus, s, n + 1) == Halt(s');
    }
    forall n: nat
      ensures !HandlerRun(w, nucleus, s, n).Abort?
      ensures HandlerRun(w, nucleus, s, n).Halt? ==> Finishes(w, nucleus, s, n + 1, HandlerRun(w, nucleus, s, n).s)
    {
      HandlerStopsOnlyWithTheNucleus(w, nucleus, s, n);
    }
  }

  lemma {:induction false} HandlerStopsOnlyWithTheNucleus<S>(w: World<S>, nucleus: Method, s: S, n: nat)
    requires w.Compiled() && w.MethodOk(nucleus)
    ensures !HandlerRun(w, nucleus, s, n).Abort?
    ensures HandlerRun(w, nucleus, s, n).Halt? ==> Finishes(w, nucleus, s, n + 1, HandlerRun(w, nucleus, s, n).s)
  {
    var k := HandlerAgrees(w, nucleus, s, n + 1);
    var m0 := Run(nucleus.body[0].id, [], s);
    if !HandlerRun(w, nucleus, s, n).Run? {
      if n <= k {
        StaysStopped(w, n, k, m0);
      } else {
        StaysStopped(w, k + 1, n, m0);
      }
    }
  }
}
