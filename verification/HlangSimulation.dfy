/**
  The step machine of a linked class does what its structured methods say.
 */
module HlangSimulation {
  import opened Options
  import opened HlangTerms
  import opened HlangLinks
  import opened HlangMachine
  import opened HlangDepth

  // Every term of a block, at any depth, is the case of its label.
  ghost predicate HasT(cases: map<nat, Term>, t: Term) {
    && t.id in cases && cases[t.id] == t
    && (t.Cond? ==> HasS(cases, t.body) && HasS(cases, t.endEach))
  }

  ghost predicate HasS(cases: map<nat, Term>, ss: seq<Term>) {
    forall i | 0 <= i < |ss| :: HasT(cases, ss[i])
  }

  datatype World<!S> = World(ms: seq<Method>, code: Code, I: Interp<S>) {
    ghost function Graph(): CallGraph { seq(|ms|, f requires 0 <= f < |ms| => CallsS(ms[f].body)) }

    // The class was built, linked and emitted.
    ghost predicate Compiled() {
      && |code.entry| == |ms|
      && Closed(Graph()) && InitDepth(Graph()) == Some(code.depth)
      && forall f | 0 <= f < |ms| :: MethodOk(ms[f]) && code.entry[f] == ms[f].body[0].id
    }

    ghost predicate MethodOk(m: Method) {
      && ShapeS(m.body) && WfS(m.body, false, |ms|)
      && HasS(code.cases, m.Steps())
      && StS(code.tab, m.Steps(), None, NO_CTX.(ret := Some(m.ret)))
    }

    ghost predicate DepthAtMost(f: nat, d: int) {
      && f < |ms| && Closed(Graph())
      && CalcDepth(Graph(), f, {}).Some? && CalcDepth(Graph(), f, {}).value <= d
    }
  }

  // A block with its surroundings, as the passes and as the program see them; the methods
  // it calls have at most depth `d`.
  datatype Place = Place(ss: seq<Term>, k: Option<nat>, c: Ctx, live: Live, inSwitch: bool, d: int) {
    function LabelAt(i: nat): Option<nat> { if i < |ss| then Some(ss[i].id) else k }

    function Target(how: How): Option<nat> {
      match how case Normal => k case Jumped(op) => if op == Case then None else c.At(op)
    }

    predicate Agree() {
      && live.loop == c.brk.Some? && live.loop == c.cnt.Some?
      && live.ret == c.ret.Some? && live.expr == c.expr && live.hand == AS_LINKED
    }

    predicate TermOk(i: nat, nm: nat)
      requires i < |ss|
    {
      WfT(ss[i], inSwitch, nm) || (i == |ss| - 1 && ss[i].Ret? && c.ret == Some(ss[i].id))
    }
  }

  ghost predicate Fits<S>(w: World<S>, p: Place) {
    && |p.ss| > 0 && ShapeS(p.ss)
    && HasS(w.code.cases, p.ss) && StS(w.code.tab, p.ss, p.k, p.c)
    && (forall i | 0 <= i < |p.ss| :: p.TermOk(i, |w.ms|))
    && (p.k.None? ==> p.ss[|p.ss| - 1].Ret?)
    && (p.inSwitch ==> p.k.Some? && p.live.expr.Some?)
    && p.Agree()
    && forall q | q in CallsS(p.ss) :: w.DepthAtMost(q, p.d)
  }

  // After `n` steps from `m` the machine is where a block with this outcome leaves it; an
  // unfinished block keeps it running for at least `fuel` steps.
  ghost predicate Reaches<S>(w: World<S>, p: Place, fuel: nat, stk: seq<nat>, out: Out<S>, m: Conf<S>, n: nat) {
    match out
    case Timeout => n >= fuel && Steps(w.code, w.I, n, m).Run?
    case Done(how, s) => p.Target(how).Some? && Steps(w.code, w.I, n, m) == Run(p.Target(how).value, stk, s)
  }

  // What the program does from term `i` of the block.
  ghost function Outcome<S>(w: World<S>, fuel: nat, p: Place, i: nat, s: S): Out<S>
    requires i <= |p.ss|
  {
    Exec(w.ms, w.I, fuel, p.ss, i, p.live, s)
  }

  // The machine does what the program does.
  ghost predicate Simulates<S>(w: World<S>, fuel: nat, p: Place, i: nat, stk: seq<nat>, s: S, n: nat) {
    && i <= |p.ss| && p.LabelAt(i).Some?
    && Reaches(w, p, fuel, stk, Outcome(w, fuel, p, i, s), Run(p.LabelAt(i).value, stk, s), n)
  }

  // ---------------------------------------------------------------- places

  lemma {:induction false} CloseAt(ss: seq<Term>, i: nat, k: Option<nat>)
    requires i < |ss|
    ensures CloseOf(ss, i, k) == if CloseIdx(ss, i) < |ss| then Some(ss[CloseIdx(ss, i)].id) else k
    decreases |ss| - i
  {
    if i + 1 < |ss| && ss[i + 1].ContinuesIf() { CloseAt(ss, i + 1, k); }
  }

  // Behind a term that is no return step there is always a label.
  lemma {:induction false} LabelsBehind<S>(w: World<S>, p: Place, i: nat)
    requires Fits(w, p) && i < |p.ss| && !p.ss[i].Ret?
    ensures NextOf(p.ss, i, p.k) == p.LabelAt(i + 1) && p.LabelAt(i + 1).Some?
    ensures CloseOf(p.ss, i, p.k) == p.LabelAt(CloseIdx(p.ss, i)) && p.LabelAt(CloseIdx(p.ss, i)).Some?
  {
    CloseAt(p.ss, i, p.k);
    if p.k.None? {
      CloseKnown(p.ss, i, 0);
      assert !p.ss[|p.ss| - 1].ContinuesIf();
    }
  }

  // The place of the body of a condition.
  function BodyPlace(p: Place, i: nat): Place
    requires i < |p.ss| && p.ss[i].Cond? && (p.ss[i].oper.Hfor? ==> p.ss[i].endEach != [])
  {
    var t := p.ss[i];
    var nx := NextOf(p.ss, i, p.k);
    Place(t.body, BodyEnd(t, nx, CloseOf(p.ss, i, p.k), p.k), BodyCtx(t, nx, p.c), InBody(t, p.live),
          if t.oper.Hswitch? then true else if t.oper.Hcase? then false else p.inSwitch, p.d)
  }

  // The place of the end part of an hfor.
  function EndPlace(p: Place, i: nat): Place
    requires i < |p.ss| && p.ss[i].Cond?
  {
    Place(p.ss[i].endEach, Some(p.ss[i].id), NO_CTX, NotLive(AS_LINKED), false, p.d)
  }

  // What a condition hands down to its parts.
  ghost predicate HandsDown<S>(w: World<S>, p: Place, i: nat)
    requires i < |p.ss|
  {
    var t := p.ss[i];
    && t.Cond? && ShapeT(t) && HasT(w.code.cases, t) && WfT(t, p.inSwitch, |w.ms|)
    && StT(w.code.tab, t, NextOf(p.ss, i, p.k), CloseOf(p.ss, i, p.k), p.k, p.c)
    && NextOf(p.ss, i, p.k).Some? && CloseOf(p.ss, i, p.k).Some?
    && (p.inSwitch ==> p.k.Some? && p.live.expr.Some?)
    && p.Agree()
    && forall q | q in CallsT(t) :: w.DepthAtMost(q, p.d)
  }

  lemma {:induction false} HandDown<S>(w: World<S>, p: Place, i: nat)
    requires Fits(w, p) && i < |p.ss| && p.ss[i].Cond?
    ensures HandsDown(w, p, i)
  {
    LabelsBehind(w, p, i);
    CallsMember(p.ss, i);
    assert HasT(w.code.cases, p.ss[i]);
    assert p.TermOk(i, |w.ms|);
  }

  // The end of a block inside a condition is never the return step.
  lemma {:induction false} PartFits<S>(w: World<S>, q: Place)
    requires ShapeS(q.ss) && HasS(w.code.cases, q.ss) && StS(w.code.tab, q.ss, q.k, q.c)
    requires WfS(q.ss, q.inSwitch, |w.ms|) && q.k.Some? && (q.inSwitch ==> q.live.expr.Some?)
    requires q.Agree() && forall f | f in CallsS(q.ss) :: w.DepthAtMost(f, q.d)
    ensures Fits(w, q)
  {
    forall j | 0 <= j < |q.ss| ensures q.TermOk(j, |w.ms|) {}
  }

  lemma {:induction false} BodyAgrees(p: Place, i: nat)
    requires i < |p.ss| && p.ss[i].Cond? && (p.ss[i].oper.Hfor? ==> p.ss[i].endEach != [])
    requires NextOf(p.ss, i, p.k).Some? && CloseOf(p.ss, i, p.k).Some? && p.Agree()
    requires p.ss[i].oper.Hcase? || p.ss[i].oper.Hdefault? ==> p.k.Some?
    requires p.inSwitch ==> p.live.expr.Some?
    ensures BodyPlace(p, i).Agree() && BodyPlace(p, i).k.Some?
    ensures BodyPlace(p, i).inSwitch ==> BodyPlace(p, i).live.expr.Some?
  {
  }

  lemma {:induction false} PartsFit<S>(w: World<S>, p: Place, i: nat)
    requires Fits(w, p) && i < |p.ss| && p.ss[i].Cond?
    ensures p.ss[i].oper.Hfor? ==> p.ss[i].endEach != [] && Fits(w, EndPlace(p, i))
    ensures Fits(w, BodyPlace(p, i)) && BodyPlace(p, i).k.Some?
  {
    HandDown(w, p, i);
    BodyFits(w, p, i);
    if p.ss[i].oper.Hfor? { PartFits(w, EndPlace(p, i)); }
  }

  lemma {:induction false} BodyFits<S>(w: World<S>, p: Place, i: nat)
    requires i < |p.ss| && HandsDown(w, p, i)
    ensures p.ss[i].oper.Hfor? ==> p.ss[i].endEach != []
    ensures Fits(w, BodyPlace(p, i)) && BodyPlace(p, i).k.Some?
  {
    BodyAgrees(p, i);
    PartFits(w, BodyPlace(p, i));
  }

  // The place of the body of a method.
  function MethodPlace(m: Method, d: int): Place {
    Place(m.Steps(), None, NO_CTX.(ret := Some(m.ret)), MethodLive(AS_LINKED), false, d)
  }

  lemma {:induction false} MethodFits<S>(w: World<S>, f: nat, d: int)
    requires w.Compiled() && w.DepthAtMost(f, d)
    ensures Fits(w, MethodPlace(w.ms[f], d - 1))
  {
    var g := w.Graph();
    var m := w.ms[f];
    assert w.MethodOk(m);
    assert g[f] == CallsS(m.body);
    assert m.Steps()[..|m.Steps()| - 1] == m.body;
    assert CallsS(m.Steps()) == CallsS(m.body) + CallsT(Ret(m.ret)) == CallsS(m.body);
    forall q | q in CallsS(m.Steps()) ensures w.DepthAtMost(q, d - 1) {
      var i :| 0 <= i < |g[f]| && g[f][i] == q;
      CalleeDepth(g, f, i);
    }
    EndsInRet(w, m);
  }

  lemma {:induction false} EndsInRet<S>(w: World<S>, m: Method)
    requires w.MethodOk(m)
    ensures ShapeS(m.Steps())
    ensures forall i | 0 <= i < |m.Steps()| :: MethodPlace(m, 0).TermOk(i, |w.ms|)
  {
    var ss := m.Steps();
    forall i | 0 <= i < |ss| ensures ShapeT(ss[i]) && MethodPlace(m, 0).TermOk(i, |w.ms|) {
      if i < |m.body| { assert ss[i] == m.body[i]; }
    }
    forall i | 0 <= i < |ss| && ss[i].ContinuesIf()
      ensures i > 0 && ss[i - 1].Cond? && (ss[i - 1].oper.Hif? || ss[i - 1].oper.Helif?)
    {
      assert ss[i] == m.body[i];
    }
  }

  // ---------------------------------------------------------------- simulation

  // What the machine does first at term `i`.
  lemma {:induction false} AtTerm<S>(w: World<S>, p: Place, i: nat)
    requires Fits(w, p) && i < |p.ss|
    ensures p.ss[i].id in w.code.cases && w.code.cases[p.ss[i].id] == p.ss[i]
    ensures StT(w.code.tab, p.ss[i], NextOf(p.ss, i, p.k), CloseOf(p.ss, i, p.k), p.k, p.c)
    ensures p.TermOk(i, |w.ms|) && p.Agree()
    ensures p.inSwitch ==> p.k.Some? && p.live.expr.Some?
    ensures !p.ss[i].Ret? ==>
      && NextOf(p.ss, i, p.k) == p.LabelAt(i + 1) && p.LabelAt(i + 1).Some?
      && CloseOf(p.ss, i, p.k) == p.LabelAt(CloseIdx(p.ss, i)) && p.LabelAt(CloseIdx(p.ss, i)).Some?
  {
    assert HasT(w.code.cases, p.ss[i]);
    if !p.ss[i].Ret? { LabelsBehind(w, p, i); }
  }

  // One step of the machine.
  lemma {:induction false} OneStep<S>(w: World<S>, m: Conf<S>)
    ensures Steps(w.code, w.I, 1, m) == Step(w.code, w.I, m)
  {
    assert Steps(w.code, w.I, 0, Step(w.code, w.I, m)) == Step(w.code, w.I, m);
  }

  ghost function First(ss: seq<Term>): nat { if ss == [] then 0 else ss[0].id }

  // Where the first step from a term leads.
  lemma {:induction false} StepsTo<S>(w: World<S>, p: Place, i: nat, stk: seq<nat>, s: S) returns (m: Conf<S>)
    requires Fits(w, p) && i < |p.ss|
    ensures m == Step(w.code, w.I, Run(p.ss[i].id, stk, s)) == Steps(w.code, w.I, 1, Run(p.ss[i].id, stk, s))
    ensures match p.ss[i]
            case Act(_, a) => m == Run(p.LabelAt(i + 1).value, stk, w.I.act(a, s))
            case Keyword(_, op) =>
              if p.live.Takes(op) then
                p.Target(Jumped(op)).Some? && m == Run(p.Target(Jumped(op)).value, stk, s)
              else
                m == Run(p.LabelAt(i + 1).value, stk, s)
            case Cond(_, oper, test, _, b) =>
              if oper.Helse? || oper.Hdefault? || oper.Hswitch? then
                m == Run(First(b), stk, s)
              else
                (oper.Hcase? ==> p.live.expr.Some?) &&
                var (v, s1) := if oper.Hcase? then w.I.same(test, p.live.expr.value, s) else w.I.test(test, s);
                m == Run(if v then First(b) else p.LabelAt(i + 1).value, stk, s1)
            case _ => true
  {
    AtTerm(w, p, i);
    var m0 := Run(p.ss[i].id, stk, s);
    m := Step(w.code, w.I, m0);
    OneStep(w, m0);
  }

  // A block behaves like the rest of its program, from any of its terms.
  lemma {:induction false} Sim<S>(w: World<S>, fuel: nat, p: Place, i: nat, stk: seq<nat>, s: S) returns (n: nat)
    requires w.Compiled() && Fits(w, p) && i <= |p.ss| && p.LabelAt(i).Some?
    requires |stk| + p.d <= w.code.depth
    ensures Simulates(w, fuel, p, i, stk, s, n)
    decreases fuel, 6
  {
    n := 0;
    if i < |p.ss| && fuel > 0 {
      AtTerm(w, p, i);
      n := SimTerm(w, fuel, p, i, stk, s);
    }
  }

  // The machine came to term `j` of a block, and so did the program.
  lemma {:induction false} GoOn<S>(w: World<S>, fuel: nat, p: Place, j: nat, stk: seq<nat>, s: S,
                                   m: Conf<S>, k: nat) returns (n: nat)
    requires w.Compiled() && Fits(w, p) && j <= |p.ss| && p.LabelAt(j).Some?
    requires |stk| + p.d <= w.code.depth && fuel > 0 && k > 0
    requires Steps(w.code, w.I, k, m) == Run(p.LabelAt(j).value, stk, s)
    ensures Reaches(w, p, fuel, stk, Outcome(w, fuel - 1, p, j, s), m, n) && n > 0
    decreases fuel, 0
  {
    var more := Sim(w, fuel - 1, p, j, stk, s);
    StepsAdd(w.code, w.I, k, more, m);
    n := k + more;
  }

  lemma {:induction false} SimTerm<S>(w: World<S>, fuel: nat, p: Place, i: nat, stk: seq<nat>, s: S) returns (n: nat)
    requires w.Compiled() && Fits(w, p) && i < |p.ss| && |stk| + p.d <= w.code.depth && fuel > 0
    ensures Simulates(w, fuel, p, i, stk, s, n)
    decreases fuel, 5
  {
    n := 0;
    match p.ss[i]
    case Ret(_) => AtTerm(w, p, i);
    case Call(_, _) => n := SimCall(w, fuel, p, i, stk, s);
    case Cond(_, oper, _, _, _) =>
      match oper {
        case Hwhile => n := SimLoop(w, fuel, p, i, stk, s);
        case Hfor => n := SimLoop(w, fuel, p, i, stk, s);
        case Hcase => n := SimCase(w, fuel, p, i, stk, s);
        case Hdefault => n := SimDefault(w, fuel, p, i, stk, s);
        case Hswitch => n := SimSwitch(w, fuel, p, i, stk, s);
        case _ => n := SimIf(w, fuel, p, i, stk, s);
      }
    case _ => n := SimPlain(w, fuel, p, i, stk, s);
  }

  lemma {:induction false} SimPlain<S>(w: World<S>, fuel: nat, p: Place, i: nat, stk: seq<nat>, s: S) returns (n: nat)
    requires w.Compiled() && Fits(w, p) && i < |p.ss| && |stk| + p.d <= w.code.depth && fuel > 0
    requires p.ss[i].Act? || p.ss[i].Keyword?
    ensures Simulates(w, fuel, p, i, stk, s, n)
    decreases fuel, 3
  {
    n := 1;
    AtTerm(w, p, i);
    var m := StepsTo(w, p, i, stk, s);
    if p.ss[i].Act? || !p.live.Takes(p.ss[i].op) {
      n := GoOn(w, fuel, p, i + 1, stk, m.s, Run(p.ss[i].id, stk, s), 1);
    }
  }

  // A part of the block ended where term `j` starts, or with a jump that the block hands on.
  lemma {:induction false} GoBehind<S>(w: World<S>, fuel: nat, p: Place, j: nat, stk: seq<nat>, q: Place, out: Out<S>,
                                       m: Conf<S>, k: nat) returns (n: nat)
    requires w.Compiled() && Fits(w, p) && j <= |p.ss| && p.LabelAt(j) == q.k
    requires |stk| + p.d <= w.code.depth && fuel > 0 && k > 0
    requires Reaches(w, q, fuel, stk, out, m, k)
    requires forall op :: q.Target(Jumped(op)).Some? ==> q.Target(Jumped(op)) == p.Target(Jumped(op))
    ensures Reaches(w, p, fuel, stk, Behind(w.ms, w.I, fuel - 1, p.ss, j, p.live, out), m, n)
    decreases fuel, 1
  {
    n := k;
    if out.Done? && out.how.Normal? { n := GoOn(w, fuel, p, j, stk, out.s, m, k); }
  }

  lemma {:induction false} SimIf<S>(w: World<S>, fuel: nat, p: Place, i: nat, stk: seq<nat>, s: S) returns (n: nat)
    requires w.Compiled() && Fits(w, p) && i < |p.ss| && |stk| + p.d <= w.code.depth && fuel > 0
    requires p.ss[i].InChain()
    ensures Simulates(w, fuel, p, i, stk, s, n)
    decreases fuel, 3
  {
    AtTerm(w, p, i);
    PartsFit(w, p, i);
    var m0, q := Run(p.ss[i].id, stk, s), BodyPlace(p, i);
    var m := StepsTo(w, p, i, stk, s);
    if !p.ss[i].oper.Helse? && !w.I.test(p.ss[i].test, s).0 {
      n := GoOn(w, fuel, p, i + 1, stk, m.s, m0, 1);
    } else {
      n := GoOn(w, fuel, q, 0, stk, m.s, m0, 1);
      n := GoBehind(w, fuel, p, CloseIdx(p.ss, i), stk, q, Outcome(w, fuel - 1, q, 0, m.s), m0, n);
      BodyOutcome(w, fuel, p, i, s);
    }
  }

  lemma {:induction false} BodyOutcome<S>(w: World<S>, fuel: nat, p: Place, i: nat, s: S)
    requires i < |p.ss| && fuel > 0 && (p.ss[i].InChain() || (p.ss[i].Cond? && p.ss[i].oper.Hswitch?))
    requires p.ss[i].Cond? && (p.ss[i].oper.Hif? || p.ss[i].oper.Helif?) ==> w.I.test(p.ss[i].test, s).0
    ensures var oper := p.ss[i].oper;
            var s1 := if oper.Hif? || oper.Helif? then w.I.test(p.ss[i].test, s).1 else s;
            var j := if oper.Hswitch? then i + 1 else CloseIdx(p.ss, i);
            var out := Outcome(w, fuel - 1, BodyPlace(p, i), 0, s1);
            Outcome(w, fuel, p, i, s) == Behind(w.ms, w.I, fuel - 1, p.ss, j, p.live, out)
  {
  }

  lemma {:induction false} SimSwitch<S>(w: World<S>, fuel: nat, p: Place, i: nat, stk: seq<nat>, s: S) returns (n: nat)
    requires w.Compiled() && Fits(w, p) && i < |p.ss| && |stk| + p.d <= w.code.depth && fuel > 0
    requires p.ss[i].Cond? && p.ss[i].oper.Hswitch?
    ensures Simulates(w, fuel, p, i, stk, s, n)
    decreases fuel, 3
  {
    AtTerm(w, p, i);
    PartsFit(w, p, i);
    var m0, q := Run(p.ss[i].id, stk, s), BodyPlace(p, i);
    var m := StepsTo(w, p, i, stk, s);
    n := GoOn(w, fuel, q, 0, stk, m.s, m0, 1);
    n := GoBehind(w, fuel, p, i + 1, stk, q, Outcome(w, fuel - 1, q, 0, m.s), m0, n);
    BodyOutcome(w, fuel, p, i, s);
  }

  lemma {:induction false} SimDefault<S>(w: World<S>, fuel: nat, p: Place, i: nat, stk: seq<nat>, s: S) returns (n: nat)
    requires w.Compiled() && Fits(w, p) && i < |p.ss| && |stk| + p.d <= w.code.depth && fuel > 0
    requires p.ss[i].Cond? && p.ss[i].oper.Hdefault?
    ensures Simulates(w, fuel, p, i, stk, s, n)
    decreases fuel, 3
  {
    AtTerm(w, p, i);
    PartsFit(w, p, i);
    var m := StepsTo(w, p, i, stk, s);
    n := GoOn(w, fuel, BodyPlace(p, i), 0, stk, m.s, Run(p.ss[i].id, stk, s), 1);
  }

  lemma {:induction false} SimCase<S>(w: World<S>, fuel: nat, p: Place, i: nat, stk: seq<nat>, s: S) returns (n: nat)
    requires w.Compiled() && Fits(w, p) && i < |p.ss| && |stk| + p.d <= w.code.depth && fuel > 0
    requires p.ss[i].Cond? && p.ss[i].oper.Hcase?
    ensures Simulates(w, fuel, p, i, stk, s, n)
    decreases fuel, 3
  {
    AtTerm(w, p, i);
    PartsFit(w, p, i);
    var m0 := Run(p.ss[i].id, stk, s);
    var m := StepsTo(w, p, i, stk, s);
    if w.I.same(p.ss[i].test, p.live.expr.value, s).0 {
      n := GoOn(w, fuel, BodyPlace(p, i), 0, stk, m.s, m0, 1);
    } else {
      n := GoOn(w, fuel, p, i + 1, stk, m.s, m0, 1);
    }
  }

  lemma {:induction false} SimLoop<S>(w: World<S>, fuel: nat, p: Place, i: nat, stk: seq<nat>, s: S) returns (n: nat)
    requires w.Compiled() && Fits(w, p) && i < |p.ss| && |stk| + p.d <= w.code.depth && fuel > 0
    requires p.ss[i].Cond? && (p.ss[i].oper.Hwhile? || p.ss[i].oper.Hfor?)
    ensures Simulates(w, fuel, p, i, stk, s, n)
    decreases fuel, 4
  {
    AtTerm(w, p, i);
    PartsFit(w, p, i);
    var m0, q := Run(p.ss[i].id, stk, s), BodyPlace(p, i);
    var m := StepsTo(w, p, i, stk, s);
    if !w.I.test(p.ss[i].test, s).0 {
      n := GoOn(w, fuel, p, i + 1, stk, m.s, m0, 1);
    } else {
      n := GoOn(w, fuel, q, 0, stk, m.s, m0, 1);
      n := SimRound(w, fuel, p, i, stk, Outcome(w, fuel - 1, q, 0, m.s), m0, n);
      LoopOutcome(w, fuel, p, i, s);
    }
  }

  // How a loop goes on when its body ended.
  ghost function Round<S>(w: World<S>, fuel: nat, p: Place, i: nat, out: Out<S>): Out<S>
    requires i < |p.ss| && p.ss[i].Cond? && fuel > 0
  {
    if out.Timeout? || out.how == Jumped(Return) then out
    else if out.how == Jumped(Break) then Outcome(w, fuel - 1, p, i + 1, out.s)
    else if out.how == Normal && p.ss[i].oper.Hfor? then
      Around(w.ms, w.I, fuel - 1, p.ss, i, p.live, Outcome(w, fuel - 1, EndPlace(p, i), 0, out.s))
    else Outcome(w, fuel - 1, p, i, out.s)
  }

  lemma {:induction false} LoopOutcome<S>(w: World<S>, fuel: nat, p: Place, i: nat, s: S)
    requires p.live.hand == AS_LINKED && i < |p.ss| && fuel > 0
    requires p.ss[i].Cond? && (p.ss[i].oper.Hwhile? || p.ss[i].oper.Hfor?)
    requires w.I.test(p.ss[i].test, s).0 && (p.ss[i].oper.Hfor? ==> p.ss[i].endEach != [])
    ensures Outcome(w, fuel, p, i, s)
         == Round(w, fuel, p, i, Outcome(w, fuel - 1, BodyPlace(p, i), 0, w.I.test(p.ss[i].test, s).1))
  {
  }

  // The body of a loop ended.
  lemma {:induction false} SimRound<S>(w: World<S>, fuel: nat, p: Place, i: nat, stk: seq<nat>, out: Out<S>,
                                       m0: Conf<S>, k: nat) returns (n: nat)
    requires w.Compiled() && Fits(w, p) && i < |p.ss| && |stk| + p.d <= w.code.depth && fuel > 0 && k > 0
    requires p.ss[i].Cond? && (p.ss[i].oper.Hwhile? || p.ss[i].oper.Hfor?)
    requires (p.ss[i].oper.Hfor? ==> p.ss[i].endEach != [])
    requires Reaches(w, BodyPlace(p, i), fuel, stk, out, m0, k)
    ensures Reaches(w, p, fuel, stk, Round(w, fuel, p, i, out), m0, n)
    decreases fuel, 3
  {
    n := k;
    if out.Done? {
      AtTerm(w, p, i);
      if out.how == Jumped(Break) {
        n := GoOn(w, fuel, p, i + 1, stk, out.s, m0, k);
      } else if out.how == Normal && p.ss[i].oper.Hfor? {
        n := SimEnd(w, fuel, p, i, stk, out.s, m0, k);
      } else if out.how != Jumped(Return) {
        n := GoOn(w, fuel, p, i, stk, out.s, m0, k);
      }
    }
  }

  // The end part of an hfor.
  lemma {:induction false} SimEnd<S>(w: World<S>, fuel: nat, p: Place, i: nat, stk: seq<nat>, s: S,
                                     m0: Conf<S>, k: nat) returns (n: nat)
    requires w.Compiled() && Fits(w, p) && i < |p.ss| && |stk| + p.d <= w.code.depth && fuel > 0 && k > 0
    requires p.ss[i].Cond? && p.ss[i].oper.Hfor?
    requires p.ss[i].endEach != [] && Steps(w.code, w.I, k, m0) == Run(p.ss[i].endEach[0].id, stk, s)
    ensures var out := Outcome(w, fuel - 1, EndPlace(p, i), 0, s);
            Reaches(w, p, fuel, stk, Around(w.ms, w.I, fuel - 1, p.ss, i, p.live, out), m0, n)
    decreases fuel, 2
  {
    PartsFit(w, p, i);
    var e := EndPlace(p, i);
    n := GoOn(w, fuel, e, 0, stk, s, m0, k);
    n := GoBehind(w, fuel, p, i, stk, e, Outcome(w, fuel - 1, e, 0, s), m0, n);
  }

  lemma {:induction false} SimCall<S>(w: World<S>, fuel: nat, p: Place, i: nat, stk: seq<nat>, s: S) returns (n: nat)
    requires w.Compiled() && Fits(w, p) && i < |p.ss| && |stk| + p.d <= w.code.depth && fuel > 0
    requires p.ss[i].Call?
    ensures Simulates(w, fuel, p, i, stk, s, n)
    decreases fuel, 3
  {
    AtTerm(w, p, i);
    CalleeFits(w, p, i);
    var f, back := p.ss[i].mth, p.LabelAt(i + 1).value;
    var m0, q := Run(p.ss[i].id, stk, s), MethodPlace(w.ms[f], p.d - 1);
    CallPushes(w, p, i, stk, s);
    n := GoOn(w, fuel, q, 0, stk + [back], s, m0, 1);
    var out := Outcome(w, fuel - 1, q, 0, s);
    if out.Done? {
      assert q.Target(out.how) == Some(w.ms[f].ret);
      RetPops(w, f, stk, back, out.s);
      StepsAdd(w.code, w.I, n, 1, m0);
      n := GoOn(w, fuel, p, i + 1, stk, out.s, m0, n + 1);
    }
  }

  lemma {:induction false} CalleeDepthAtMost<S>(w: World<S>, p: Place, i: nat)
    requires Fits(w, p) && i < |p.ss| && p.ss[i].Call?
    ensures w.DepthAtMost(p.ss[i].mth, p.d)
  {
    CallsMember(p.ss, i);
    assert p.ss[i].mth in CallsT(p.ss[i]);
  }

  lemma {:induction false} CalleeFits<S>(w: World<S>, p: Place, i: nat)
    requires w.Compiled() && Fits(w, p) && i < |p.ss| && p.ss[i].Call?
    ensures p.ss[i].mth < |w.ms| && p.d > 0 && Fits(w, MethodPlace(w.ms[p.ss[i].mth], p.d - 1))
    ensures w.ms[p.ss[i].mth].Steps()[0].id == w.code.entry[p.ss[i].mth]
  {
    CalleeDepthAtMost(w, p, i);
    MethodEntered(w, p.ss[i].mth, p.d);
  }

  lemma {:induction false} MethodEntered<S>(w: World<S>, f: nat, d: int)
    requires w.Compiled() && w.DepthAtMost(f, d)
    ensures d > 0 && Fits(w, MethodPlace(w.ms[f], d - 1)) && w.ms[f].Steps()[0].id == w.code.entry[f]
  {
    MethodFits(w, f, d);
    assert w.MethodOk(w.ms[f]);
  }

  lemma {:induction false} CallPushes<S>(w: World<S>, p: Place, i: nat, stk: seq<nat>, s: S)
    requires w.Compiled() && Fits(w, p) && i < |p.ss| && p.ss[i].Call? && p.ss[i].mth < |w.ms|
    requires |stk| + p.d <= w.code.depth && p.d > 0
    ensures p.LabelAt(i + 1).Some?
    ensures Steps(w.code, w.I, 1, Run(p.ss[i].id, stk, s))
         == Run(w.code.entry[p.ss[i].mth], stk + [p.LabelAt(i + 1).value], s)
  {
    AtTerm(w, p, i);
    OneStep(w, Run(p.ss[i].id, stk, s));
  }

  lemma {:induction false} RetPops<S>(w: World<S>, f: nat, stk: seq<nat>, back: nat, s: S)
    requires w.Compiled() && f < |w.ms|
    ensures Steps(w.code, w.I, 1, Run(w.ms[f].ret, stk + [back], s)) == Run(back, stk, s)
  {
    var m := w.ms[f];
    assert w.MethodOk(m);
    assert HasT(w.code.cases, m.Steps()[|m.body|]);
    assert (stk + [back])[..|stk|] == stk;
    OneStep(w, Run(m.ret, stk + [back], s));
  }
}
