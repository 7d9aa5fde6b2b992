/** Jump keywords that get lost. */
module HlangJumps {
  import opened Options
  import opened HlangTerms
  import opened HlangMachine

  // set_jumps enters neither the body of an hcase nor the end part of an hfor, so an hbreak,
  // hcontinue or hreturn there is never linked and goes on to what follows it; and hcontinue of an
  // hfor goes to the test, not to the end part. Here is where that makes no difference to what a
  // C++ reader of the source expects.

  // The innermost loop around a term, as far as jumps can get.
  datatype Inner = NoLoop | InWhile | InFor

  // As far as `h` differs from what is linked: every jump keyword inside the body of an hcase or
  // inside the end part of an hfor (`inside`) stands in a loop of that part, and none of them is
  // hreturn; and no hcontinue belongs to an hfor.
  predicate QuietT(t: Term, h: Hand, inside: bool, loop: Inner) {
    match t
    case Keyword(_, op) =>
      && (inside ==> !loop.NoLoop? && op != Return)
      && (h.again && op == Continue ==> !loop.InFor?)
    case Ret(_) => !inside
    case Cond(_, oper, _, e, b) =>
      match oper {
        case Hcase => QuietS(b, h, inside || h.cases, NoLoop)
        case Hwhile => QuietS(b, h, inside, InWhile)
        case Hfor => QuietS(b, h, inside, InFor) && QuietS(e, h, h.ends, NoLoop)
        case _ => QuietS(b, h, inside, loop)
      }
    case _ => true
  }

  predicate QuietS(ss: seq<Term>, h: Hand, inside: bool, loop: Inner) {
    forall i | 0 <= i < |ss| :: QuietT(ss[i], h, inside, loop)
  }

  // The surroundings as linked and as `h` has them take the same jumps, as far as a quiet block
  // can tell.
  predicate Alike(a: Live, b: Live, h: Hand, inside: bool, loop: Inner) {
    && a.hand == AS_LINKED && b.hand == h && a.expr == b.expr
    && (!inside ==> a.loop == b.loop && a.ret == b.ret)
    && (!loop.NoLoop? ==> a.loop && b.loop)
  }

  ghost predicate AllQuiet(ms: seq<Method>, h: Hand) {
    forall f | 0 <= f < |ms| :: QuietS(ms[f].Steps(), h, false, NoLoop)
  }

  // ---------------------------------------------------------------- how a quiet block ends

  // A jump that a block does not hand on: without a loop around it neither hbreak nor hcontinue,
  // and in an hfor no hcontinue.
  predicate Stays(out: Out, live: Live, h: Hand, loop: Inner) {
    out.Done? ==>
      && (!live.loop ==> out.how != Jumped(Break) && out.how != Jumped(Continue))
      && (h.again && loop.InFor? ==> out.how != Jumped(Continue))
  }

  lemma {:induction false} QuietOut<S>(ms: seq<Method>, I: Interp<S>, fuel: nat, ss: seq<Term>, i: nat, live: Live,
                                       h: Hand, inside: bool, loop: Inner, s: S)
    requires i <= |ss| && QuietS(ss, h, inside, loop) && live.hand == AS_LINKED
    ensures Stays(Exec(ms, I, fuel, ss, i, live, s), live, h, loop)
    decreases fuel, 1
  {
    if i < |ss| && fuel > 0 {
      var t := ss[i];
      assert QuietT(t, h, inside, loop);
      match t
      case Act(_, x) => QuietOut(ms, I, fuel - 1, ss, i + 1, live, h, inside, loop, I.act(x, s));
      case Keyword(_, _) => QuietOut(ms, I, fuel - 1, ss, i + 1, live, h, inside, loop, s);
      case Ret(_) =>
      case Call(_, f) =>
        if f < |ms| {
          var out := Exec(ms, I, fuel - 1, ms[f].Steps(), 0, MethodLive(AS_LINKED), s);
          if out.Done? { QuietOut(ms, I, fuel - 1, ss, i + 1, live, h, inside, loop, out.s); }
        }
      case Cond(_, _, _, _, _) => QuietOutCond(ms, I, fuel, ss, i, live, h, inside, loop, s);
    }
  }

  // Whether the body of a condition is entered, and what the test does.
  ghost function Entered<S>(I: Interp<S>, t: Term, live: Live, s: S): (bool, S)
    requires t.Cond?
  {
    if t.oper.Helse? || t.oper.Hswitch? || t.oper.Hdefault? then (true, s)
    else if t.oper.Hcase? then (if live.expr.Some? then I.same(t.test, live.expr.value, s) else (false, s))
    else I.test(t.test, s)
  }

  // Where the body of a condition stands.
  function BodyInside(t: Term, h: Hand, inside: bool): bool
    requires t.Cond?
  {
    inside || (t.oper.Hcase? && h.cases)
  }

  function BodyLoop(t: Term, loop: Inner): Inner
    requires t.Cond?
  {
    match t.oper case Hcase => NoLoop case Hwhile => InWhile case Hfor => InFor case _ => loop
  }

  lemma {:induction false} QuietOutCond<S>(ms: seq<Method>, I: Interp<S>, fuel: nat, ss: seq<Term>, i: nat, live: Live,
                                           h: Hand, inside: bool, loop: Inner, s: S)
    requires i < |ss| && fuel > 0 && ss[i].Cond? && QuietS(ss, h, inside, loop) && live.hand == AS_LINKED
    ensures Stays(Exec(ms, I, fuel, ss, i, live, s), live, h, loop)
    decreases fuel, 0
  {
    var t := ss[i];
    assert QuietT(t, h, inside, loop);
    var (v, s1) := Entered(I, t, live, s);
    QuietOut(ms, I, fuel - 1, ss, i + 1, live, h, inside, loop, s1);
    if v {
      QuietOut(ms, I, fuel - 1, t.body, 0, InBody(t, live), h, BodyInside(t, h, inside), BodyLoop(t, loop), s1);
      var out := Exec(ms, I, fuel - 1, t.body, 0, InBody(t, live), s1);
      if out.Done? {
        QuietOut(ms, I, fuel - 1, ss, i, live, h, inside, loop, out.s);
        QuietOut(ms, I, fuel - 1, ss, i + 1, live, h, inside, loop, out.s);
        QuietOut(ms, I, fuel - 1, ss, CloseIdx(ss, i), live, h, inside, loop, out.s);
        if t.oper.Hfor? {
          QuietOut(ms, I, fuel - 1, t.endEach, 0, InEnd(live), h, h.ends, NoLoop, out.s);
          var end := Exec(ms, I, fuel - 1, t.endEach, 0, InEnd(live), out.s);
          if end.Done? { QuietOut(ms, I, fuel - 1, ss, i, live, h, inside, loop, end.s); }
        }
      }
    }
  }

  // ---------------------------------------------------------------- quiet blocks run alike

  // In quiet methods it makes no difference whether jumps are as linked or as `h` has them.
  lemma {:induction false} QuietRuns<S>(ms: seq<Method>, I: Interp<S>, fuel: nat, ss: seq<Term>, i: nat, a: Live, b: Live,
                                        h: Hand, inside: bool, loop: Inner, s: S)
    requires AllQuiet(ms, h)
    requires i <= |ss| && QuietS(ss, h, inside, loop) && Alike(a, b, h, inside, loop)
    ensures Exec(ms, I, fuel, ss, i, a, s) == Exec(ms, I, fuel, ss, i, b, s)
    decreases fuel, 1
  {
    if i < |ss| && fuel > 0 {
      var t := ss[i];
      assert QuietT(t, h, inside, loop);
      match t
      case Act(_, x) => QuietRuns(ms, I, fuel - 1, ss, i + 1, a, b, h, inside, loop, I.act(x, s));
      case Keyword(_, _) => QuietRuns(ms, I, fuel - 1, ss, i + 1, a, b, h, inside, loop, s);
      case Ret(_) =>
      case Call(_, f) =>
        if f < |ms| {
          QuietRuns(ms, I, fuel - 1, ms[f].Steps(), 0, MethodLive(AS_LINKED), MethodLive(h), h, false, NoLoop, s);
          var out := Exec(ms, I, fuel - 1, ms[f].Steps(), 0, MethodLive(AS_LINKED), s);
          if out.Done? { QuietRuns(ms, I, fuel - 1, ss, i + 1, a, b, h, inside, loop, out.s); }
        }
      case Cond(_, _, _, _, _) => QuietCond(ms, I, fuel, ss, i, a, b, h, inside, loop, s);
    }
  }

  lemma {:induction false} QuietCond<S>(ms: seq<Method>, I: Interp<S>, fuel: nat, ss: seq<Term>, i: nat, a: Live, b: Live,
                                        h: Hand, inside: bool, loop: Inner, s: S)
    requires AllQuiet(ms, h)
    requires i < |ss| && fuel > 0 && ss[i].Cond? && QuietS(ss, h, inside, loop) && Alike(a, b, h, inside, loop)
    ensures Exec(ms, I, fuel, ss, i, a, s) == Exec(ms, I, fuel, ss, i, b, s)
    decreases fuel, 0
  {
    var t := ss[i];
    assert QuietT(t, h, inside, loop);
    var (v, s1) := Entered(I, t, a, s);
    if !v {
      QuietRuns(ms, I, fuel - 1, ss, i + 1, a, b, h, inside, loop, s1);
    } else {
      var inside', loop' := BodyInside(t, h, inside), BodyLoop(t, loop);
      QuietRuns(ms, I, fuel - 1, t.body, 0, InBody(t, a), InBody(t, b), h, inside', loop', s1);
      var out := Exec(ms, I, fuel - 1, t.body, 0, InBody(t, a), s1);
      if out.Done? {
        if t.oper.Hwhile? || t.oper.Hfor? {
          QuietOut(ms, I, fuel - 1, t.body, 0, InBody(t, a), h, inside', loop', s1);
          QuietLoop(ms, I, fuel, ss, i, a, b, h, inside, loop, s, out);
        } else {
          QuietRest(ms, I, fuel, ss, i, a, b, h, inside, loop, out.s);
        }
      }
    }
  }

  // What comes after the body of a condition that is no loop.
  lemma {:induction false} QuietRest<S>(ms: seq<Method>, I: Interp<S>, fuel: nat, ss: seq<Term>, i: nat, a: Live, b: Live,
                                        h: Hand, inside: bool, loop: Inner, s: S)
    requires AllQuiet(ms, h)
    requires i < |ss| && fuel > 0 && ss[i].Cond? && QuietS(ss, h, inside, loop) && Alike(a, b, h, inside, loop)
    ensures var n := if ss[i].oper.Hswitch? then i + 1 else CloseIdx(ss, i);
      Exec(ms, I, fuel - 1, ss, n, a, s) == Exec(ms, I, fuel - 1, ss, n, b, s)
    decreases fuel - 1, 3
  {
    QuietRuns(ms, I, fuel - 1, ss, if ss[i].oper.Hswitch? then i + 1 else CloseIdx(ss, i), a, b, h, inside, loop, s);
  }

  lemma {:induction false} QuietLoop<S>(ms: seq<Method>, I: Interp<S>, fuel: nat, ss: seq<Term>, i: nat, a: Live, b: Live,
                                        h: Hand, inside: bool, loop: Inner, s: S, out: Out<S>)
    requires AllQuiet(ms, h)
    requires i < |ss| && fuel > 0 && ss[i].Cond? && QuietS(ss, h, inside, loop) && Alike(a, b, h, inside, loop)
    requires ss[i].oper.Hwhile? || ss[i].oper.Hfor?
    requires I.test(ss[i].test, s).0 && out.Done?
    requires Exec(ms, I, fuel - 1, ss[i].body, 0, InBody(ss[i], a), I.test(ss[i].test, s).1) == out
    requires Exec(ms, I, fuel - 1, ss[i].body, 0, InBody(ss[i], b), I.test(ss[i].test, s).1) == out
    requires h.again && ss[i].oper.Hfor? ==> out.how != Jumped(Continue)
    ensures Exec(ms, I, fuel, ss, i, a, s) == Exec(ms, I, fuel, ss, i, b, s)
    decreases fuel - 1, 3
  {
    QuietRuns(ms, I, fuel - 1, ss, i, a, b, h, inside, loop, out.s);
    QuietRuns(ms, I, fuel - 1, ss, i + 1, a, b, h, inside, loop, out.s);
    if ss[i].oper.Hfor? { QuietEnd(ms, I, fuel, ss, i, a, b, h, inside, loop, out.s); }
  }

  lemma {:induction false} QuietEnd<S>(ms: seq<Method>, I: Interp<S>, fuel: nat, ss: seq<Term>, i: nat, a: Live, b: Live,
                                       h: Hand, inside: bool, loop: Inner, s: S)
    requires AllQuiet(ms, h)
    requires i < |ss| && fuel > 0 && ss[i].Cond? && ss[i].oper.Hfor?
    requires QuietS(ss, h, inside, loop) && Alike(a, b, h, inside, loop)
    ensures Around(ms, I, fuel - 1, ss, i, a, Exec(ms, I, fuel - 1, ss[i].endEach, 0, InEnd(a), s))
         == Around(ms, I, fuel - 1, ss, i, b, Exec(ms, I, fuel - 1, ss[i].endEach, 0, InEnd(b), s))
    decreases fuel - 1, 2
  {
    var e := ss[i].endEach;
    assert QuietT(ss[i], h, inside, loop);
    QuietRuns(ms, I, fuel - 1, e, 0, InEnd(a), InEnd(b), h, h.ends, NoLoop, s);
    QuietOut(ms, I, fuel - 1, e, 0, InEnd(a), h, h.ends, NoLoop, s);
    var out := Exec(ms, I, fuel - 1, e, 0, InEnd(a), s);
    if out.Done? { QuietRuns(ms, I, fuel - 1, ss, i, a, b, h, inside, loop, out.s); }
  }

  // ---------------------------------------------------------------- a break in an hcase

  // Without quiet methods it can make a difference: a loop whose hcase ends with hbreak.
  const BREAK_IN_CASE :=
    [Cond(1, Hwhile, 0, [], [Cond(2, Hswitch, 0, [], [Cond(3, Hcase, 0, [], [Keyword(4, Break)])])])]

  // The state counts the tests; the first three succeed.
  const THREE_TESTS: Interp<nat> := Interp((_, s) => s, (_, s) => (s < 3, s + 1), (_, _, s) => (true, s))

  // The program as written would stop after one test; the linked one tests until it fails.
  lemma {:induction false} BreakInCaseIsLost()
    ensures Exec([], THREE_TESTS, 20, BREAK_IN_CASE, 0, MethodLive(AS_WRITTEN), 0) == Done(Normal, 1)
    ensures Exec([], THREE_TESTS, 20, BREAK_IN_CASE, 0, MethodLive(AS_LINKED), 0) == Done(Normal, 4)
  {
    var lp := BREAK_IN_CASE[0];
    assert Exec([], THREE_TESTS, 19, lp.body, 0, InBody(lp, MethodLive(AS_WRITTEN)), 1) == Done(Jumped(Break), 1);
    LostRound(20, 0);
    LostRound(19, 1);
    LostRound(18, 2);
    assert Exec([], THREE_TESTS, 17, BREAK_IN_CASE, 0, MethodLive(AS_LINKED), 3)
        == Exec([], THREE_TESTS, 16, BREAK_IN_CASE, 1, MethodLive(AS_LINKED), 4);
  }

  lemma {:induction false} LostRound(fuel: nat, s: nat)
    requires fuel >= 5 && s < 3
    ensures Exec([], THREE_TESTS, fuel, BREAK_IN_CASE, 0, MethodLive(AS_LINKED), s)
         == Exec([], THREE_TESTS, fuel - 1, BREAK_IN_CASE, 0, MethodLive(AS_LINKED), s + 1)
  {
    var lp, sw := BREAK_IN_CASE[0], BREAK_IN_CASE[0].body[0];
    var live := InBody(lp, MethodLive(AS_LINKED));
    var cs := sw.body[0];
    assert Exec([], THREE_TESTS, fuel - 3, cs.body, 0, NotLive(AS_LINKED), s + 1) == Done(Normal, s + 1);
    assert Exec([], THREE_TESTS, fuel - 2, sw.body, 0, InBody(sw, live), s + 1) == Done(Normal, s + 1);
    assert Exec([], THREE_TESTS, fuel - 2, lp.body, 1, live, s + 1) == Done(Normal, s + 1);
    assert Exec([], THREE_TESTS, fuel - 1, lp.body, 0, live, s + 1) == Done(Normal, s + 1);
  }
}
