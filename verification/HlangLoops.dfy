/** Exactly which straight hfor loops run as they are written. */
module HlangLoops {
  import opened Options
  import opened HlangTerms
  import opened HlangMachine

  // An hfor whose body and end part are plain statements and jump keywords: the passes lose some of
  // the jumps, and the loop still does what is written under a condition that can be read off its
  // body and end part.

  predicate Straight(ss: seq<Term>) {
    forall i | 0 <= i < |ss| :: ss[i].Act? || (ss[i].Keyword? && ss[i].op != Case)
  }

  // The place of the first jump keyword from `i` on, or the end.
  function First(ss: seq<Term>, i: nat): (f: nat)
    requires i <= |ss|
    ensures i <= f <= |ss| && (f < |ss| ==> ss[f].Keyword?)
    decreases |ss| - i
  {
    if i == |ss| || ss[i].Keyword? then i else First(ss, i + 1)
  }

  // How a straight block ends, and with which state.
  function RunStraight<S>(I: Interp<S>, ss: seq<Term>, i: nat, live: Live, s: S): (How, S)
    requires i <= |ss|
    decreases |ss| - i
  {
    if i == |ss| then (Normal, s)
    else
      match ss[i]
      case Act(_, a) => RunStraight(I, ss, i + 1, live, I.act(a, s))
      case Keyword(_, op) => if live.Takes(op) then (Jumped(op), s) else RunStraight(I, ss, i + 1, live, s)
      case _ => (Normal, s)
  }

  lemma {:induction false} StraightRuns<S>(I: Interp<S>, fuel: nat, ss: seq<Term>, i: nat, live: Live, s: S)
    requires i <= |ss| && Straight(ss)
    ensures var (how, s') := RunStraight(I, ss, i, live, s);
      var out := Exec([], I, fuel, ss, i, live, s);
      (fuel >= |ss| - i || out.Done? ==> out == Done(how, s'))
    decreases |ss| - i
  {
    if i < |ss| && fuel > 0 {
      match ss[i]
      case Act(_, a) => StraightRuns(I, fuel - 1, ss, i + 1, live, I.act(a, s));
      case Keyword(_, _) => StraightRuns(I, fuel - 1, ss, i + 1, live, s);
    }
  }

  // Where nobody takes jumps, a block runs to its end; and only a jump that is taken ends it early.
  lemma {:induction false} RunsOut<S>(I: Interp<S>, ss: seq<Term>, i: nat, live: Live, s: S)
    requires i <= |ss|
    ensures var how := RunStraight(I, ss, i, live, s).0;
      how == Normal || (how.Jumped? && live.Takes(how.op))
    decreases |ss| - i
  {
    if i < |ss| {
      match ss[i]
      case Act(_, a) => RunsOut(I, ss, i + 1, live, I.act(a, s));
      case Keyword(_, _) => RunsOut(I, ss, i + 1, live, s);
      case _ =>
    }
  }

  // ---------------------------------------------------------------- one round of the loop

  datatype Turn<S> = Over(how: How, s: S) | Again(s: S)

  // One round of the loop: it ends, or it comes back to its test.
  function Round<S>(I: Interp<S>, t: Term, hand: Hand, s: S): Turn<S>
    requires t.Cond? && t.oper.Hfor?
  {
    var live := MethodLive(hand);
    var (v, s1) := I.test(t.test, s);
    if !v then Over(Normal, s1)
    else
      var (how, s2) := RunStraight(I, t.body, 0, InBody(t, live), s1);
      if how == Jumped(Return) then Over(how, s2)
      else if how == Jumped(Break) then Over(Normal, s2)
      else if how == Normal || (how == Jumped(Continue) && hand.again) then
        var (how', s3) := RunStraight(I, t.endEach, 0, InEnd(live), s2);
        if how' == Jumped(Return) then Over(how', s3) else if how' == Jumped(Break) then Over(Normal, s3) else Again(s3)
      else Again(s2)
  }

  // Up to `k` rounds.
  function Rounds<S>(I: Interp<S>, t: Term, hand: Hand, k: nat, s: S): Option<(How, S)>
    requires t.Cond? && t.oper.Hfor?
  {
    if k == 0 then None
    else
      match Round(I, t, hand, s)
      case Over(how, s') => Some((how, s'))
      case Again(s') => Rounds(I, t, hand, k - 1, s')
  }

  // One round of the structured loop is one `Round`.
  lemma {:induction false} OneRound<S>(I: Interp<S>, fuel: nat, t: Term, hand: Hand, s: S)
    requires t.Cond? && t.oper.Hfor? && Straight(t.body) && Straight(t.endEach) && fuel > 0
    ensures var out := Exec([], I, fuel, [t], 0, MethodLive(hand), s);
      fuel > |t.body| + |t.endEach| || out.Done? ==>
        match Round(I, t, hand, s)
        case Over(how, s') => out == Done(how, s')
        case Again(s') => out == Exec([], I, fuel - 1, [t], 0, MethodLive(hand), s')
  {
    var live := MethodLive(hand);
    var (v, s1) := I.test(t.test, s);
    if v {
      StraightRuns(I, fuel - 1, t.body, 0, InBody(t, live), s1);
      var (how, s2) := RunStraight(I, t.body, 0, InBody(t, live), s1);
      RunsOut(I, t.body, 0, InBody(t, live), s1);
      StraightRuns(I, fuel - 1, t.endEach, 0, InEnd(live), s2);
      RunsOut(I, t.endEach, 0, InEnd(live), s2);
      var (_, s3) := RunStraight(I, t.endEach, 0, InEnd(live), s2);
      assert Exec([], I, fuel - 1, [t], 1, live, s2) == Done(Normal, s2);
      assert Exec([], I, fuel - 1, [t], 1, live, s3) == Done(Normal, s3);
    }
  }

  // ---------------------------------------------------------------- whole runs of the loop

  ghost predicate Ends<S>(I: Interp<S>, t: Term, hand: Hand, s: S, how: How, s': S) {
    exists fuel: nat :: Exec([], I, fuel, [t], 0, MethodLive(hand), s) == Done(how, s')
  }

  lemma {:induction false} RunHasRounds<S>(I: Interp<S>, fuel: nat, t: Term, hand: Hand, s: S)
    requires t.Cond? && t.oper.Hfor? && Straight(t.body) && Straight(t.endEach)
    ensures var out := Exec([], I, fuel, [t], 0, MethodLive(hand), s);
      out.Done? ==> Rounds(I, t, hand, fuel, s) == Some((out.how, out.s))
    decreases fuel
  {
    if fuel > 0 {
      OneRound(I, fuel, t, hand, s);
      if Round(I, t, hand, s).Again? { RunHasRounds(I, fuel - 1, t, hand, Round(I, t, hand, s).s); }
    }
  }

  lemma {:induction false} RoundsAreRun<S>(I: Interp<S>, fuel: nat, t: Term, hand: Hand, k: nat, s: S)
    requires t.Cond? && t.oper.Hfor? && Straight(t.body) && Straight(t.endEach)
    requires Rounds(I, t, hand, k, s).Some? && fuel >= k + |t.body| + |t.endEach|
    ensures var (how, s') := Rounds(I, t, hand, k, s).value;
      Exec([], I, fuel, [t], 0, MethodLive(hand), s) == Done(how, s')
    decreases k
  {
    OneRound(I, fuel, t, hand, s);
    if Round(I, t, hand, s).Again? { RoundsAreRun(I, fuel - 1, t, hand, k - 1, Round(I, t, hand, s).s); }
  }

  // The structured loop does what its rounds do.
  lemma {:induction false} EndsByRounds<S>(I: Interp<S>, t: Term, hand: Hand, s: S, how: How, s': S)
    requires t.Cond? && t.oper.Hfor? && Straight(t.body) && Straight(t.endEach)
    ensures Ends(I, t, hand, s, how, s') <==> exists k: nat :: Rounds(I, t, hand, k, s) == Some((how, s'))
  {
    if fuel: nat :| Exec([], I, fuel, [t], 0, MethodLive(hand), s) == Done(how, s') {
      RunHasRounds(I, fuel, t, hand, s);
    }
    if k: nat :| Rounds(I, t, hand, k, s) == Some((how, s')) {
      RoundsAreRun(I, k + |t.body| + |t.endEach|, t, hand, k, s);
    }
  }

  // ---------------------------------------------------------------- the condition

  // How a straight block ends if all jumps are taken.
  function Way(ss: seq<Term>, i: nat): (how: How)
    requires i <= |ss| && Straight(ss)
    ensures how != Jumped(Case)
  {
    var f := First(ss, i);
    if f == |ss| then Normal else Jumped(ss[f].op)
  }

  // An end part: no jumps, or hcontinue comes first and only jump keywords follow it.
  predicate QuietEnd(e: seq<Term>, i: nat)
    requires i <= |e| && Straight(e)
  {
    || Way(e, i) == Normal
    || (Way(e, i) == Jumped(Continue) && forall j | First(e, i) <= j < |e| :: e[j].Keyword?)
  }

  // A body that leaves the loop never gets to the end part; one that ends normally needs a quiet
  // end part; and one that ends with hcontinue needs an end part that does nothing.
  predicate QuietLoop(b: seq<Term>, e: seq<Term>)
    requires Straight(b) && Straight(e)
  {
    match Way(b, 0)
    case Normal => QuietEnd(e, 0)
    case Jumped(op) => op == Continue ==> e == [] || (e[0].Keyword? && e[0].op == Continue)
  }

  // ---------------------------------------------------------------- quiet loops run as written

  lemma {:induction false} SameTakes<S>(I: Interp<S>, ss: seq<Term>, i: nat, a: Live, b: Live, s: S)
    requires i <= |ss| && Straight(ss) && a.loop == b.loop && a.ret == b.ret
    ensures RunStraight(I, ss, i, a, s) == RunStraight(I, ss, i, b, s)
    ensures a.loop && a.ret ==> RunStraight(I, ss, i, a, s).0 == Way(ss, i)
    decreases |ss| - i
  {
    if i < |ss| {
      match ss[i]
      case Act(_, x) => SameTakes(I, ss, i + 1, a, b, I.act(x, s));
      case Keyword(_, _) => SameTakes(I, ss, i + 1, a, b, s);
    }
  }

  // A quiet end part does the same whether its jumps are taken or not.
  lemma {:induction false} EndSame<S>(I: Interp<S>, e: seq<Term>, i: nat, a: Live, b: Live, s: S)
    requires i <= |e| && Straight(e) && QuietEnd(e, i) && !a.loop && !a.ret && b.loop && b.ret
    ensures RunStraight(I, e, i, a, s) == (Normal, RunStraight(I, e, i, b, s).1)
    decreases |e| - i
  {
    if i < |e| {
      match e[i]
      case Act(_, x) => EndSame(I, e, i + 1, a, b, I.act(x, s));
      case Keyword(_, _) => OnlyKeywords(I, e, i, a, s);
    }
  }

  lemma {:induction false} OnlyKeywords<S>(I: Interp<S>, e: seq<Term>, i: nat, a: Live, s: S)
    requires i <= |e| && Straight(e) && !a.loop && !a.ret && forall j | i <= j < |e| :: e[j].Keyword?
    ensures RunStraight(I, e, i, a, s) == (Normal, s)
    decreases |e| - i
  {
    if i < |e| { OnlyKeywords(I, e, i + 1, a, s); }
  }

  lemma {:induction false} RoundSame<S>(I: Interp<S>, t: Term, s: S)
    requires t.Cond? && t.oper.Hfor? && Straight(t.body) && Straight(t.endEach) && QuietLoop(t.body, t.endEach)
    ensures Round(I, t, AS_LINKED, s) == Round(I, t, AS_WRITTEN, s)
  {
    var a, b := MethodLive(AS_LINKED), MethodLive(AS_WRITTEN);
    var s1 := I.test(t.test, s).1;
    SameTakes(I, t.body, 0, InBody(t, a), InBody(t, b), s1);
    var (how, s2) := RunStraight(I, t.body, 0, InBody(t, a), s1);
    SameTakes(I, t.endEach, 0, InEnd(b), InEnd(b), s2);
    if how == Normal { EndSame(I, t.endEach, 0, InEnd(a), InEnd(b), s2); }
  }

  lemma {:induction false} RoundsSame<S>(I: Interp<S>, t: Term, k: nat, s: S)
    requires t.Cond? && t.oper.Hfor? && Straight(t.body) && Straight(t.endEach) && QuietLoop(t.body, t.endEach)
    ensures Rounds(I, t, AS_LINKED, k, s) == Rounds(I, t, AS_WRITTEN, k, s)
    decreases k
  {
    if k > 0 {
      RoundSame(I, t, s);
      var r := Round(I, t, AS_LINKED, s);
      if r.Again? { RoundsSame(I, t, k - 1, r.s); }
    }
  }

  // A quiet loop does what is written, for every meaning over any states.
  lemma {:induction false} QuietLoopRuns<S>(I: Interp<S>, t: Term, s: S, how: How, s': S)
    requires t.Cond? && t.oper.Hfor? && Straight(t.body) && Straight(t.endEach) && QuietLoop(t.body, t.endEach)
    ensures Ends(I, t, AS_LINKED, s, how, s') <==> Ends(I, t, AS_WRITTEN, s, how, s')
  {
    EndsByRounds(I, t, AS_LINKED, s, how, s');
    EndsByRounds(I, t, AS_WRITTEN, s, how, s');
    if k: nat :| Rounds(I, t, AS_LINKED, k, s) == Some((how, s')) { RoundsSame(I, t, k, s); }
    if k: nat :| Rounds(I, t, AS_WRITTEN, k, s) == Some((how, s')) { RoundsSame(I, t, k, s); }
  }

  // ---------------------------------------------------------------- the others do not

  // The tests that will still succeed, and the statements that have run.
  datatype Count = Count(tests: nat, acts: nat)

  const COUNTING: Interp<Count> := Interp(
    (_, s: Count) => s.(acts := s.acts + 1),
    (_, s: Count) => if s.tests == 0 then (false, s) else (true, s.(tests := s.tests - 1)),
    (_, _, s: Count) => (true, s))

  // How many plain statements there are from `i` on.
  function Acts(ss: seq<Term>, i: nat): nat
    requires i <= |ss|
    decreases |ss| - i
  {
    if i == |ss| then 0 else (if ss[i].Act? then 1 else 0) + Acts(ss, i + 1)
  }

  // All jumps are taken: the statements up to the first one run.
  lemma {:induction false} CountsTaken(ss: seq<Term>, i: nat, live: Live, s: Count)
    requires i <= |ss| && Straight(ss) && live.loop && live.ret
    ensures RunStraight(COUNTING, ss, i, live, s) == (Way(ss, i), s.(acts := s.acts + First(ss, i) - i))
    decreases |ss| - i
  {
    if i < |ss| && ss[i].Act? { CountsTaken(ss, i + 1, live, s.(acts := s.acts + 1)); }
  }

  // None is taken: all statements run.
  lemma {:induction false} CountsAll(ss: seq<Term>, i: nat, live: Live, s: Count)
    requires i <= |ss| && Straight(ss) && !live.loop && !live.ret
    ensures RunStraight(COUNTING, ss, i, live, s) == (Normal, s.(acts := s.acts + Acts(ss, i)))
    decreases |ss| - i
  {
    if i < |ss| {
      if ss[i].Act? { CountsAll(ss, i + 1, live, s.(acts := s.acts + 1)); } else { CountsAll(ss, i + 1, live, s); }
    }
  }

  // At least the statements up to the first keyword run, and no more only if the rest are keywords.
  lemma {:induction false} ActsToFirst(ss: seq<Term>, i: nat)
    requires i <= |ss| && Straight(ss)
    ensures Acts(ss, i) >= First(ss, i) - i
    ensures Acts(ss, i) == First(ss, i) - i <==> forall j | First(ss, i) <= j < |ss| :: ss[j].Keyword?
    decreases |ss| - i
  {
    if i < |ss| {
      ActsToFirst(ss, i + 1);
      if ss[i].Keyword? { NoActs(ss, i); }
    }
  }

  lemma {:induction false} NoActs(ss: seq<Term>, i: nat)
    requires i <= |ss| && Straight(ss)
    ensures Acts(ss, i) == 0 <==> forall j | i <= j < |ss| :: ss[j].Keyword?
    decreases |ss| - i
  {
    if i < |ss| { NoActs(ss, i + 1); }
  }

  // What a round of the counting loop does: it leaves the loop after `acts` statements, or the test
  // comes next.
  datatype Effect = Leaves(how: How, acts: nat) | Repeats(acts: nat)

  // What one round does to the counts.
  function RoundEffect(t: Term, hand: Hand): Effect
    requires t.Cond? && Straight(t.body) && Straight(t.endEach)
  {
    var b, e := First(t.body, 0), First(t.endEach, 0);
    match Way(t.body, 0)
    case Jumped(Return) => Leaves(Jumped(Return), b)
    case Jumped(Break) => Leaves(Normal, b)
    case Jumped(Continue) =>
      if !hand.again then Repeats(b) else EndEffect(t, hand, b)
    case _ => EndEffect(t, hand, b)
  }

  function EndEffect(t: Term, hand: Hand, b: nat): Effect
    requires t.Cond? && Straight(t.body) && Straight(t.endEach)
  {
    var e := First(t.endEach, 0);
    if !hand.ends then Repeats(b + Acts(t.endEach, 0))
    else
      match Way(t.endEach, 0)
      case Jumped(Return) => Leaves(Jumped(Return), b + e)
      case Jumped(Break) => Leaves(Normal, b + e)
      case _ => Repeats(b + e)
  }

  lemma {:induction false} RoundCounts(t: Term, hand: Hand, s: Count)
    requires t.Cond? && t.oper.Hfor? && Straight(t.body) && Straight(t.endEach) && s.tests > 0
    requires hand == AS_LINKED || hand == AS_WRITTEN
    ensures var r := RoundEffect(t, hand);
      Round(COUNTING, t, hand, s) ==
        if r.Leaves? then Over(r.how, Count(s.tests - 1, s.acts + r.acts)) else Again(Count(s.tests - 1, s.acts + r.acts))
  {
    var live := MethodLive(hand);
    var s1 := Count(s.tests - 1, s.acts);
    CountsTaken(t.body, 0, InBody(t, live), s1);
    var s2 := RunStraight(COUNTING, t.body, 0, InBody(t, live), s1).1;
    if hand.ends { CountsTaken(t.endEach, 0, InEnd(live), s2); } else { CountsAll(t.endEach, 0, InEnd(live), s2); }
  }

  // Two tests succeed.
  lemma {:induction false} TwoRounds(t: Term, hand: Hand)
    requires t.Cond? && t.oper.Hfor? && Straight(t.body) && Straight(t.endEach)
    requires hand == AS_LINKED || hand == AS_WRITTEN
    ensures var r := RoundEffect(t, hand);
      Rounds(COUNTING, t, hand, 3, Count(2, 0))
        == Some(if r.Leaves? then (r.how, Count(1, r.acts)) else (Normal, Count(0, 2 * r.acts)))
  {
    RoundCounts(t, hand, Count(2, 0));
    var r := RoundEffect(t, hand);
    if r.Repeats? {
      RoundCounts(t, hand, Count(1, r.acts));
      var last := Count(0, 2 * r.acts);
      assert Rounds(COUNTING, t, hand, 1, last) == Some((Normal, last));
      assert Rounds(COUNTING, t, hand, 2, Count(1, r.acts)) == Some((Normal, last));
    }
  }

  lemma {:induction false} RoundsOnce<S>(I: Interp<S>, t: Term, hand: Hand, j: nat, k: nat, s: S)
    requires t.Cond? && t.oper.Hfor? && Rounds(I, t, hand, j, s).Some? && Rounds(I, t, hand, k, s).Some?
    ensures Rounds(I, t, hand, j, s) == Rounds(I, t, hand, k, s)
    decreases j
  {
    var r := Round(I, t, hand, s);
    if r.Again? { RoundsOnce(I, t, hand, j - 1, k - 1, r.s); }
  }

  // The counts tell exactly the loops that are not quiet.
  lemma {:induction false} EffectsDiffer(t: Term)
    requires t.Cond? && t.oper.Hfor? && Straight(t.body) && Straight(t.endEach)
    ensures RoundEffect(t, AS_LINKED) == RoundEffect(t, AS_WRITTEN) <==> QuietLoop(t.body, t.endEach)
  {
    ActsToFirst(t.endEach, 0);
    NoActs(t.endEach, 0);
  }

  // A loop that is not quiet does something else, if statements and tests just count.
  lemma {:induction false} LoudLoopDiffers(t: Term)
    requires t.Cond? && t.oper.Hfor? && Straight(t.body) && Straight(t.endEach) && !QuietLoop(t.body, t.endEach)
    ensures exists how, s' ::
      Ends(COUNTING, t, AS_LINKED, Count(2, 0), how, s') && !Ends(COUNTING, t, AS_WRITTEN, Count(2, 0), how, s')
  {
    EffectsDiffer(t);
    TwoRounds(t, AS_LINKED);
    TwoRounds(t, AS_WRITTEN);
    var s := Count(2, 0);
    var (how, s') := Rounds(COUNTING, t, AS_LINKED, 3, s).value;
    EndsByRounds(COUNTING, t, AS_LINKED, s, how, s');
    EndsByRounds(COUNTING, t, AS_WRITTEN, s, how, s');
    if k: nat :| Rounds(COUNTING, t, AS_WRITTEN, k, s) == Some((how, s')) {
      RoundsOnce(COUNTING, t, AS_WRITTEN, k, 3, s);
    }
  }

  // A straight hfor does what is written, for every meaning of its statements and its test on two
  // counters, exactly if it is quiet; by QuietLoopRuns the same goes for meanings on other states.
  lemma {:induction false} AsWrittenIffQuiet(t: Term)
    requires t.Cond? && t.oper.Hfor? && Straight(t.body) && Straight(t.endEach)
    ensures (forall I: Interp<Count>, s, how, s' ::
               Ends(I, t, AS_LINKED, s, how, s') <==> Ends(I, t, AS_WRITTEN, s, how, s'))
       <==> QuietLoop(t.body, t.endEach)
  {
    if QuietLoop(t.body, t.endEach) {
      forall I: Interp<Count>, s, how, s'
        ensures Ends(I, t, AS_LINKED, s, how, s') <==> Ends(I, t, AS_WRITTEN, s, how, s')
      {
        QuietLoopRuns(I, t, s, how, s');
      }
    } else {
      LoudLoopDiffers(t);
    }
  }

  // ---------------------------------------------------------------- two examples

  // The end part has an hbreak: the loop as written ends after one round, the linked one goes on.
  const BREAK_IN_END := Cond(1, Hfor, 0, [Keyword(2, Break)], [Act(3, 0)])

  // A break in the end part is lost: the loop goes on to the next round.
  lemma {:induction false} BreakInEndIsLost()
    ensures Ends(COUNTING, BREAK_IN_END, AS_WRITTEN, Count(2, 0), Normal, Count(1, 1))
    ensures Ends(COUNTING, BREAK_IN_END, AS_LINKED, Count(2, 0), Normal, Count(0, 2))
  {
    var t := BREAK_IN_END;
    assert First(t.endEach, 0) == 0 && First(t.body, 0) == 1 && Acts(t.endEach, 0) == 0;
    TwoRounds(t, AS_WRITTEN);
    TwoRounds(t, AS_LINKED);
    EndsByRounds(COUNTING, t, AS_WRITTEN, Count(2, 0), Normal, Count(1, 1));
    EndsByRounds(COUNTING, t, AS_LINKED, Count(2, 0), Normal, Count(0, 2));
  }

  // The body has an hcontinue: the loop as written runs its end part, the linked one never does.
  const CONTINUE_IN_FOR := Cond(1, Hfor, 0, [Act(2, 0)], [Keyword(3, Continue)])

  // hcontinue skips the end part, which as written runs after every round.
  lemma {:induction false} ContinueSkipsEnd()
    ensures Ends(COUNTING, CONTINUE_IN_FOR, AS_WRITTEN, Count(2, 0), Normal, Count(0, 2))
    ensures Ends(COUNTING, CONTINUE_IN_FOR, AS_LINKED, Count(2, 0), Normal, Count(0, 0))
  {
    var t := CONTINUE_IN_FOR;
    assert First(t.endEach, 0) == 1 && First(t.body, 0) == 0;
    TwoRounds(t, AS_WRITTEN);
    TwoRounds(t, AS_LINKED);
    EndsByRounds(COUNTING, t, AS_WRITTEN, Count(2, 0), Normal, Count(0, 2));
    EndsByRounds(COUNTING, t, AS_LINKED, Count(2, 0), Normal, Count(0, 0));
  }
}
