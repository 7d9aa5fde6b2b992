/**
  Two meanings of an hlang class: the flat step machine that the emitter of hlang.cpp
  prints (one `case` per label), and the structured program that the user wrote.
 */
module HlangMachine {
  import opened Options
  import opened HlangTerms
  import opened HlangLinks

  // What plain statements, tests and comparisons of a case with its switch do to a state.
  // Tests may change the state too. With a trace as the state, they are the observations.
  datatype Interp<!S> = Interp(
    act: (nat, S) -> S,
    test: (nat, S) -> (bool, S),
    same: (nat, nat, S) -> (bool, S))

  // A method: its body, and the label of its return step.
  datatype Method = Method(body: seq<Term>, ret: nat) {
    function Steps(): seq<Term> { body + [Ret(ret)] }
  }

  // ---------------------------------------------------------------- the step machine

  // hg_step, hg_stack_arr up to hg_stack_idx, and the data; or the handler returned; or a
  // default case was reached.
  datatype Conf<S> = Run(step: nat, stack: seq<nat>, s: S) | Halt(s: S) | Abort

  // The generated code of a class: the cases by label, the fields the passes assigned, the
  // first labels of its methods and the number of cases of the call stack.
  datatype Code = Code(cases: map<nat, Term>, tab: Tab, entry: seq<nat>, depth: nat)

  function Goto<S>(next: Option<nat>, stack: seq<nat>, s: S): Conf<S> {
    match next case None => Abort case Some(l) => Run(l, stack, s)
  }

  // One case of the generated switch.
  function Step<S>(code: Code, I: Interp<S>, m: Conf<S>): Conf<S> {
    if !m.Run? then m
    else if m.step !in code.cases then Abort
    else
      var t := code.cases[m.step];
      var nd := Get(code.tab, t.id);
      match t
      case Act(_, a) => Goto(nd.next, m.stack, I.act(a, m.s))
      case Keyword(_, _) => Goto(nd.next, m.stack, m.s)
      case Call(_, f) =>
        if nd.next.None? || f >= |code.entry| || |m.stack| >= code.depth then Abort
        else Run(code.entry[f], m.stack + [nd.next.value], m.s)
      case Ret(_) =>
        if m.stack == [] then Halt(m.s)
        else Run(m.stack[|m.stack| - 1], m.stack[..|m.stack| - 1], m.s)
      case Cond(_, oper, test, _, body) =>
        if body == [] then Abort else
          match oper
          case Helse => Run(body[0].id, m.stack, m.s)
          case Hdefault => Run(body[0].id, m.stack, m.s)
          case Hswitch => Run(body[0].id, m.stack, m.s)
          case Hcase =>
            if nd.expr.None? then Abort else
              var (v, s) := I.same(test, nd.expr.value, m.s);
              if v then Run(body[0].id, m.stack, s) else Goto(nd.next, m.stack, s)
          case _ =>
            var (v, s) := I.test(test, m.s);
            if v then Run(body[0].id, m.stack, s) else Goto(nd.next, m.stack, s)
  }

  function Steps<S>(code: Code, I: Interp<S>, n: nat, m: Conf<S>): Conf<S>
    decreases n
  {
    if n == 0 then m else Steps(code, I, n - 1, Step(code, I, m))
  }

  lemma {:induction false} StepsAdd<S>(code: Code, I: Interp<S>, n: nat, k: nat, m: Conf<S>)
    ensures Steps(code, I, n + k, m) == Steps(code, I, k, Steps(code, I, n, m))
    decreases n
  {
    if n > 0 { StepsAdd(code, I, n - 1, k, Step(code, I, m)); }
  }

  // A machine that stopped stays as it is.
  lemma {:induction false} StepsStopped<S>(code: Code, I: Interp<S>, n: nat, m: Conf<S>)
    requires !m.Run?
    ensures Steps(code, I, n, m) == m
    decreases n
  {
    if n > 0 { StepsStopped(code, I, n - 1, m); }
  }

  // ---------------------------------------------------------------- the structured program

  // How a block ends: at its end, or with a jump out of it.
  datatype How = Normal | Jumped(op: Op)
  datatype Out<S> = Timeout | Done(how: How, s: S)

  // Which parts of a condition hand jumps on to their surroundings: the body of an hcase
  // (`cases`), and the end part of an hfor (`ends`); and whether hcontinue runs the end part of
  // its hfor (`again`).
  datatype Hand = Hand(cases: bool, ends: bool, again: bool)

  // What the passes of hlang do, and what the programs look like they do.
  const AS_LINKED := Hand(false, false, false)
  const AS_WRITTEN := Hand(true, true, true)

  // Which jumps the surroundings take, and the expression of the switch. Where a jump keyword
  // has nobody to take it, it does nothing.
  datatype Live = Live(loop: bool, ret: bool, expr: Option<nat>, hand: Hand) {
    predicate Takes(op: Op) {
      match op case Break => loop case Continue => loop case Return => ret case Case => false
    }
  }

  function NotLive(hand: Hand): Live { Live(false, false, None, hand) }
  function MethodLive(hand: Hand): Live { Live(false, true, None, hand) }

  // What the body of a condition sees.
  function InBody(t: Term, live: Live): Live
    requires t.Cond?
  {
    match t.oper
    case Hwhile => live.(loop := true)
    case Hfor => live.(loop := true)
    case Hswitch => live.(expr := Some(t.test))
    case Hcase => if live.hand.cases then live.(expr := None) else NotLive(live.hand)
    case _ => live
  }

  // What the end part of an hfor sees.
  function InEnd(live: Live): Live {
    if live.hand.ends then live.(loop := true, expr := None) else NotLive(live.hand)
  }

  // The first term behind `i` that does not continue its if chain.
  function CloseIdx(ss: seq<Term>, i: nat): (j: nat)
    requires i < |ss|
    ensures i < j <= |ss|
    decreases |ss| - i
  {
    if i + 1 < |ss| && ss[i + 1].ContinuesIf() then CloseIdx(ss, i + 1) else i + 1
  }

  // Runs a block from its term `i`, with at most `fuel` terms one inside or behind another.
  function Exec<S>(ms: seq<Method>, I: Interp<S>, fuel: nat, ss: seq<Term>, i: nat, live: Live, s: S): Out<S>
    requires i <= |ss|
    decreases fuel, 0
  {
    if i == |ss| then Done(Normal, s)
    else if fuel == 0 then Timeout
    else
      match ss[i]
      case Act(_, a) => Exec(ms, I, fuel - 1, ss, i + 1, live, I.act(a, s))
      case Keyword(_, op) =>
        if live.Takes(op) then Done(Jumped(op), s) else Exec(ms, I, fuel - 1, ss, i + 1, live, s)
      case Ret(_) => Done(Jumped(Return), s)
      case Call(_, f) =>
        if f >= |ms| then Timeout else
          (match Exec(ms, I, fuel - 1, ms[f].Steps(), 0, MethodLive(live.hand), s)
           case Timeout => Timeout
           case Done(_, s1) => Exec(ms, I, fuel - 1, ss, i + 1, live, s1))
      case Cond(_, oper, test, e, b) =>
        match oper
        case Helse => Behind(ms, I, fuel - 1, ss, CloseIdx(ss, i), live, Exec(ms, I, fuel - 1, b, 0, live, s))
        case Hswitch =>
          Behind(ms, I, fuel - 1, ss, i + 1, live, Exec(ms, I, fuel - 1, b, 0, InBody(ss[i], live), s))
        case Hdefault => Exec(ms, I, fuel - 1, b, 0, live, s)
        case Hcase =>
          if live.expr.None? then Timeout else
            var (v, s1) := I.same(test, live.expr.value, s);
            if v then Exec(ms, I, fuel - 1, b, 0, InBody(ss[i], live), s1)
            else Exec(ms, I, fuel - 1, ss, i + 1, live, s1)
        case Hwhile =>
          var (v, s1) := I.test(test, s);
          if !v then Exec(ms, I, fuel - 1, ss, i + 1, live, s1) else
            (match Exec(ms, I, fuel - 1, b, 0, InBody(ss[i], live), s1)
             case Timeout => Timeout
             case Done(Jumped(Return), s2) => Done(Jumped(Return), s2)
             case Done(Jumped(Break), s2) => Exec(ms, I, fuel - 1, ss, i + 1, live, s2)
             case Done(_, s2) => Exec(ms, I, fuel - 1, ss, i, live, s2))
        case Hfor =>
          var (v, s1) := I.test(test, s);
          if !v then Exec(ms, I, fuel - 1, ss, i + 1, live, s1) else
            (match Exec(ms, I, fuel - 1, b, 0, InBody(ss[i], live), s1)
             case Timeout => Timeout
             case Done(Jumped(Return), s2) => Done(Jumped(Return), s2)
             case Done(Jumped(Break), s2) => Exec(ms, I, fuel - 1, ss, i + 1, live, s2)
             case Done(Normal, s2) =>
               Around(ms, I, fuel - 1, ss, i, live, Exec(ms, I, fuel - 1, e, 0, InEnd(live), s2))
             case Done(Jumped(op), s2) =>
               if op == Continue && live.hand.again then
                 Around(ms, I, fuel - 1, ss, i, live, Exec(ms, I, fuel - 1, e, 0, InEnd(live), s2))
               else Exec(ms, I, fuel - 1, ss, i, live, s2))
        case _ =>
          var (v, s1) := I.test(test, s);
          if v then Behind(ms, I, fuel - 1, ss, CloseIdx(ss, i), live, Exec(ms, I, fuel - 1, b, 0, live, s1))
          else Exec(ms, I, fuel - 1, ss, i + 1, live, s1)
  }

  // Goes on with term `j` of a block if what came before ended normally.
  function Behind<S>(ms: seq<Method>, I: Interp<S>, fuel: nat, ss: seq<Term>, j: nat, live: Live, out: Out<S>): Out<S>
    requires j <= |ss|
    decreases fuel, 1
  {
    match out
    case Done(Normal, s) => Exec(ms, I, fuel, ss, j, live, s)
    case _ => out
  }

  // Goes on with the hfor at `i` when its end part ended: the test comes next, or a jump that the
  // end part handed on is taken.
  function Around<S>(ms: seq<Method>, I: Interp<S>, fuel: nat, ss: seq<Term>, i: nat, live: Live, out: Out<S>): Out<S>
    requires i < |ss|
    decreases fuel, 1
  {
    match out
    case Done(Normal, s) => Exec(ms, I, fuel, ss, i, live, s)
    case Done(Jumped(Break), s) => if live.hand.ends then Exec(ms, I, fuel, ss, i + 1, live, s) else out
    case Done(Jumped(Continue), s) => if live.hand.ends then Exec(ms, I, fuel, ss, i, live, s) else out
    case _ => out
  }
}
