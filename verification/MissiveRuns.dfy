/** The runs of the missive machine. */
module MissiveRuns {
  import opened Options
  import opened Missives
  import opened MissiveInv
  import opened MissiveSteps
  import opened MissiveHandle
  import opened MissiveSend

  // What holds in every reachable state, whatever the workers send and however their steps
  // interleave.

  // A worker sends a missive, or takes the next step of its pass. `choice` is what the step
  // finds out about the world: see StepLocal and StepOut.
  datatype Event = Says(w: nat, m: Msv) | Ticks(w: nat, choice: bool)

  // Nothing that the next step of worker `w` looks at is missing.
  ghost predicate Possible(s: Sys, w: nat)
    requires w < |s.ws|
  {
    var x := s.ws[w];
    match x.pc
    case Idle => true
    case Clear => true
    case Scan(j) => j <= |x.slots|
    case Found(j, g) => j < |x.slots| && g < |s.mem|
    case AckBack(j, g) => g < |s.mem| && s.mem[g].src < |s.ws| && w < |s.ws[s.mem[g].src].acks|
    case Handle(i) => forall g | g in x.inWork :: g < |s.mem| && s.mem[g].src < |x.handledFrom|
    case Local => w < |x.handledFrom| && forall g | g in x.out :: g < |s.mem|
    case Out(k) => k <= |x.out| && forall g | g in x.out :: g < |s.mem| && s.mem[g].dst < |x.acks|
    case Claim(k) => k < |x.out| && x.out[k] < |s.mem| && s.mem[x.out[k]].dst < |x.acks|
    case Post(k) =>
      k < |x.out| && x.out[k] < |s.mem| && s.mem[x.out[k]].dst < |s.ws| && w < |s.ws[s.mem[x.out[k]].dst].slots|
    case Signal(k) => k < |x.out| && x.out[k] < |s.mem| && s.mem[x.out[k]].dst < |s.ws|
    case Sent(k) => k <= |x.sent| && forall g | g in x.sent :: g < |s.mem|
  }

  ghost function Tick(s: Sys, w: nat, choice: bool): Sys
    requires w < |s.ws| && Possible(s, w)
  {
    match s.ws[w].pc
    case Idle => StepIdle(s, w)
    case Clear => StepClear(s, w)
    case Scan(_) => StepScan(s, w)
    case Found(_, _) => StepFound(s, w)
    case AckBack(_, _) => StepAckBack(s, w)
    case Handle(_) => StepHandle(s, w)
    case Local => StepLocal(s, w, choice)
    case Out(_) => StepOut(s, w, choice)
    case Claim(_) => StepClaim(s, w)
    case Post(_) => StepPost(s, w)
    case Signal(_) => StepSignal(s, w)
    case Sent(_) => StepSent(s, w)
  }

  ghost predicate Next(s: Sys, e: Event, s': Sys) {
    match e
    case Says(w, m) => w < |s.ws| && m.dst < |s.ws| && m.dst < |s.ws[w].sentTo| && s' == Send(s, w, m)
    case Ticks(w, choice) => w < |s.ws| && Possible(s, w) && s' == Tick(s, w, choice)
  }

  // `n` workers that have just been started.
  function Start(n: nat): Sys {
    Sys(seq(n, _ => Worker(Idle, [], [], [], [], seq(n, _ => None), seq(n, _ => Virgin), false,
                           seq(n, _ => []), seq(n, _ => []))), [])
  }

  ghost predicate Run(n: nat, tr: seq<Sys>, es: seq<Event>) {
    && |tr| == |es| + 1 && tr[0] == Start(n)
    && forall i | 0 <= i < |es| :: Next(tr[i], es[i], tr[i + 1])
  }

  ghost predicate Reachable(n: nat, s: Sys) {
    exists tr, es :: Run(n, tr, es) && tr[|es|] == s
  }

  // ---------------------------------------------------------------- the invariant holds

  lemma {:induction false} StartInv(n: nat)
    ensures Inv(Start(n))
  {
  }

  lemma {:induction false} AlwaysPossible(s: Sys, w: nat)
    requires Inv(s) && w < |s.ws|
    ensures Possible(s, w)
  {
    match s.ws[w].pc
    case Idle =>
    case Clear =>
    case Scan(_) => ScanOk(s, w);
    case Found(_, _) => FoundOk(s, w);
    case AckBack(_, _) => AckBackOk(s, w);
    case Handle(_) => HandleOk(s, w);
    case Local => LocalOk(s, w, true);
    case Out(_) => OutOk(s, w, true);
    case Claim(_) => ClaimOk(s, w);
    case Post(_) => PostOk(s, w);
    case Signal(_) => SignalOk(s, w);
    case Sent(_) => SentOk(s, w);
  }

  lemma {:induction false} TickInv(s: Sys, w: nat, choice: bool)
    requires Inv(s) && w < |s.ws| && Possible(s, w)
    ensures Inv(Tick(s, w, choice))
  {
    match s.ws[w].pc
    case Idle => IdleOk(s, w);
    case Clear => ClearOk(s, w);
    case Scan(_) => ScanOk(s, w);
    case Found(_, _) => FoundOk(s, w);
    case AckBack(_, _) => AckBackOk(s, w);
    case Handle(_) => HandleOk(s, w);
    case Local => LocalOk(s, w, choice);
    case Out(_) => OutOk(s, w, choice);
    case Claim(_) => ClaimOk(s, w);
    case Post(_) => PostOk(s, w);
    case Signal(_) => SignalOk(s, w);
    case Sent(_) => SentOk(s, w);
  }

  lemma {:induction false} NextInv(s: Sys, e: Event, s': Sys)
    requires Inv(s) && Next(s, e, s')
    ensures Inv(s')
  {
    match e
    case Says(w, m) => SendOk(s, w, m);
    case Ticks(w, choice) => TickInv(s, w, choice);
  }

  lemma {:induction false} RunInv(n: nat, tr: seq<Sys>, es: seq<Event>, i: nat)
    requires Run(n, tr, es) && i <= |es|
    ensures Inv(tr[i])
    decreases i
  {
    if i == 0 {
      StartInv(n);
    } else {
      RunInv(n, tr, es, i - 1);
      assert Next(tr[i - 1], es[i - 1], tr[i]);
      NextInv(tr[i - 1], es[i - 1], tr[i]);
    }
  }

  lemma {:induction false} ReachableInv(n: nat, s: Sys)
    requires Reachable(n, s)
    ensures Inv(s)
  {
    var tr, es :| Run(n, tr, es) && tr[|es|] == s;
    RunInv(n, tr, es, |es|);
  }

  // ---------------------------------------------------------------- consequences

  // Between any two workers, what has been handled is a prefix of what has been sent: nothing
  // is lost, doubled or overtaken.
  lemma {:induction false} HandledInOrder(n: nat, s: Sys, a: nat, b: nat)
    requires Reachable(n, s) && a < |s.ws| && b < |s.ws|
    ensures b < |s.ws[a].sentTo| && a < |s.ws[b].handledFrom|
    ensures s.ws[b].handledFrom[a] <= s.ws[a].sentTo[b]
  {
    ReachableInv(n, s);
    assert LogOk(s, a, b);
  }

  // A group that has been released was handled, and no slot and no in_work refers to it.
  lemma {:induction false} ReleasedAfterHandled(n: nat, s: Sys, g: nat)
    requires Reachable(n, s) && g < |s.mem| && s.mem[g].released
    ensures s.mem[g].stage.Done?
    ensures forall b | 0 <= b < |s.ws| :: g !in s.ws[b].inWork && Some(g) !in s.ws[b].slots
  {
    ReachableInv(n, s);
    assert GroupOk(s, g);
    forall b | 0 <= b < |s.ws| ensures g !in s.ws[b].inWork && Some(g) !in s.ws[b].slots {
      assert WorkerOk(s, b);
      forall a | 0 <= a < |s.ws[b].slots| ensures s.ws[b].slots[a] != Some(g) { assert LinkOk(s, a, b); }
    }
  }

  // A filled slot is not forgotten, and a slot whose sender may write is empty.
  lemma {:induction false} SlotsAndAcks(n: nat, s: Sys, a: nat, b: nat)
    requires Reachable(n, s) && a < |s.ws| && b < |s.ws|
    ensures a < |s.ws[b].slots| && b < |s.ws[a].acks|
    ensures !s.ws[a].acks[b].Busy? || Posting(s, a, b) ==> s.ws[b].slots[a].None?
    ensures s.ws[b].slots[a].Some? ==> s.ws[b].signal || Signalling(s, a, b) || Scanning(s, a, b)
  {
    ReachableInv(n, s);
    assert LinkOk(s, a, b);
  }

  // When every worker is at the start of a pass with nothing to do and no signal is set, all
  // missives have been handled.
  ghost predicate Quiet(s: Sys) {
    forall w | 0 <= w < |s.ws| ::
      s.ws[w].pc.Idle? && s.ws[w].local == [] && s.ws[w].out == [] && s.ws[w].inWork == [] && !s.ws[w].signal
  }

  lemma {:induction false} QuietMeansHandled(n: nat, s: Sys, a: nat, b: nat)
    requires Reachable(n, s) && Quiet(s) && a < |s.ws| && b < |s.ws|
    ensures b < |s.ws[a].sentTo| && a < |s.ws[b].handledFrom|
    ensures s.ws[b].handledFrom[a] == s.ws[a].sentTo[b]
  {
    ReachableInv(n, s);
    assert LogOk(s, a, b) && LinkOk(s, a, b);
  }

  // No worker is ever stuck: its next step is always possible.
  lemma {:induction false} NeverStuck(n: nat, s: Sys, w: nat, choice: bool)
    requires Reachable(n, s) && w < |s.ws|
    ensures exists s' :: Next(s, Ticks(w, choice), s')
  {
    ReachableInv(n, s);
    AlwaysPossible(s, w);
    assert Next(s, Ticks(w, choice), Tick(s, w, choice));
  }

  // The checks of the source before it writes: the ack that is set ready was busy, the slot
  // that is written was empty, and the group that is marked was not marked before.
  lemma {:induction false} ChecksHold(n: nat, s: Sys, w: nat)
    requires Reachable(n, s) && w < |s.ws|
    ensures Possible(s, w)
    ensures s.ws[w].pc.AckBack? ==> s.ws[s.mem[s.ws[w].pc.g].src].acks[w].Busy?
    ensures s.ws[w].pc.Post? ==> s.ws[s.mem[s.ws[w].out[s.ws[w].pc.k]].dst].slots[w].None?
    ensures s.ws[w].pc.Handle? && s.ws[w].inWork != [] ==>
              s.ws[w].inWork[0] in s.ws[w].inWork && s.mem[s.ws[w].inWork[0]].stage.InWork?
  {
    ReachableInv(n, s);
    AlwaysPossible(s, w);
    assert s.ws[w].inWork != [] ==> s.ws[w].inWork[0] in s.ws[w].inWork;
    match s.ws[w].pc
    case AckBack(_, _) => AckBackOk(s, w);
    case Claim(_) => ClaimOk(s, w);
    case Post(_) => PostOk(s, w);
    case Handle(_) => HandleFacts(s, w);
    case _ =>
  }
}
