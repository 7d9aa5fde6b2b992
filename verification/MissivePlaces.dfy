/**
  Two more things that every step of the missive machine keeps: an ack is busy only while its slot
  is filled or about to be, or the ack is on its way back; and every group that has not been
  released is in exactly the list that its stage says. So no group and no ack is ever forgotten.
 */
module MissivePlaces {
  import opened Options
  import opened Missives
  import opened MissiveInv
  import opened MissiveSteps
  import opened MissiveSend
  import opened MissiveRuns

  // The ack of worker `a` for worker `b` will be set ready again.
  predicate BusyOk(s: Sys, a: nat, b: nat)
    requires a < |s.ws| && b < |s.ws|
  {
    && Sizes(s, a) && Sizes(s, b)
    && (s.ws[a].acks[b].Busy? ==> s.ws[b].slots[a].Some? || Posting(s, a, b) || Acking(s, a, b))
  }

  // The sender of group `g` will look after it: it is in out_work, or on its way to sent_work, or there.
  predicate Kept(s: Sys, g: nat)
    requires g < |s.mem| && s.mem[g].src < |s.ws|
  {
    var x := s.ws[s.mem[g].src];
    || g in x.sent
    || (x.pc.Signal? && x.pc.k < |x.out| && x.out[x.pc.k] == g)
  }

  predicate PlaceOk(s: Sys, g: nat)
    requires g < |s.mem|
  {
    var x := s.mem[g];
    && x.src < |s.ws| && x.dst < |s.ws|
    && (match x.stage
        case InOut => g in s.ws[x.src].out
        case InSlot => x.src < |s.ws[x.dst].slots| && s.ws[x.dst].slots[x.src] == Some(g)
        case InWork => g in s.ws[x.dst].inWork
        case Done => true)
    && (x.stage.InOut? || x.released || Kept(s, g))
  }

  ghost predicate Places(s: Sys) {
    && (forall a, b {:trigger BusyOk(s, a, b)} | 0 <= a < |s.ws| && 0 <= b < |s.ws| :: BusyOk(s, a, b))
    && (forall g {:trigger PlaceOk(s, g)} | 0 <= g < |s.mem| :: PlaceOk(s, g))
  }

  // ---------------------------------------------------------------- steps that only go on

  lemma {:induction false} GoesOnPlaces(s: Sys, s': Sys, w: nat)
    requires Inv(s) && Places(s) && OnlyPc(s, s', w) && Onwards(s, s', w)
    ensures Places(s')
  {
    forall a, b | 0 <= a < |s'.ws| && 0 <= b < |s'.ws| ensures BusyOk(s', a, b) { assert BusyOk(s, a, b); }
    forall g | 0 <= g < |s'.mem| ensures PlaceOk(s', g) { assert PlaceOk(s, g); }
  }

  lemma {:induction false} SendPlaces(s: Sys, w: nat, m: Msv)
    requires Inv(s) && Places(s) && w < |s.ws| && m.dst < |s.ws| && Sizes(s, w)
    ensures Places(Send(s, w, m))
  {
    var s' := Send(s, w, m);
    forall a, b | 0 <= a < |s'.ws| && 0 <= b < |s'.ws| ensures BusyOk(s', a, b) { assert BusyOk(s, a, b); }
    forall g | 0 <= g < |s'.mem| ensures PlaceOk(s', g) { assert PlaceOk(s, g); }
  }

  lemma {:induction false} ClearPlaces(s: Sys, w: nat)
    requires Inv(s) && Places(s) && w < |s.ws| && s.ws[w].pc.Clear?
    ensures Places(StepClear(s, w))
  {
    var s' := StepClear(s, w);
    forall a, b | 0 <= a < |s'.ws| && 0 <= b < |s'.ws| ensures BusyOk(s', a, b) { assert BusyOk(s, a, b); }
    forall g | 0 <= g < |s'.mem| ensures PlaceOk(s', g) { assert PlaceOk(s, g); }
  }

  // ---------------------------------------------------------------- the receiver

  lemma {:induction false} FoundBusy(s: Sys, w: nat, a: nat, b: nat)
    requires Inv(s) && Places(s) && w < |s.ws| && s.ws[w].pc.Found? && a < |s.ws| && b < |s.ws|
    requires Sizes(s, w) && s.ws[w].pc.j < |s.ws| && s.ws[w].pc.g < |s.mem|
    ensures BusyOk(StepFound(s, w), a, b)
  {
    StillThere(s, w);
    assert BusyOk(s, a, b) && LinkOk(s, a, b);
  }

  lemma {:induction false} FoundPlace(s: Sys, w: nat, g: nat)
    requires Inv(s) && Places(s) && w < |s.ws| && s.ws[w].pc.Found? && g < |s.mem|
    requires Sizes(s, w) && s.ws[w].pc.j < |s.ws| && s.ws[w].pc.g < |s.mem|
    ensures PlaceOk(StepFound(s, w), g)
  {
    StillThere(s, w);
    assert PlaceOk(s, g) && GroupOk(s, g);
  }

  lemma {:induction false} FoundPlaces(s: Sys, w: nat)
    requires Inv(s) && Places(s) && w < |s.ws| && s.ws[w].pc.Found? && Possible(s, w)
    ensures Places(StepFound(s, w))
  {
    StillThere(s, w);
    var s' := StepFound(s, w);
    forall a, b | 0 <= a < |s'.ws| && 0 <= b < |s'.ws| ensures BusyOk(s', a, b) { FoundBusy(s, w, a, b); }
    forall g | 0 <= g < |s'.mem| ensures PlaceOk(s', g) { FoundPlace(s, w, g); }
  }

  lemma {:induction false} AckBackBusy(s: Sys, w: nat, a: nat, b: nat)
    requires Inv(s) && Places(s) && w < |s.ws| && s.ws[w].pc.AckBack? && Possible(s, w) && a < |s.ws| && b < |s.ws|
    ensures BusyOk(StepAckBack(s, w), a, b)
  {
    assert WorkerOk(s, w) && BusyOk(s, a, b);
  }

  lemma {:induction false} AckBackPlaces(s: Sys, w: nat)
    requires Inv(s) && Places(s) && w < |s.ws| && s.ws[w].pc.AckBack? && Possible(s, w)
    ensures Places(StepAckBack(s, w))
  {
    var s' := StepAckBack(s, w);
    forall a, b | 0 <= a < |s'.ws| && 0 <= b < |s'.ws| ensures BusyOk(s', a, b) { AckBackBusy(s, w, a, b); }
    forall g | 0 <= g < |s'.mem| ensures PlaceOk(s', g) { assert PlaceOk(s, g); }
  }

  lemma {:induction false} HandlePlace(s: Sys, w: nat, g: nat)
    requires Inv(s) && Places(s) && w < |s.ws| && s.ws[w].pc.Handle? && Possible(s, w) && g < |s.mem|
    ensures PlaceOk(StepHandle(s, w), g)
  {
    assert PlaceOk(s, g) && GroupOk(s, g) && WorkerOk(s, w);
    var q := s.ws[w].inWork;
    if q != [] {
      assert q[0] in q;
      assert forall h | h in q :: h == q[0] || h in q[1..];
    }
  }

  lemma {:induction false} HandlePlaces(s: Sys, w: nat)
    requires Inv(s) && Places(s) && w < |s.ws| && s.ws[w].pc.Handle? && Possible(s, w)
    ensures Places(StepHandle(s, w))
  {
    var s' := StepHandle(s, w);
    assert s.ws[w].inWork != [] ==> s.ws[w].inWork[0] in s.ws[w].inWork;
    forall a, b | 0 <= a < |s'.ws| && 0 <= b < |s'.ws| ensures BusyOk(s', a, b) { assert BusyOk(s, a, b); }
    forall g | 0 <= g < |s'.mem| ensures PlaceOk(s', g) { HandlePlace(s, w, g); }
  }

  // ---------------------------------------------------------------- the sender

  lemma {:induction false} LocalBusy(s: Sys, w: nat, more: bool, a: nat, b: nat)
    requires Inv(s) && Places(s) && w < |s.ws| && s.ws[w].pc.Local? && Possible(s, w) && a < |s.ws| && b < |s.ws|
    ensures BusyOk(StepLocal(s, w, more), a, b)
  {
    assert BusyOk(s, a, b);
  }

  lemma {:induction false} LocalPlace(s: Sys, w: nat, more: bool, g: nat)
    requires Inv(s) && Places(s) && w < |s.ws| && s.ws[w].pc.Local? && Possible(s, w)
    requires g < |StepLocal(s, w, more).mem|
    ensures PlaceOk(StepLocal(s, w, more), g)
  {
    assert WorkerOk(s, w);
    if g < |s.mem| {
      assert PlaceOk(s, g) && GroupOk(s, g);
    } else {
      assert s.ws[w].local[0] in s.ws[w].local;
    }
  }

  lemma {:induction false} LocalPlaces(s: Sys, w: nat, more: bool)
    requires Inv(s) && Places(s) && w < |s.ws| && s.ws[w].pc.Local? && Possible(s, w)
    ensures Places(StepLocal(s, w, more))
  {
    var s' := StepLocal(s, w, more);
    forall a, b | 0 <= a < |s'.ws| && 0 <= b < |s'.ws| ensures BusyOk(s', a, b) { LocalBusy(s, w, more, a, b); }
    forall g | 0 <= g < |s'.mem| ensures PlaceOk(s', g) { LocalPlace(s, w, more, g); }
  }

  lemma {:induction false} ClaimPlaces(s: Sys, w: nat)
    requires Inv(s) && Places(s) && w < |s.ws| && s.ws[w].pc.Claim? && Possible(s, w)
    ensures Places(StepClaim(s, w))
  {
    assert WorkerOk(s, w);
    var s' := StepClaim(s, w);
    forall a, b | 0 <= a < |s'.ws| && 0 <= b < |s'.ws| ensures BusyOk(s', a, b) { assert BusyOk(s, a, b); }
    forall g | 0 <= g < |s'.mem| ensures PlaceOk(s', g) { assert PlaceOk(s, g); }
  }

  lemma {:induction false} PostBusy(s: Sys, w: nat, a: nat, b: nat)
    requires Inv(s) && Places(s) && w < |s.ws| && s.ws[w].pc.Post? && Possible(s, w) && a < |s.ws| && b < |s.ws|
    ensures BusyOk(StepPost(s, w), a, b)
  {
    OutBounds(s, w);
    assert BusyOk(s, a, b) && WorkerOk(s, a);
  }

  lemma {:induction false} PostPlace(s: Sys, w: nat, g: nat)
    requires Inv(s) && Places(s) && w < |s.ws| && s.ws[w].pc.Post? && Possible(s, w) && g < |s.mem|
    ensures PlaceOk(StepPost(s, w), g)
  {
    var g0, d := PostFacts(s, w);
    assert PlaceOk(s, g) && GroupOk(s, g) && LinkOk(s, w, d);
  }

  lemma {:induction false} PostPlaces(s: Sys, w: nat)
    requires Inv(s) && Places(s) && w < |s.ws| && s.ws[w].pc.Post? && Possible(s, w)
    ensures Places(StepPost(s, w))
  {
    var s' := StepPost(s, w);
    forall a, b | 0 <= a < |s'.ws| && 0 <= b < |s'.ws| ensures BusyOk(s', a, b) { PostBusy(s, w, a, b); }
    forall g | 0 <= g < |s'.mem| ensures PlaceOk(s', g) { PostPlace(s, w, g); }
  }

  lemma {:induction false} CutKeeps(s: seq<nat>, k: nat, g: nat)
    requires k < |s| && g in s && g != s[k]
    ensures g in Cut(s, k)
  {
    var i :| 0 <= i < |s| && s[i] == g;
    assert Cut(s, k)[if i < k then i else i - 1] == g;
  }

  lemma {:induction false} SignalBusy(s: Sys, w: nat, a: nat, b: nat)
    requires Inv(s) && Places(s) && w < |s.ws| && s.ws[w].pc.Signal? && Possible(s, w) && a < |s.ws| && b < |s.ws|
    ensures BusyOk(StepSignal(s, w), a, b)
  {
    assert BusyOk(s, a, b);
  }

  lemma {:induction false} SignalPlace(s: Sys, w: nat, g: nat)
    requires Inv(s) && Places(s) && w < |s.ws| && s.ws[w].pc.Signal? && Possible(s, w) && g < |s.mem|
    ensures PlaceOk(StepSignal(s, w), g)
  {
    assert PlaceOk(s, g) && GroupOk(s, g) && WorkerOk(s, w);
    var out, k := s.ws[w].out, s.ws[w].pc.k;
    if g in out && g != out[k] { CutKeeps(out, k, g); }
  }

  lemma {:induction false} SignalPlaces(s: Sys, w: nat)
    requires Inv(s) && Places(s) && w < |s.ws| && s.ws[w].pc.Signal? && Possible(s, w)
    ensures Places(StepSignal(s, w))
  {
    var s' := StepSignal(s, w);
    forall a, b | 0 <= a < |s'.ws| && 0 <= b < |s'.ws| ensures BusyOk(s', a, b) { SignalBusy(s, w, a, b); }
    forall g | 0 <= g < |s'.mem| ensures PlaceOk(s', g) { SignalPlace(s, w, g); }
  }

  lemma {:induction false} SentPlace(s: Sys, w: nat, g: nat)
    requires Inv(s) && Places(s) && w < |s.ws| && Finished(s, w) && g < |s.mem|
    ensures PlaceOk(StepSent(s, w), g)
  {
    assert PlaceOk(s, g) && GroupOk(s, g);
    var q, k := s.ws[w].sent, s.ws[w].pc.k;
    if g in q && g != q[k] { CutKeeps(q, k, g); }
  }

  lemma {:induction false} SentPlaces(s: Sys, w: nat)
    requires Inv(s) && Places(s) && w < |s.ws| && s.ws[w].pc.Sent? && Possible(s, w)
    ensures Places(StepSent(s, w))
  {
    assert WorkerOk(s, w);
    var s' := StepSent(s, w);
    if s.ws[w].pc.k < |s.ws[w].sent| { assert s.ws[w].sent[s.ws[w].pc.k] in s.ws[w].sent; }
    if Finished(s, w) {
      forall a, b | 0 <= a < |s'.ws| && 0 <= b < |s'.ws| ensures BusyOk(s', a, b) { assert BusyOk(s, a, b); }
      forall g | 0 <= g < |s'.mem| ensures PlaceOk(s', g) { SentPlace(s, w, g); }
    } else {
      GoesOnPlaces(s, s', w);
    }
  }

  // ---------------------------------------------------------------- all steps

  lemma {:induction false} TickPlaces(s: Sys, w: nat, choice: bool)
    requires Inv(s) && Places(s) && w < |s.ws| && Possible(s, w)
    ensures Places(Tick(s, w, choice))
  {
    assert WorkerOk(s, w);
    match s.ws[w].pc
    case Idle => GoesOnPlaces(s, StepIdle(s, w), w);
    case Clear => ClearPlaces(s, w);
    case Scan(_) => GoesOnPlaces(s, StepScan(s, w), w);
    case Found(_, _) => FoundPlaces(s, w);
    case AckBack(_, _) => AckBackPlaces(s, w);
    case Handle(_) => HandlePlaces(s, w);
    case Local => LocalPlaces(s, w, choice);
    case Out(_) => OutPlaces(s, w, choice);
    case Claim(_) => ClaimPlaces(s, w);
    case Post(_) => PostPlaces(s, w);
    case Signal(_) => SignalPlaces(s, w);
    case Sent(_) => SentPlaces(s, w);
  }

  lemma {:induction false} OutPlaces(s: Sys, w: nat, known: bool)
    requires Inv(s) && Places(s) && w < |s.ws| && s.ws[w].pc.Out? && Possible(s, w)
    ensures Places(StepOut(s, w, known))
  {
    assert WorkerOk(s, w);
    if s.ws[w].pc.k < |s.ws[w].out| {
      assert s.ws[w].out[s.ws[w].pc.k] in s.ws[w].out;
      assert OutAt(s, w, s.ws[w].out[s.ws[w].pc.k]);
    }
    GoesOnPlaces(s, StepOut(s, w, known), w);
  }

  lemma {:induction false} RunPlaces(n: nat, tr: seq<Sys>, es: seq<Event>, i: nat)
    requires Run(n, tr, es) && i <= |es|
    ensures Inv(tr[i]) && Places(tr[i])
    decreases i
  {
    RunInv(n, tr, es, i);
    if i > 0 {
      RunPlaces(n, tr, es, i - 1);
      assert Next(tr[i - 1], es[i - 1], tr[i]);
      match es[i - 1] {
        case Says(w, m) =>
          assert WorkerOk(tr[i - 1], w);
          SendPlaces(tr[i - 1], w, m);
        case Ticks(w, choice) => TickPlaces(tr[i - 1], w, choice);
      }
    }
  }

  lemma {:induction false} ReachablePlaces(n: nat, s: Sys)
    requires Reachable(n, s)
    ensures Inv(s) && Places(s)
  {
    var tr, es :| Run(n, tr, es) && tr[|es|] == s;
    RunPlaces(n, tr, es, |es|);
  }
}
