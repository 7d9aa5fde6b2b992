/** Everything that was sent is handled. */
module MissiveEnds {
  import opened Options
  import opened Missives
  import opened MissiveInv
  import opened MissiveSteps
  import opened MissiveSend
  import opened MissivePlaces
  import opened MissiveRuns

  // From every reachable state the workers can go on, without anything new being sent, to a state
  // in which everything that was sent has been handled and every group has been released. A measure
  // shows it: the work left in all workers, and the ticks left in the pass of one of them.

  // ---------------------------------------------------------------- work

  function B(x: bool): nat { if x then 1 else 0 }

  function Filled(slots: seq<Option<nat>>): nat {
    if slots == [] then 0 else B(slots[0].Some?) + Filled(slots[1..])
  }

  lemma {:induction false} FilledSet(slots: seq<Option<nat>>, j: nat, x: Option<nat>)
    requires j < |slots|
    ensures Filled(slots[j := x]) + B(slots[j].Some?) == Filled(slots) + B(x.Some?)
  {
    if j == 0 {
      assert slots[j := x][1..] == slots[1..];
    } else {
      assert slots[j := x][1..] == slots[1..][j - 1 := x];
      FilledSet(slots[1..], j - 1, x);
    }
  }

  // What is in the hands of a worker, weighed so that every stage of its way weighs less.
  function Weight(x: Worker): nat {
    6 * |x.local| + 5 * |x.out| + (if x.pc.Signal? then 0 else 2)
    + 2 * Filled(x.slots) + |x.inWork| + |x.sent| + B(x.signal)
  }

  function Work(ws: seq<Worker>, k: nat): nat
    requires k <= |ws|
  {
    if k == 0 then 0 else Work(ws, k - 1) + Weight(ws[k - 1])
  }

  lemma {:induction false} WorkSet(ws: seq<Worker>, w: nat, x: Worker, k: nat)
    requires w < |ws| && k <= |ws|
    ensures Work(ws[w := x], k) + (if w < k then Weight(ws[w]) else 0) == Work(ws, k) + (if w < k then Weight(x) else 0)
  {
    if k > 0 { WorkSet(ws, w, x, k - 1); }
  }

  function WorkOf(s: Sys): nat { Work(s.ws, |s.ws|) }

  // One worker has changed, or two.
  lemma {:induction false} OneChanged(s: Sys, s': Sys, w: nat, x: Worker)
    requires w < |s.ws| && s'.ws == s.ws[w := x]
    ensures WorkOf(s') + Weight(s.ws[w]) == WorkOf(s) + Weight(x)
  {
    WorkSet(s.ws, w, x, |s.ws|);
  }

  lemma {:induction false} TwoChanged(s: Sys, s': Sys, v: nat, y: Worker, w: nat, x: Worker)
    requires v < |s.ws| && w < |s.ws| && v != w && s'.ws == s.ws[v := y][w := x]
    ensures WorkOf(s') + Weight(s.ws[v]) + Weight(s.ws[w]) == WorkOf(s) + Weight(y) + Weight(x)
  {
    WorkSet(s.ws, v, y, |s.ws|);
    WorkSet(s.ws[v := y], w, x, |s.ws|);
  }

  // ---------------------------------------------------------------- ticks left in a pass

  function Minus(a: nat, b: nat): nat { if a >= b then a - b else 0 }

  // The missives of the first group of in_work.
  function FirstSize(s: Sys, x: Worker): nat {
    if x.inWork != [] && x.inWork[0] < |s.mem| then |s.mem[x.inWork[0]].msvs| else 0
  }

  // At most so many ticks until worker `w` is at the end of its pass, or has done some work.
  function Left(s: Sys, w: nat): nat
    requires w < |s.ws|
  {
    var x := s.ws[w];
    var n, rest := |x.slots|, |x.out| + |x.sent|;
    var handle := FirstSize(s, x) + rest + 5;
    match x.pc
    case Idle => 0
    case Clear => 3 * n + handle + 2
    case Scan(j) => 3 * Minus(n, j) + handle + 1
    case Found(_, _) => 0
    case AckBack(j, _) => 3 * Minus(n, j) + handle
    case Handle(i) => Minus(handle, i)
    case Local => rest + 4
    case Out(k) => Minus(|x.out|, k) + |x.sent| + 3
    case Claim(_) => 2
    case Post(_) => 1
    case Signal(_) => 0
    case Sent(k) => Minus(|x.sent|, k) + 1
  }

  // Some work was done, or the pass is nearer to its end.
  ghost predicate Less(s: Sys, s': Sys, w: nat)
    requires w < |s.ws| && w < |s'.ws|
  {
    WorkOf(s') < WorkOf(s) || (WorkOf(s') == WorkOf(s) && Left(s', w) < Left(s, w))
  }

  // Nothing was sent, and no other worker took a step.
  ghost predicate Alone(s: Sys, s': Sys, w: nat) {
    && |s'.ws| == |s.ws|
    && (forall v | 0 <= v < |s.ws| :: s'.ws[v].sentTo == s.ws[v].sentTo)
    && (forall v | 0 <= v < |s.ws| && v != w :: s'.ws[v].pc == s.ws[v].pc)
  }

  // A step that only moves the worker on.
  lemma {:induction false} PcLess(s: Sys, s': Sys, w: nat, pc: Pc)
    requires w < |s.ws| && s' == s.At(w, s.ws[w].(pc := pc)) && !pc.Signal? && !s.ws[w].pc.Signal?
    ensures WorkOf(s') == WorkOf(s) && Alone(s, s', w)
  {
    OneChanged(s, s', w, s.ws[w].(pc := pc));
  }

  lemma {:induction false} ClearLess(s: Sys, w: nat)
    requires Inv(s) && w < |s.ws| && s.ws[w].pc.Clear?
    ensures Less(s, StepClear(s, w), w) && Alone(s, StepClear(s, w), w)
    ensures s.ws[w].signal ==> WorkOf(StepClear(s, w)) < WorkOf(s)
  {
    OneChanged(s, StepClear(s, w), w, s.ws[w].(signal := false, pc := Scan(0)));
  }

  lemma {:induction false} ScanLess(s: Sys, w: nat)
    requires Inv(s) && w < |s.ws| && s.ws[w].pc.Scan? && Possible(s, w)
    ensures Less(s, StepScan(s, w), w) && Alone(s, StepScan(s, w), w)
  {
    assert WorkerOk(s, w);
    PcLess(s, StepScan(s, w), w, StepScan(s, w).ws[w].pc);
  }

  lemma {:induction false} FoundLess(s: Sys, w: nat)
    requires Inv(s) && w < |s.ws| && s.ws[w].pc.Found? && Possible(s, w)
    ensures Less(s, StepFound(s, w), w) && Alone(s, StepFound(s, w), w)
  {
    StillThere(s, w);
    var x := s.ws[w];
    FilledSet(x.slots, x.pc.j, None);
    OneChanged(s, StepFound(s, w), w, StepFound(s, w).ws[w]);
  }

  lemma {:induction false} AckBackLess(s: Sys, w: nat)
    requires Inv(s) && w < |s.ws| && s.ws[w].pc.AckBack? && Possible(s, w)
    ensures Less(s, StepAckBack(s, w), w) && Alone(s, StepAckBack(s, w), w)
  {
    assert WorkerOk(s, w);
    var src, s' := s.mem[s.ws[w].pc.g].src, StepAckBack(s, w);
    TwoChanged(s, s', src, s'.ws[src], w, s'.ws[w]);
  }

  lemma {:induction false} HandleLess(s: Sys, w: nat)
    requires Inv(s) && w < |s.ws| && s.ws[w].pc.Handle? && Possible(s, w)
    ensures Less(s, StepHandle(s, w), w) && Alone(s, StepHandle(s, w), w)
    ensures s.ws[w].inWork != [] ==>
              WorkOf(StepHandle(s, w)) < WorkOf(s) || (StepHandle(s, w).ws[w].pc.Handle? && StepHandle(s, w).ws[w].inWork != [])
  {
    assert WorkerOk(s, w);
    var s' := StepHandle(s, w);
    assert s.ws[w].inWork != [] ==> s.ws[w].inWork[0] in s.ws[w].inWork;
    OneChanged(s, s', w, s'.ws[w]);
  }

  lemma {:induction false} LocalLess(s: Sys, w: nat)
    requires Inv(s) && w < |s.ws| && s.ws[w].pc.Local? && Possible(s, w)
    ensures Less(s, StepLocal(s, w, true), w) && Alone(s, StepLocal(s, w, true), w)
    ensures s.ws[w].local != [] ==> WorkOf(StepLocal(s, w, true)) < WorkOf(s)
  {
    var s' := StepLocal(s, w, true);
    OneChanged(s, s', w, s'.ws[w]);
  }

  lemma {:induction false} OutLess(s: Sys, w: nat)
    requires Inv(s) && w < |s.ws| && s.ws[w].pc.Out? && Possible(s, w)
    ensures Less(s, StepOut(s, w, true), w) && Alone(s, StepOut(s, w, true), w)
  {
    PcLess(s, StepOut(s, w, true), w, StepOut(s, w, true).ws[w].pc);
  }

  lemma {:induction false} ClaimLess(s: Sys, w: nat)
    requires Inv(s) && w < |s.ws| && s.ws[w].pc.Claim? && Possible(s, w)
    ensures Less(s, StepClaim(s, w), w) && Alone(s, StepClaim(s, w), w)
  {
    OneChanged(s, StepClaim(s, w), w, StepClaim(s, w).ws[w]);
  }

  lemma {:induction false} PostLess(s: Sys, w: nat)
    requires Inv(s) && w < |s.ws| && s.ws[w].pc.Post? && Possible(s, w)
    ensures Less(s, StepPost(s, w), w) && Alone(s, StepPost(s, w), w)
  {
    var g, d := PostFacts(s, w);
    var s' := StepPost(s, w);
    FilledSet(s.ws[d].slots, w, Some(g));
    TwoChanged(s, s', d, s'.ws[d], w, s'.ws[w]);
  }

  lemma {:induction false} SignalLess(s: Sys, w: nat)
    requires Inv(s) && w < |s.ws| && s.ws[w].pc.Signal? && Possible(s, w)
    ensures Less(s, StepSignal(s, w), w) && Alone(s, StepSignal(s, w), w)
  {
    var g, d := SignalFacts(s, w);
    var s' := StepSignal(s, w);
    TwoChanged(s, s', d, s'.ws[d], w, s'.ws[w]);
  }

  lemma {:induction false} SentLess(s: Sys, w: nat)
    requires Inv(s) && w < |s.ws| && s.ws[w].pc.Sent? && Possible(s, w)
    ensures Less(s, StepSent(s, w), w) && Alone(s, StepSent(s, w), w)
    ensures Finished(s, w) ==> WorkOf(StepSent(s, w)) < WorkOf(s)
  {
    assert WorkerOk(s, w);
    var s' := StepSent(s, w);
    if s.ws[w].pc.k < |s.ws[w].sent| { assert s.ws[w].sent[s.ws[w].pc.k] in s.ws[w].sent; }
    OneChanged(s, s', w, s'.ws[w]);
  }

  // Every tick within a pass does some work, or brings the worker nearer to the end of its pass.
  lemma {:induction false} TickLess(s: Sys, w: nat)
    requires Inv(s) && w < |s.ws| && !s.ws[w].pc.Idle?
    ensures Possible(s, w) && Alone(s, Tick(s, w, true), w) && Less(s, Tick(s, w, true), w)
  {
    AlwaysPossible(s, w);
    match s.ws[w].pc
    case Clear => ClearLess(s, w);
    case Scan(_) => ScanLess(s, w);
    case Found(_, _) => FoundLess(s, w);
    case AckBack(_, _) => AckBackLess(s, w);
    case Handle(_) => HandleLess(s, w);
    case Local => LocalLess(s, w);
    case Out(_) => OutLess(s, w);
    case Claim(_) => ClaimLess(s, w);
    case Post(_) => PostLess(s, w);
    case Signal(_) => SignalLess(s, w);
    case Sent(_) => SentLess(s, w);
  }

  // ---------------------------------------------------------------- going on

  // The workers `ticks` take their next steps in this order, and nothing is sent. What a step finds
  // out about the world is always that it may go on.
  ghost predicate Leads(s: Sys, ticks: seq<nat>, s': Sys)
    decreases |ticks|
  {
    if ticks == [] then s' == s
    else ticks[0] < |s.ws| && Possible(s, ticks[0]) && Leads(Tick(s, ticks[0], true), ticks[1..], s')
  }

  // What holds in every reachable state.
  ghost predicate Fine(s: Sys) { Inv(s) && Places(s) }

  ghost predicate SameSent(s: Sys, s': Sys) {
    |s'.ws| == |s.ws| && forall v | 0 <= v < |s.ws| :: s'.ws[v].sentTo == s.ws[v].sentTo
  }

  lemma {:induction false} LeadsOn(s: Sys, t1: seq<nat>, mid: Sys, t2: seq<nat>, s': Sys)
    requires Leads(s, t1, mid) && Leads(mid, t2, s')
    ensures Leads(s, t1 + t2, s')
    decreases |t1|
  {
    if t1 == [] {
      assert t1 + t2 == t2;
    } else {
      assert (t1 + t2)[1..] == t1[1..] + t2;
      LeadsOn(Tick(s, t1[0], true), t1[1..], mid, t2, s');
    }
  }

  lemma {:induction false} OneTick(s: Sys, w: nat) returns (s': Sys)
    requires Fine(s) && w < |s.ws|
    ensures Possible(s, w) && s' == Tick(s, w, true) && Leads(s, [w], s') && Fine(s')
  {
    AlwaysPossible(s, w);
    s' := Tick(s, w, true);
    TickInv(s, w, true);
    TickPlaces(s, w, true);
    assert Leads(s', [w][1..], s');
  }

  // Worker `w` comes to the end of its pass.
  lemma {:induction false} EndsPass(s: Sys, w: nat) returns (ticks: seq<nat>, s': Sys)
    requires Fine(s) && w < |s.ws|
    ensures Leads(s, ticks, s') && Fine(s') && Alone(s, s', w) && s'.ws[w].pc.Idle? && WorkOf(s') <= WorkOf(s)
    decreases WorkOf(s), Left(s, w)
  {
    if s.ws[w].pc.Idle? {
      ticks, s' := [], s;
    } else {
      TickLess(s, w);
      var mid := OneTick(s, w);
      var t2;
      t2, s' := EndsPass(mid, w);
      ticks := [w] + t2;
      LeadsOn(s, [w], mid, t2, s');
    }
  }

  // The first `k` workers come to the ends of their passes, one after the other.
  lemma {:induction false} EndPasses(s: Sys, k: nat) returns (ticks: seq<nat>, s': Sys)
    requires Fine(s) && k <= |s.ws|
    ensures Leads(s, ticks, s') && Fine(s') && SameSent(s, s') && WorkOf(s') <= WorkOf(s)
    ensures forall w | 0 <= w < k :: s'.ws[w].pc.Idle?
  {
    ticks, s' := [], s;
    if k > 0 {
      var t1, mid := EndPasses(s, k - 1);
      var t2;
      t2, s' := EndsPass(mid, k - 1);
      ticks := t1 + t2;
      LeadsOn(s, t1, mid, t2, s');
    }
  }

  // ---------------------------------------------------------------- a pass that does some work

  // The ack for the first group of out_work is not busy.
  predicate CanPost(s: Sys, w: nat, k: nat)
    requires w < |s.ws|
  {
    var x := s.ws[w];
    && k < |x.out| && x.out[k] < |s.mem| && s.mem[x.out[k]].dst < |x.acks| && !x.acks[s.mem[x.out[k]].dst].Busy?
  }

  predicate CanRelease(s: Sys, w: nat, k: nat)
    requires w < |s.ws|
  {
    k < |s.ws[w].sent| && s.ws[w].sent[k] < |s.mem| && s.mem[s.ws[w].sent[k]].stage.Done?
  }

  // What worker `w` is going to find after in_work.
  predicate DueAfter(s: Sys, w: nat)
    requires w < |s.ws|
  {
    s.ws[w].local != [] || (if s.ws[w].out != [] then CanPost(s, w, 0) else CanRelease(s, w, 0))
  }

  // Worker `w` will do some work before the end of its pass.
  predicate Due(s: Sys, w: nat)
    requires w < |s.ws|
  {
    var x := s.ws[w];
    match x.pc
    case Clear => x.signal
    case Handle(_) => x.inWork != [] || DueAfter(s, w)
    case Local => DueAfter(s, w)
    case Out(k) => if k < |x.out| then CanPost(s, w, k) else k == |x.out| && CanRelease(s, w, 0)
    case Claim(_) => true
    case Post(_) => true
    case Signal(_) => true
    case Sent(k) => CanRelease(s, w, k)
    case _ => false
  }

  // Some work was done, or will be.
  ghost predicate Gets(s: Sys, s': Sys, w: nat) { WorkOf(s') < WorkOf(s) || (w < |s'.ws| && Due(s', w)) }

  lemma {:induction false} DueClear(s: Sys, w: nat)
    requires Fine(s) && w < |s.ws| && s.ws[w].pc.Clear? && Due(s, w)
    ensures Possible(s, w) && Gets(s, Tick(s, w, true), w)
  {
    AlwaysPossible(s, w);
    ClearLess(s, w);
  }

  lemma {:induction false} DueHandle(s: Sys, w: nat)
    requires Fine(s) && w < |s.ws| && s.ws[w].pc.Handle? && Due(s, w)
    ensures Possible(s, w) && Gets(s, Tick(s, w, true), w)
  {
    AlwaysPossible(s, w);
    HandleLess(s, w);
  }

  lemma {:induction false} DueLocal(s: Sys, w: nat)
    requires Fine(s) && w < |s.ws| && s.ws[w].pc.Local? && Due(s, w)
    ensures Possible(s, w) && Gets(s, Tick(s, w, true), w)
  {
    AlwaysPossible(s, w);
    LocalLess(s, w);
  }

  lemma {:induction false} DueOut(s: Sys, w: nat)
    requires Fine(s) && w < |s.ws| && s.ws[w].pc.Out? && Due(s, w)
    ensures Possible(s, w) && Gets(s, Tick(s, w, true), w)
  {
    AlwaysPossible(s, w);
    assert WorkerOk(s, w);
  }

  lemma {:induction false} DueClaim(s: Sys, w: nat)
    requires Fine(s) && w < |s.ws| && s.ws[w].pc.Claim? && Due(s, w)
    ensures Possible(s, w) && Gets(s, Tick(s, w, true), w)
  {
    AlwaysPossible(s, w);
  }

  lemma {:induction false} DuePost(s: Sys, w: nat)
    requires Fine(s) && w < |s.ws| && s.ws[w].pc.Post? && Due(s, w)
    ensures Possible(s, w) && Gets(s, Tick(s, w, true), w)
  {
    AlwaysPossible(s, w);
  }

  lemma {:induction false} DueSignal(s: Sys, w: nat)
    requires Fine(s) && w < |s.ws| && s.ws[w].pc.Signal? && Due(s, w)
    ensures Possible(s, w) && Gets(s, Tick(s, w, true), w)
  {
    AlwaysPossible(s, w);
    SignalLess(s, w);
  }

  lemma {:induction false} DueSent(s: Sys, w: nat)
    requires Fine(s) && w < |s.ws| && s.ws[w].pc.Sent? && Due(s, w)
    ensures Possible(s, w) && Gets(s, Tick(s, w, true), w)
  {
    AlwaysPossible(s, w);
    assert WorkerOk(s, w) && s.ws[w].sent[s.ws[w].pc.k] in s.ws[w].sent;
    SentLess(s, w);
  }

  lemma {:induction false} DueTick(s: Sys, w: nat)
    requires Fine(s) && w < |s.ws| && Due(s, w)
    ensures !s.ws[w].pc.Idle? && Possible(s, w) && Gets(s, Tick(s, w, true), w)
  {
    match s.ws[w].pc
    case Clear => DueClear(s, w);
    case Handle(_) => DueHandle(s, w);
    case Local => DueLocal(s, w);
    case Out(_) => DueOut(s, w);
    case Claim(_) => DueClaim(s, w);
    case Post(_) => DuePost(s, w);
    case Signal(_) => DueSignal(s, w);
    case Sent(_) => DueSent(s, w);
  }

  lemma {:induction false} DoesWork(s: Sys, w: nat) returns (ticks: seq<nat>, s': Sys)
    requires Fine(s) && w < |s.ws| && Due(s, w)
    ensures Leads(s, ticks, s') && Fine(s') && SameSent(s, s') && WorkOf(s') < WorkOf(s)
    decreases Left(s, w)
  {
    DueTick(s, w);
    TickLess(s, w);
    var mid := OneTick(s, w);
    if WorkOf(mid) < WorkOf(s) {
      ticks, s' := [w], mid;
    } else {
      var t2;
      t2, s' := DoesWork(mid, w);
      ticks := [w] + t2;
      LeadsOn(s, [w], mid, t2, s');
    }
  }

  // ---------------------------------------------------------------- somebody has something to do

  ghost predicate AllIdle(s: Sys) { forall w | 0 <= w < |s.ws| :: s.ws[w].pc.Idle? }

  // Nothing is left to do anywhere, and nothing was forgotten.
  ghost predicate AllDone(s: Sys) {
    && Quiet(s)
    && (forall w | 0 <= w < |s.ws| :: s.ws[w].sent == [])
    && (forall g | 0 <= g < |s.mem| :: s.mem[g].released)
  }

  // Between passes, and no signal is set: slots are empty, and so no ack is busy.
  lemma {:induction false} NoneBusy(s: Sys, a: nat, b: nat)
    requires Fine(s) && AllIdle(s) && a < |s.ws| && b < |s.ws| && !s.ws[b].signal
    ensures Sizes(s, a) && Sizes(s, b) && s.ws[b].slots[a].None? && !s.ws[a].acks[b].Busy?
  {
    assert LinkOk(s, a, b) && BusyOk(s, a, b);
  }

  lemma {:induction false} OutIsDue(s: Sys, w: nat)
    requires Fine(s) && AllIdle(s) && w < |s.ws| && s.ws[w].out != [] && forall v | 0 <= v < |s.ws| :: !s.ws[v].signal
    ensures CanPost(s, w, 0)
  {
    var g := s.ws[w].out[0];
    assert WorkerOk(s, w) && g in s.ws[w].out;
    assert OutAt(s, w, g);
    NoneBusy(s, w, s.mem[g].dst);
  }

  lemma {:induction false} SentIsDue(s: Sys, w: nat)
    requires Fine(s) && AllIdle(s) && w < |s.ws| && s.ws[w].sent != []
    requires forall v | 0 <= v < |s.ws| :: !s.ws[v].signal && s.ws[v].inWork == []
    ensures CanRelease(s, w, 0)
  {
    var g := s.ws[w].sent[0];
    assert WorkerOk(s, w) && g in s.ws[w].sent;
    assert PlaceOk(s, g);
    NoneBusy(s, s.mem[g].src, s.mem[g].dst);
  }

  // A worker with something to do starts a pass.
  lemma {:induction false} Starts(s: Sys, w: nat) returns (ticks: seq<nat>, s': Sys)
    requires Fine(s) && AllIdle(s) && w < |s.ws|
    requires s.ws[w].signal || s.ws[w].inWork != [] || DueAfter(s, w)
    ensures Leads(s, ticks, s') && Fine(s') && SameSent(s, s') && WorkOf(s') < WorkOf(s)
  {
    var mid := OneTick(s, w);
    PcLess(s, mid, w, mid.ws[w].pc);
    var t2;
    t2, s' := DoesWork(mid, w);
    ticks := [w] + t2;
    LeadsOn(s, [w], mid, t2, s');
  }

  // If no worker has anything to do, all is done.
  lemma {:induction false} NothingToDo(s: Sys)
    requires Fine(s) && AllIdle(s)
    requires forall w | 0 <= w < |s.ws| :: !s.ws[w].signal && s.ws[w].inWork == [] && !DueAfter(s, w)
    ensures AllDone(s)
  {
    forall w | 0 <= w < |s.ws| ensures s.ws[w].local == [] && s.ws[w].out == [] && s.ws[w].sent == [] {
      assert !DueAfter(s, w);
      if s.ws[w].out != [] { OutIsDue(s, w); }
      if s.ws[w].sent != [] { SentIsDue(s, w); }
    }
    forall g | 0 <= g < |s.mem| ensures s.mem[g].released { assert PlaceOk(s, g); }
  }

  lemma {:induction false} ComesToRest(s: Sys) returns (ticks: seq<nat>, s': Sys)
    requires Fine(s)
    ensures Leads(s, ticks, s') && Fine(s') && SameSent(s, s') && AllDone(s')
    decreases WorkOf(s)
  {
    ticks, s' := EndPasses(s, |s.ws|);
    if w :| 0 <= w < |s'.ws| && (s'.ws[w].signal || s'.ws[w].inWork != [] || DueAfter(s', w)) {
      var t2, mid := Starts(s', w);
      LeadsOn(s, ticks, s', t2, mid);
      ticks := ticks + t2;
      var t3;
      t3, s' := ComesToRest(mid);
      LeadsOn(s, ticks, mid, t3, s');
      ticks := ticks + t3;
    } else {
      NothingToDo(s');
    }
  }

  // ---------------------------------------------------------------- consequences

  lemma OneMoreStep(n: nat, s: Sys, e: Event, s': Sys)
    requires Reachable(n, s) && Next(s, e, s')
    ensures Reachable(n, s')
  {
    var tr, es :| Run(n, tr, es) && tr[|es|] == s;
    var tr', es' := tr + [s'], es + [e];
    forall i | 0 <= i < |es'| ensures Next(tr'[i], es'[i], tr'[i + 1]) {
      if i < |es| { assert Next(tr[i], es[i], tr[i + 1]); }
    }
    assert Run(n, tr', es');
  }

  lemma {:induction false} LeadsReachable(n: nat, s: Sys, ticks: seq<nat>, s': Sys)
    requires Reachable(n, s) && Leads(s, ticks, s')
    ensures Reachable(n, s')
    decreases |ticks|
  {
    if ticks != [] {
      OneMoreStep(n, s, Ticks(ticks[0], true), Tick(s, ticks[0], true));
      LeadsReachable(n, Tick(s, ticks[0], true), ticks[1..], s');
    }
  }

  // What worker `a` had sent to worker `b` in state `s` is what `b` has handled from it in `s'`.
  ghost predicate Handled(s: Sys, s': Sys, a: nat, b: nat)
    requires a < |s.ws| && b < |s'.ws|
  {
    b < |s.ws[a].sentTo| && a < |s'.ws[b].handledFrom| && s'.ws[b].handledFrom[a] == s.ws[a].sentTo[b]
  }

  // From every reachable state the workers can go on, with nothing new being sent, until all that
  // was sent between any two workers has been handled, in order, and every group has been released.
  lemma {:induction false} EverythingArrives(n: nat, s: Sys) returns (ticks: seq<nat>, s': Sys)
    requires Reachable(n, s)
    ensures Leads(s, ticks, s') && Reachable(n, s') && AllDone(s') && |s'.ws| == |s.ws|
    ensures forall a, b | 0 <= a < |s.ws| && 0 <= b < |s.ws| :: Handled(s, s', a, b)
  {
    ReachablePlaces(n, s);
    ticks, s' := ComesToRest(s);
    LeadsReachable(n, s, ticks, s');
    forall a, b | 0 <= a < |s.ws| && 0 <= b < |s.ws| ensures Handled(s, s', a, b) {
      QuietMeansHandled(n, s', a, b);
    }
  }

  // A missive that is sent now will be the next that its receiver has handled from its sender, after
  // all that were sent before.
  lemma {:induction false} SentIsHandled(n: nat, s: Sys, w: nat, m: Msv) returns (ticks: seq<nat>, s': Sys)
    requires Reachable(n, s) && w < |s.ws| && m.dst < |s.ws|
    ensures Sizes(s, w) && Leads(Send(s, w, m), ticks, s') && Reachable(n, s') && |s'.ws| == |s.ws|
    ensures w < |s'.ws[m.dst].handledFrom| && s'.ws[m.dst].handledFrom[w] == s.ws[w].sentTo[m.dst] + [m]
  {
    ReachableInv(n, s);
    assert WorkerOk(s, w);
    OneMoreStep(n, s, Says(w, m), Send(s, w, m));
    ticks, s' := EverythingArrives(n, Send(s, w, m));
    assert Handled(Send(s, w, m), s', w, m.dst);
  }

  // In every reachable state, a group that has not been released is where its stage says: in
  // out_work, in its slot, or in in_work; and once it has left out_work, in sent_work too.
  lemma {:induction false} NoGroupIsForgotten(n: nat, s: Sys, g: nat)
    requires Reachable(n, s) && g < |s.mem|
    ensures PlaceOk(s, g)
  {
    ReachablePlaces(n, s);
  }

  // A busy ack will be set ready: its slot is filled or about to be, or its receiver is about to.
  lemma {:induction false} NoAckIsForgotten(n: nat, s: Sys, a: nat, b: nat)
    requires Reachable(n, s) && a < |s.ws| && b < |s.ws|
    ensures Sizes(s, a) && Sizes(s, b)
    ensures s.ws[a].acks[b].Busy? <==> s.ws[b].slots[a].Some? || Posting(s, a, b) || Acking(s, a, b)
  {
    ReachablePlaces(n, s);
    assert BusyOk(s, a, b) && LinkOk(s, a, b);
  }
}
