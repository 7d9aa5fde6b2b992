/** Whole runs of the simulated network. */
module HnetWhole {
  import opened HnetQueue
  import opened HnetNodes
  import opened HnetSteps
  import opened HnetSight
  import opened HnetRuns
  import opened HnetDoubled
  import opened HnetEnd

  // No thread hangs inside its loop; and a message that can come to a target does so in a run that
  // ends: it is sent, passed on, received and counted, the sources finish, and the waiting thread
  // finds that all is done.

  // ---------------------------------------------------------------- every thread comes back

  // Where the thread of a node of some kind cannot be.
  predicate KindOk(net: Net, n: nat, pc: Pc)
    requires n < |net.nodes|
  {
    && (pc.Saw? && !net.buffed ==> !net.nodes[n].kind.Join?)
    && (pc.Free? && !net.buffed ==> !net.nodes[n].kind.Split?)
  }

  ghost predicate Kinds(net: Net, s: Sys) {
    Fits(net, s) && forall n | 0 <= n < |s.nodes| :: KindOk(net, n, s.nodes[n].pc)
  }

  lemma {:induction false} NodeKinds(net: Net, s: Sys, e: Event, s': Sys)
    requires net.Valid() && Kinds(net, s) && !e.Waits? && e.n < |s.nodes| && NodeNext(net, true, s, e, s')
    ensures Kinds(net, s')
  {
    assert KindOk(net, e.n, s.nodes[e.n].pc);
    forall n | 0 <= n < |s'.nodes| ensures KindOk(net, n, s'.nodes[n].pc) {
      assert n < |s.nodes| && KindOk(net, n, s.nodes[n].pc);
    }
  }

  lemma {:induction false} RunKinds(net: Net, tr: seq<Sys>, es: seq<Event>, k: nat)
    requires net.Valid() && Run(net, tr, es) && k <= |es|
    ensures Kinds(net, tr[k])
    decreases k
  {
    if k > 0 {
      RunKinds(net, tr, es, k - 1);
      assert Next(net, tr[k - 1], es[k - 1], tr[k]);
      if !es[k - 1].Waits? { NodeKinds(net, tr[k - 1], es[k - 1], tr[k]); }
    }
  }

  // How far a thread is from the start of its loop, at most.
  function Far(pc: Pc): nat {
    match pc
    case Rest => 0
    case Saw(_) => 6
    case Free(_) => 6
    case Open(_, _) => 5
    case Copied(_, _) => 4
    case Filled(_) => 4
    case Loaded(_) => 3
    case Kept(_) => 2
    case AckLow(_) => 1
    case ReqLow(_) => 1
  }

  // In every reachable state, a thread inside its loop can take a step towards the start of it.
  lemma {:induction false} ThreadGoesOn(net: Net, s: Sys, n: nat) returns (e: Event, s': Sys)
    requires net.Valid() && ClearSight(net) && Reachable(net, s) && n < |s.nodes| && !s.nodes[n].pc.Rest?
    ensures !e.Waits? && e.n == n && Next(net, s, e, s')
    ensures n < |s'.nodes| && Far(s'.nodes[n].pc) < Far(s.nodes[n].pc)
  {
    ReachableInv(net, s);
    var tr, es :| Run(net, tr, es) && tr[|es|] == s;
    RunKinds(net, tr, es, |es|);
    assert KindOk(net, n, s.nodes[n].pc);
    match s.nodes[n].pc
    case Saw(_) => e, s' := AfterSaw(net, s, n);
    case Free(_) => e, s' := AfterFree(net, s, n);
    case Open(_, _) => e, s' := AfterOpen(net, s, n);
    case Copied(_, _) => e, s' := AfterCopy(net, s, n);
    case Kept(_) => e, s' := AfterCopy(net, s, n);
    case AckLow(_) => e, s' := AfterCopy(net, s, n);
    case _ => e, s' := AfterLoad(net, s, n);
  }

  lemma {:induction false} AfterOpen(net: Net, s: Sys, n: nat) returns (e: Event, s': Sys)
    requires net.Valid() && AllTame(net, s) && n < |s.nodes| && s.nodes[n].pc.Open?
    ensures !e.Waits? && e.n == n && Next(net, s, e, s') && n < |s'.nodes| && Far(s'.nodes[n].pc) < 5
  {
    Own(net, s, n);
    var i, o := s.nodes[n].pc.i, s.nodes[n].pc.o;
    var m := SeenIn(net, true, s, i).msg;
    var s1 := s.Put(i, s.links[i].(taken := s.links[i].taken + [m]));
    var s2 := s1.Put(o, s1.links[o].(msg := m, sent := s1.links[o].sent + [m]));
    e, s' := Copy(n), s2.Logged(n, Entry(i, o, m)).Go(n, Copied(i, o));
  }

  lemma {:induction false} AfterCopy(net: Net, s: Sys, n: nat) returns (e: Event, s': Sys)
    requires net.Valid() && AllTame(net, s) && n < |s.nodes|
    requires s.nodes[n].pc.Copied? || s.nodes[n].pc.Kept? || s.nodes[n].pc.AckLow?
    ensures !e.Waits? && e.n == n && Next(net, s, e, s')
    ensures n < |s'.nodes| && Far(s'.nodes[n].pc) < Far(s.nodes[n].pc)
  {
    Own(net, s, n);
    match s.nodes[n].pc
    case Copied(i, o) => e, s' := RaiseReq(n), s.Put(o, s.links[o].(req := true)).Go(n, Kept(i));
    case Kept(i) => e, s' := RaiseAck(n), s.Put(i, s.links[i].(ack := true)).Go(n, Rest);
    case AckLow(i) => e, s' := LowerAck(n), s.Put(i, s.links[i].(ack := false)).Go(n, Rest);
  }

  lemma {:induction false} AfterLoad(net: Net, s: Sys, n: nat) returns (e: Event, s': Sys)
    requires net.Valid() && AllTame(net, s) && n < |s.nodes|
    requires s.nodes[n].pc.Filled? || s.nodes[n].pc.Loaded? || s.nodes[n].pc.ReqLow?
    ensures !e.Waits? && e.n == n && Next(net, s, e, s')
    ensures n < |s'.nodes| && Far(s'.nodes[n].pc) < Far(s.nodes[n].pc)
  {
    Own(net, s, n);
    var x := s.nodes[n];
    match x.pc
    case Filled(o) => e, s' := CountSent(n), s.(nodes := s.nodes[n := x.(numSnt := x.numSnt + 1, pc := Loaded(o))]);
    case Loaded(o) => e, s' := RaiseReq(n), s.Put(o, s.links[o].(req := true)).Go(n, Rest);
    case ReqLow(o) => e, s' := LowerReq(n), s.Put(o, s.links[o].(req := false)).Go(n, Rest);
  }

  lemma {:induction false} AfterSaw(net: Net, s: Sys, n: nat) returns (e: Event, s': Sys)
    requires net.Valid() && AllTame(net, s) && n < |s.nodes| && s.nodes[n].pc.Saw? && KindOk(net, n, s.nodes[n].pc)
    ensures !e.Waits? && e.n == n && Next(net, s, e, s') && n < |s'.nodes| && Far(s'.nodes[n].pc) < 6
  {
    Own(net, s, n);
    Ports(net, n);
    var i, x := s.nodes[n].pc.i, s.nodes[n];
    var m := SeenIn(net, true, s, i).msg;
    var s1 := s.Put(i, s.links[i].(taken := s.links[i].taken + [m]));
    if net.IsTarget(n) {
      e := Receive(n);
      s' := s1.(nodes := s.nodes[n := x.(delivered := x.delivered + [m], numRcv := x.numRcv + 1, pc := Kept(i))]);
    } else {
      var o := net.Route(n, m);
      assert net.NodeFits(n);
      if net.buffed {
        e := Store(n);
        s' := if |s.links[o].buff| < net.cap then
                s1.Put(o, s1.links[o].(buff := s1.links[o].buff + [m])).Logged(n, Entry(i, o, m)).Go(n, Kept(i))
              else s.Go(n, Rest);
      } else {
        e := Choose(n);
        s' := s.Go(n, if IsFree(SeenOut(net, true, s, o)) then Open(i, o) else Rest);
      }
    }
  }

  lemma {:induction false} AfterFree(net: Net, s: Sys, n: nat) returns (e: Event, s': Sys)
    requires net.Valid() && AllTame(net, s) && n < |s.nodes| && s.nodes[n].pc.Free? && KindOk(net, n, s.nodes[n].pc)
    ensures !e.Waits? && e.n == n && Next(net, s, e, s') && n < |s'.nodes| && Far(s'.nodes[n].pc) < 6
  {
    Own(net, s, n);
    var o := s.nodes[n].pc.o;
    if net.IsTarget(n) {
      e, s' := Finish(n), s.(nodes := s.nodes[n := s.nodes[n].(sentAll := true, pc := Rest)]);
    } else if net.buffed {
      var l := s.links[o];
      e := Load(n);
      s' := s.Put(o, l.(buff := l.buff[1..], msg := l.buff[0], sent := l.sent + [l.buff[0]])).Go(n, Loaded(o));
    } else {
      e, s' := Pass(n), s.Go(n, Rest);
    }
  }

  // ---------------------------------------------------------------- a run from beginning to end

  // All threads are at the start of their loops, and all links are idle.
  ghost predicate AllQuiet(net: Net, s: Sys) {
    && Fits(net, s)
    && (forall n | 0 <= n < |s.nodes| :: s.nodes[n].pc.Rest?)
    && (forall l | 0 <= l < |s.links| :: Idle(s.links[l]))
  }

  // A target takes the message on link `k`.
  lemma {:induction false} Takes(net: Net, s: Sys, k: nat, m: Msg) returns (s': Sys)
    requires net.Valid() && Carrying(net, s, k, m) && net.IsTarget(net.cons[k]) && net.Lone(k)
    ensures Reachable(net, s') && QuietBut(net, s', k, k) && Answered(s'.links[k])
    ensures m in s'.nodes[net.cons[k]].delivered
  {
    assert net.LinkFits(k);
    LoneReads(net, k);
    var n, l := net.cons[k], s.links[k];
    var s1 := s.Go(n, Saw(k));
    Onward(net, s, Look(n, k), s1);
    var x := s1.nodes[n];
    var s2 := s1.Put(k, l.(taken := l.taken + [m]))
                .(nodes := s1.nodes[n := x.(delivered := x.delivered + [m], numRcv := x.numRcv + 1, pc := Kept(k))]);
    Onward(net, s1, Receive(n), s2);
    s' := s2.Put(k, s2.links[k].(ack := true)).Go(n, Rest);
    Onward(net, s2, RaiseAck(n), s');
  }

  // Request and acknowledge are withdrawn.
  lemma {:induction false} Closes(net: Net, s: Sys, k: nat) returns (s': Sys)
    requires net.Valid() && Reachable(net, s) && QuietBut(net, s, k, k) && Answered(s.links[k]) && net.Lone(k)
    ensures Reachable(net, s') && AllQuiet(net, s')
    ensures forall n | 0 <= n < |s.nodes| :: s'.nodes[n].delivered == s.nodes[n].delivered
  {
    assert net.LinkFits(k);
    LoneReads(net, k);
    var p, c := net.prod[k], net.cons[k];
    var s1 := s.Go(p, ReqLow(k));
    Onward(net, s, LookReqLow(p, k), s1);
    var s2 := s1.Put(k, s1.links[k].(req := false)).Go(p, Rest);
    Onward(net, s1, LowerReq(p), s2);
    var s3 := s2.Go(c, AckLow(k));
    Onward(net, s2, LookAckLow(c, k), s3);
    s' := s3.Put(k, s3.links[k].(ack := false)).Go(c, Rest);
    Onward(net, s3, LowerAck(c), s');
  }

  // One source finds that it has no more messages.
  lemma {:induction false} Finishes(net: Net, s: Sys, n: nat) returns (s': Sys)
    requires net.Valid() && Reachable(net, s) && AllQuiet(net, s) && net.IsSource(n) && n < |s.nodes|
    ensures Reachable(net, s') && AllQuiet(net, s') && s'.nodes[n].sentAll
    ensures forall j | 0 <= j < |s.nodes| ::
              s'.nodes[j].delivered == s.nodes[j].delivered && (s.nodes[j].sentAll ==> s'.nodes[j].sentAll)
  {
    if s.nodes[n].sentAll {
      s' := s;
    } else {
      assert net.NodeFits(n);
      var o := net.nodes[n].outs[0];
      assert o in net.nodes[n].outs;
      var s1 := s.Go(n, Free(o));
      Onward(net, s, LookOut(n, o), s1);
      s' := s1.(nodes := s1.nodes[n := s1.nodes[n].(sentAll := true, pc := Rest)]);
      Onward(net, s1, Finish(n), s');
    }
  }

  lemma {:induction false} AllFinish(net: Net, s: Sys, k: nat) returns (s': Sys)
    requires net.Valid() && Reachable(net, s) && AllQuiet(net, s) && k <= |s.nodes|
    ensures Reachable(net, s') && AllQuiet(net, s') && SourcesDone(net, s', k)
    ensures forall j | 0 <= j < |s.nodes| :: s'.nodes[j].delivered == s.nodes[j].delivered
  {
    s' := s;
    if k > 0 {
      s' := AllFinish(net, s, k - 1);
      if net.IsSource(k - 1) {
        var s1 := s';
        s' := Finishes(net, s1, k - 1);
      }
    }
  }

  // From a state in which nothing is going on, the sources finish and the waiting thread ends.
  lemma {:induction false} ComesToItsEnd(net: Net, s: Sys) returns (s': Sys)
    requires net.Valid() && ClearSight(net) && Reachable(net, s) && AllQuiet(net, s)
    ensures Reachable(net, s') && Fits(net, s') && s'.main.Ended? && AtRest(s')
    ensures forall j | 0 <= j < |s.nodes| :: s'.nodes[j].delivered == s.nodes[j].delivered
  {
    var s1 := AllFinish(net, s, |s.nodes|);
    EndTestIsExact(net, s1);
    s' := Waited(net, s1, 4 * (|s1.nodes| + 1));
    WaitedReachable(net, s1, 4 * (|s1.nodes| + 1));
  }

  // Every message that can come to a target, by the routing of the nodes, is received there in some
  // run that ends.
  lemma {:induction false} GetsThrough(net: Net, k: nat, m: Msg) returns (s: Sys)
    requires net.Valid() && ClearSight(net) && CanCome(net, k, m) && k < |net.prod| && net.IsTarget(net.cons[k])
    ensures Reachable(net, s) && Fits(net, s) && s.main.Ended? && m in s.nodes[net.cons[k]].delivered
  {
    var d: nat :| Comes(net, k, m, d);
    assert net.LinkFits(k);
    s := Arrives(net, k, m, d);
    TargetLone(net, k);
    s := Takes(net, s, k, m);
    s := Closes(net, s, k);
    s := ComesToItsEnd(net, s);
  }

  // A target reads from one link.
  lemma TargetLone(net: Net, k: nat)
    requires net.Valid() && k < |net.prod| && net.IsTarget(net.cons[k])
    ensures net.Lone(k)
  {
    assert net.LinkFits(k) && net.NodeFits(net.cons[k]);
    forall l: nat ensures !net.Parallel(k, l) {
      if l < |net.prod| { assert net.LinkFits(l); }
    }
  }

  // Every simulation can come to its end.
  lemma {:induction false} CanEnd(net: Net) returns (s: Sys)
    requires net.Valid() && ClearSight(net)
    ensures Reachable(net, s) && s.main.Ended?
  {
    var s0 := Start(net);
    assert Run(net, [s0], []);
    s := ComesToItsEnd(net, s0);
  }
}
