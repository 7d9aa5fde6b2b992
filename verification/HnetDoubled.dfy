/** Two links between the same two nodes. */
module HnetDoubled {
  import opened HnetQueue
  import opened HnetNodes
  import opened HnetSight
  import opened HnetRuns
  import opened LognetSlices

  // Of two links between the same two nodes of the simulated network, the reader finds the message
  // of the first in both and takes it twice. This happens exactly in the networks in which a
  // message can come to the first of two such links.

  // ---------------------------------------------------------------- runs, step by step

  predicate Idle(l: Link) { !l.req && !l.ack && l.buff == [] && l.sent == l.taken }

  // Message `m` is offered on a link.
  predicate Bearing(l: Link, m: Msg) { Asks(l) && l.buff == [] && l.msg == m && l.sent == l.taken + [m] }

  // It has been taken and acknowledged.
  predicate Answered(l: Link) { l.req && l.ack && l.buff == [] && l.sent == l.taken }

  // It waits in the queue in front of a link.
  predicate Queued(l: Link, m: Msg) { !l.req && !l.ack && l.buff == [m] && l.sent == l.taken }

  // All threads are at the start of their loops, and all links but `i` and `k` are idle.
  ghost predicate QuietBut(net: Net, s: Sys, i: nat, k: nat) {
    && Fits(net, s) && i < |s.links| && k < |s.links|
    && (forall n | 0 <= n < |s.nodes| :: s.nodes[n].pc.Rest?)
    && (forall l | 0 <= l < |s.links| && l != i && l != k :: Idle(s.links[l]))
  }

  // Message `m` is offered on link `k`, and nothing else is going on.
  ghost predicate Carrying(net: Net, s: Sys, k: nat, m: Msg)
    requires net.Valid()
  {
    Reachable(net, s) && QuietBut(net, s, k, k) && Bearing(s.links[k], m)
  }

  // A message is on its way from link `i` to link `k`: taken from there, and there or in front of it.
  ghost predicate Between(net: Net, s: Sys, i: nat, k: nat, m: Msg)
    requires net.Valid()
  {
    && Reachable(net, s) && QuietBut(net, s, i, k) && i != k && Answered(s.links[i])
    && if net.buffed then Queued(s.links[k], m) else Bearing(s.links[k], m)
  }

  // ---------------------------------------------------------------- one node

  // A source sends a message.
  lemma {:induction false} Sends(net: Net, n: nat, m: Msg) returns (s: Sys)
    requires net.Valid() && net.IsSource(n)
    ensures net.NodeFits(n) && net.nodes[n].outs[0] < |net.prod| && Carrying(net, s, net.nodes[n].outs[0], m)
  {
    assert net.NodeFits(n);
    var o := net.nodes[n].outs[0];
    assert o in net.nodes[n].outs;
    var s0 := Start(net);
    assert Run(net, [s0], []);
    var s1 := s0.Go(n, Free(o));
    Onward(net, s0, LookOut(n, o), s1);
    var s2 := s1.Put(o, s1.links[o].(msg := m, sent := s1.links[o].sent + [m]))
                .(nodes := s1.nodes[n := s1.nodes[n].(issued := s1.nodes[n].issued + [m], pc := Filled(o))]);
    Onward(net, s1, Issue(n, m), s2);
    var s3 := s2.(nodes := s2.nodes[n := s2.nodes[n].(numSnt := s2.nodes[n].numSnt + 1, pc := Loaded(o))]);
    Onward(net, s2, CountSent(n), s3);
    s := s3.Put(o, s3.links[o].(req := true)).Go(n, Rest);
    Onward(net, s3, RaiseReq(n), s);
  }

  // A 1to2 node without queues takes the message on link `i`.
  lemma {:induction false} SplitTakes(net: Net, s: Sys, i: nat, k: nat, m: Msg) returns (s': Sys)
    requires net.Valid() && Carrying(net, s, i, m) && Through(net, i, k, m) && i != k
    requires !net.buffed && net.nodes[net.cons[i]].kind.Split?
    ensures Between(net, s', i, k, m)
  {
    var n := net.cons[i];
    assert net.LinkFits(i) && net.NodeFits(n);
    LoneReads(net, i);
    var s1 := s.Go(n, Saw(i));
    Onward(net, s, Look(n, i), s1);
    var s2 := s1.Go(n, Open(i, k));
    Onward(net, s1, Choose(n), s2);
    s' := Passed(net, s2, n, i, k, m);
  }

  // A 2to1 node without queues.
  lemma {:induction false} JoinTakes(net: Net, s: Sys, i: nat, k: nat, m: Msg) returns (s': Sys)
    requires net.Valid() && Carrying(net, s, i, m) && Through(net, i, k, m) && i != k
    requires !net.buffed && net.nodes[net.cons[i]].kind.Join?
    ensures Between(net, s', i, k, m)
  {
    var n := net.cons[i];
    assert net.LinkFits(i) && net.NodeFits(n);
    LoneReads(net, i);
    var s1 := s.Go(n, Free(k));
    Onward(net, s, LookOut(n, k), s1);
    var s2 := s1.Go(n, Open(i, k));
    Onward(net, s1, Pick(n, i), s2);
    s' := Passed(net, s2, n, i, k, m);
  }

  // From register to register, then request and acknowledge.
  lemma {:induction false} Passed(net: Net, s: Sys, n: nat, i: nat, k: nat, m: Msg) returns (s': Sys)
    requires net.Valid() && Reachable(net, s) && Fits(net, s) && n < |s.nodes| && i < |s.links| && k < |s.links| && i != k
    requires s.nodes[n].pc == Open(i, k) && net.Lone(i) && Bearing(s.links[i], m) && Idle(s.links[k]) && !net.buffed
    requires QuietBut(net, s.Go(n, Rest), i, i)
    ensures Between(net, s', i, k, m)
  {
    LoneReads(net, i);
    var li, lk := s.links[i], s.links[k];
    var s1 := s.Put(i, li.(taken := li.taken + [m])).Put(k, lk.(msg := m, sent := lk.sent + [m]))
               .Logged(n, Entry(i, k, m)).Go(n, Copied(i, k));
    Onward(net, s, Copy(n), s1);
    var s2 := s1.Put(k, s1.links[k].(req := true)).Go(n, Kept(i));
    Onward(net, s1, RaiseReq(n), s2);
    s' := s2.Put(i, s2.links[i].(ack := true)).Go(n, Rest);
    Onward(net, s2, RaiseAck(n), s');
    forall j | 0 <= j < |s'.nodes| ensures s'.nodes[j].pc.Rest? { assert s.Go(n, Rest).nodes[j].pc.Rest?; }
  }

  // A node with queues.
  lemma {:induction false} QueueTakes(net: Net, s: Sys, i: nat, k: nat, m: Msg) returns (s': Sys)
    requires net.Valid() && Carrying(net, s, i, m) && Through(net, i, k, m) && i != k && net.buffed
    ensures Between(net, s', i, k, m)
  {
    var n := net.cons[i];
    assert net.LinkFits(i) && net.NodeFits(n);
    LoneReads(net, i);
    var s1 := s.Go(n, Saw(i));
    Onward(net, s, Look(n, i), s1);
    var li, lk := s.links[i], s.links[k];
    var s2 := s1.Put(i, li.(taken := li.taken + [m])).Put(k, lk.(buff := lk.buff + [m]))
                .Logged(n, Entry(i, k, m)).Go(n, Kept(i));
    Onward(net, s1, Store(n), s2);
    s' := s2.Put(i, s2.links[i].(ack := true)).Go(n, Rest);
    Onward(net, s2, RaiseAck(n), s');
  }

  // The request on link `i` is withdrawn, and then the acknowledge.
  lemma {:induction false} Withdrawn(net: Net, s: Sys, i: nat, k: nat, m: Msg) returns (s': Sys)
    requires net.Valid() && Between(net, s, i, k, m) && net.Lone(i)
    ensures Reachable(net, s') && QuietBut(net, s', i, k) && s'.links[k] == s.links[k]
    ensures s'.links[i] == s.links[i].(req := false)
  {
    assert net.LinkFits(i);
    LoneReads(net, i);
    var p := net.prod[i];
    var s1 := s.Go(p, ReqLow(i));
    Onward(net, s, LookReqLow(p, i), s1);
    s' := s1.Put(i, s1.links[i].(req := false)).Go(p, Rest);
    Onward(net, s1, LowerReq(p), s');
  }

  // The acknowledge on link `i` is lowered.
  lemma {:induction false} Settled(net: Net, s: Sys, i: nat, k: nat) returns (s': Sys)
    requires net.Valid() && Reachable(net, s) && QuietBut(net, s, i, k) && i != k && net.Lone(i)
    requires s.links[i].ack && Idle(s.links[i].(ack := false))
    ensures Reachable(net, s') && QuietBut(net, s', k, k) && s'.links[k] == s.links[k]
  {
    assert net.LinkFits(i);
    LoneReads(net, i);
    var c := net.cons[i];
    var s1 := s.Go(c, AckLow(i));
    Onward(net, s, LookAckLow(c, i), s1);
    s' := s1.Put(i, s1.links[i].(ack := false)).Go(c, Rest);
    Onward(net, s1, LowerAck(c), s');
  }

  // A queue is emptied into the register.
  lemma {:induction false} Emptied(net: Net, s: Sys, k: nat, m: Msg) returns (s': Sys)
    requires net.Valid() && net.buffed && Reachable(net, s) && QuietBut(net, s, k, k) && Queued(s.links[k], m)
    requires !net.IsTarget(net.prod[k])
    ensures Carrying(net, s', k, m)
  {
    assert net.LinkFits(k) && net.NodeFits(net.prod[k]);
    var n, l := net.prod[k], s.links[k];
    var s1 := s.Go(n, Free(k));
    Onward(net, s, LookOut(n, k), s1);
    var s2 := s1.Put(k, l.(buff := l.buff[1..], msg := l.buff[0], sent := l.sent + [l.buff[0]])).Go(n, Loaded(k));
    Onward(net, s1, Load(n), s2);
    s' := s2.Put(k, s2.links[k].(req := true)).Go(n, Rest);
    Onward(net, s2, RaiseReq(n), s');
  }

  // ---------------------------------------------------------------- the way of a message

  // A router takes the message from link `i` and offers it on link `k`.
  lemma {:induction false} Hops(net: Net, s: Sys, i: nat, k: nat, m: Msg) returns (s': Sys)
    requires net.Valid() && Carrying(net, s, i, m) && Through(net, i, k, m)
    ensures k < |net.prod| && Carrying(net, s', k, m)
  {
    assert net.LinkFits(i) && net.NodeFits(net.cons[i]);
    if i == k {
      s' := s;
    } else {
      var mid: Sys;
      if net.buffed { mid := QueueTakes(net, s, i, k, m); }
      else if net.nodes[net.cons[i]].kind.Split? { mid := SplitTakes(net, s, i, k, m); }
      else { mid := JoinTakes(net, s, i, k, m); }
      s' := Withdrawn(net, mid, i, k, m);
      s' := Settled(net, s', i, k);
      if net.buffed { s' := Emptied(net, s', k, m); }
    }
  }

  // Every message that can come to a link does so in some run.
  lemma {:induction false} Arrives(net: Net, k: nat, m: Msg, d: nat) returns (s: Sys)
    requires net.Valid() && Comes(net, k, m, d)
    ensures Carrying(net, s, k, m)
    decreases d
  {
    assert net.LinkFits(k);
    if d == 0 {
      s := Sends(net, net.prod[k], m);
    } else {
      var i: nat :| Through(net, i, k, m) && Comes(net, i, m, d - 1);
      s := Arrives(net, i, m, d - 1);
      s := Hops(net, s, i, k, m);
    }
  }

  // ---------------------------------------------------------------- the message is taken twice

  // A link has given on, so far, what it was given: every message once, in order.
  predicate Transfers(l: Link) { l.taken <= l.sent && |l.sent| <= |l.taken| + 1 }

  // All links do, in every run.
  ghost predicate AllTransfer(net: Net)
    requires net.Valid()
  {
    forall s: Sys, k: nat | Reachable(net, s) && k < |s.links| :: Transfers(s.links[k])
  }

  // The reader of the first of two parallel links finds the message of link `a` on link `b`.
  lemma {:induction false} Twins(net: Net, a: nat) returns (b: nat)
    requires net.Valid() && First(net, a)
    ensures net.LinkFits(a) && b < |net.prod| && b != a && net.cons[b] == net.cons[a] && net.ReqOf(b) == a
    ensures net.nodes[net.cons[a]].kind.Join? && net.prod[a] != net.cons[a] && b in net.nodes[net.cons[a]].ins
  {
    var l: nat :| net.Parallel(a, l);
    b := l;
    assert net.LinkFits(a) && net.LinkFits(b) && net.NodeFits(net.prod[a]) && net.NodeFits(net.cons[a]);
  }

  // Then it takes that message from both links, although nobody has sent it on link `b`.
  lemma {:induction false} TakenTwice(net: Net, s: Sys, a: nat, m: Msg) returns (s': Sys, b: nat)
    requires net.Valid() && First(net, a) && Carrying(net, s, a, m)
    ensures Reachable(net, s') && b < |s'.links| && s'.links[b].taken == s'.links[b].sent + [m]
  {
    b := Twins(net, a);
    var n := net.cons[a];
    assert net.NodeFits(n);
    var o := net.Route(n, m);
    var lb, lo := s.links[b], s.links[o];
    if net.buffed {
      var s1 := s.Go(n, Saw(b));
      Onward(net, s, Look(n, b), s1);
      s' := s1.Put(b, lb.(taken := lb.taken + [m])).Put(o, lo.(buff := lo.buff + [m]))
              .Logged(n, Entry(b, o, m)).Go(n, Kept(b));
      Onward(net, s1, Store(n), s');
    } else {
      var s1 := s.Go(n, Free(o));
      Onward(net, s, LookOut(n, o), s1);
      var s2 := s1.Go(n, Open(b, o));
      Onward(net, s1, Pick(n, b), s2);
      s' := s2.Put(b, lb.(taken := lb.taken + [m])).Put(o, lo.(msg := m, sent := lo.sent + [m]))
              .Logged(n, Entry(b, o, m)).Go(n, Copied(b, o));
      Onward(net, s2, Copy(n), s');
    }
  }

  // All links transfer every message once and in order, in every run, exactly if no message comes
  // to the first of two links between the same nodes.
  lemma {:induction false} TransfersIffClear(net: Net)
    requires net.Valid()
    ensures AllTransfer(net) <==> ClearSight(net)
  {
    if ClearSight(net) {
      forall s: Sys, k: nat | Reachable(net, s) && k < |s.links| ensures Transfers(s.links[k]) {
        LinkTransfers(net, s, k);
      }
    } else {
      var a: nat, m: Msg :| First(net, a) && CanCome(net, a, m);
      var d: nat :| Comes(net, a, m, d);
      var s := Arrives(net, a, m, d);
      var s', b := TakenTwice(net, s, a, m);
      assert !Transfers(s'.links[b]);
    }
  }

  // Some message can come to link `k`.
  ghost predicate Used(net: Net, k: nat)
    requires net.Valid()
  {
    exists m :: CanCome(net, k, m)
  }

  // Two links that are both seen as link `ReqOf(k)`, to which a message comes.
  lemma UsedTwin(net: Net, k: nat)
    requires net.Valid() && k < |net.prod| && !net.Lone(k) && Used(net, net.ReqOf(k))
    ensures !ClearSight(net)
  {
    TwoReads(net, k);
    var m :| CanCome(net, net.ReqOf(k), m);
    assert First(net, net.ReqOf(k));
  }

  // Where every link can get a message, that is so exactly if no two links are parallel.
  lemma {:induction false} TransfersIffNoParallel(net: Net)
    requires net.Valid() && forall k | 0 <= k < |net.prod| :: Used(net, k)
    ensures AllTransfer(net) <==> forall k | 0 <= k < |net.prod| :: net.Lone(k)
  {
    TransfersIffClear(net);
    if k: nat :| k < |net.prod| && !net.Lone(k) { UsedTwin(net, k); }
  }

  // ---------------------------------------------------------------- an example

  // A target sends to a 1to2 node both of whose outputs lead to the same 2to1 node, and that one
  // sends back.
  function Twin(): Net {
    Net([Decl(Target(true), [3], [0]), Decl(Split(false, Interval(Undef, Undef)), [0], [1, 2]), Decl(Join, [1, 2], [3])],
        [0, 1, 1, 2], [1, 2, 2, 0], false, 1)
  }

  lemma TwinValid()
    ensures Twin().Valid()
  {
    var net := Twin();
    assert net.nodes[0].outs[0] in net.nodes[0].outs && net.nodes[0].ins[0] in net.nodes[0].ins;
    assert net.nodes[1].outs[0] in net.nodes[1].outs && net.nodes[1].outs[1] in net.nodes[1].outs;
    assert net.nodes[2].ins[0] in net.nodes[2].ins && net.nodes[2].ins[1] in net.nodes[2].ins;
    assert net.nodes[1].ins[0] in net.nodes[1].ins && net.nodes[2].outs[0] in net.nodes[2].outs;
  }

  // In this network a message is taken twice.
  lemma {:induction false} TwinDoubles()
    ensures Twin().Valid() && !AllTransfer(Twin())
  {
    TwinValid();
    var net := Twin();
    assert net.Parallel(1, 2);
    assert Comes(net, 0, NO_MSG, 0) && Through(net, 0, 1, NO_MSG);
    assert Comes(net, 1, NO_MSG, 1);
    assert First(net, 1) && CanCome(net, 1, NO_MSG);
    TransfersIffClear(net);
  }
}
