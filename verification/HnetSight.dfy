/** What the threads of the network see. */
module HnetSight {
  import opened HnetQueue
  import opened HnetNodes
  import opened HnetInv
  import opened HnetSteps

  // The threads look for the flags of a neighbour by the address of its node, so with two links
  // between the same two nodes they only see one of them. Here is what every step keeps as long as
  // no message comes to the first of two such links: then whatever a thread does, it does as if it
  // saw its own links.

  // ---------------------------------------------------------------- where messages come

  // A router that takes message `m` from link `i` passes it on to link `k`.
  ghost predicate Through(net: Net, i: nat, k: nat, m: Msg)
    requires net.Valid()
  {
    && i < |net.prod| && net.Lone(i) && net.cons[i] < |net.nodes| && !net.IsTarget(net.cons[i])
    && net.Route(net.cons[i], m) == k
  }

  // Message `m` comes to link `k` from a source, over `d` other links.
  ghost predicate Comes(net: Net, k: nat, m: Msg, d: nat)
    requires net.Valid()
    decreases d
  {
    && k < |net.prod|
    && if d == 0 then net.IsSource(net.prod[k])
       else exists i: nat :: Through(net, i, k, m) && Comes(net, i, m, d - 1)
  }

  ghost predicate CanCome(net: Net, k: nat, m: Msg)
    requires net.Valid()
  {
    exists d: nat :: Comes(net, k, m, d)
  }

  // Link `k` is the first of two that join the same nodes: the one that is seen for both.
  ghost predicate First(net: Net, k: nat)
    requires net.Valid()
  {
    k < |net.prod| && !net.Lone(k) && net.ReqOf(k) == k
  }

  // No message comes to the first of two links that join the same nodes.
  ghost predicate ClearSight(net: Net)
    requires net.Valid()
  {
    forall k: nat, m: Msg | First(net, k) :: !CanCome(net, k, m)
  }

  lemma NoParallelIsClear(net: Net)
    requires net.Valid() && forall k | 0 <= k < |net.prod| :: net.Lone(k)
    ensures ClearSight(net)
  {
  }

  // ---------------------------------------------------------------- what is seen

  lemma LoneReads(net: Net, k: nat)
    requires net.Valid() && k < |net.prod| && net.Lone(k)
    ensures net.ReqOf(k) == k && net.AckOf(k) == k
  {
    assert net.LinkFits(k) && net.NodeFits(net.prod[k]) && net.NodeFits(net.cons[k]);
    var outs, ins := net.nodes[net.prod[k]].outs, net.nodes[net.cons[k]].ins;
    assert outs[0] in outs && ins[0] in ins;
    assert !net.Parallel(k, outs[0]) && !net.Parallel(k, ins[0]);
  }

  // Of two parallel links, both see the flags of the same one.
  lemma TwoReads(net: Net, k: nat)
    requires net.Valid() && k < |net.prod| && !net.Lone(k)
    ensures First(net, net.ReqOf(k)) && !net.Lone(net.AckOf(k))
  {
    var l: nat :| net.Parallel(k, l);
    assert net.LinkFits(k) && net.LinkFits(l) && net.NodeFits(net.prod[k]) && net.NodeFits(net.cons[k]);
    var outs, ins := net.nodes[net.prod[k]].outs, net.nodes[net.cons[k]].ins;
    assert outs[0] in outs && ins[0] in ins;
    assert net.Parallel(l, k);
  }

  // ---------------------------------------------------------------- what every step keeps

  ghost predicate AllCome(net: Net, k: nat, ms: seq<Msg>)
    requires net.Valid()
  {
    forall j | 0 <= j < |ms| :: CanCome(net, k, ms[j])
  }

  // Only messages that can come are on link `k`, and nobody ever reads one of two parallel links.
  ghost predicate Tame(net: Net, s: Sys, k: nat)
    requires net.Valid() && Fits(net, s) && k < |s.links|
  {
    assert net.LinkFits(k);
    var l, c := s.links[k], s.nodes[net.cons[k]].pc;
    && AllCome(net, k, l.sent) && AllCome(net, k, l.buff)
    && (!net.Lone(k) ==> !l.ack && l.taken == [] && !Reading(c, k) && !Holding(c, k) && c != AckLow(k))
  }

  ghost predicate AllTame(net: Net, s: Sys)
    requires net.Valid()
  {
    && ClearSight(net) && Inv(net, s)
    && forall k {:trigger Tame(net, s, k)} | 0 <= k < |s.links| :: Tame(net, s, k)
  }

  lemma NoneComes(net: Net, k: nat, ms: seq<Msg>)
    requires net.Valid() && ClearSight(net) && First(net, k)
    ensures ms != [] ==> !AllCome(net, k, ms)
  {
    if ms != [] { assert !CanCome(net, k, ms[0]); }
  }

  // The first of two parallel links is never used.
  lemma FirstUnused(net: Net, s: Sys, k: nat)
    requires net.Valid() && AllTame(net, s) && First(net, k)
    ensures !s.links[k].req && !s.links[k].ack
  {
    assert Tame(net, s, k) && LinkOk(net, s, k) && net.LinkFits(k);
    var l := s.links[k];
    NoneComes(net, k, l.sent);
  }

  // What the threads see is what they would see of their own links, as far as they act on it.
  lemma SeesOwn(net: Net, s: Sys, k: nat)
    requires net.Valid() && AllTame(net, s) && k < |s.links|
    ensures SeenOut(net, true, s, k) == s.links[k]
    ensures SeenIn(net, true, s, k).req || s.links[k].ack ==> net.Lone(k)
    ensures net.Lone(k) ==> SeenIn(net, true, s, k) == s.links[k]
  {
    assert Tame(net, s, k);
    if net.Lone(k) {
      LoneReads(net, k);
    } else {
      TwoReads(net, k);
      FirstUnused(net, s, net.ReqOf(k));
      assert Tame(net, s, net.AckOf(k));
    }
  }

  // The link that a reader is busy with is alone between its nodes.
  lemma BusyLone(net: Net, s: Sys, n: nat)
    requires net.Valid() && AllTame(net, s) && n < |s.nodes|
    ensures var pc := s.nodes[n].pc;
      (pc.Saw? || pc.Open? || pc.Copied? || pc.Kept? || pc.AckLow? ==> net.Lone(pc.i))
  {
    Own(net, s, n);
    var pc := s.nodes[n].pc;
    if pc.Saw? || pc.Open? || pc.Copied? || pc.Kept? || pc.AckLow? { assert Tame(net, s, pc.i); }
  }

  // Every step is one of threads that see their own links.
  lemma {:induction false} SameStep(net: Net, s: Sys, e: Event, s': Sys)
    requires net.Valid() && AllTame(net, s) && !e.Waits? && e.n < |s.nodes| && NodeNext(net, true, s, e, s')
    ensures NodeNext(net, false, s, e, s')
  {
    Own(net, s, e.n);
    BusyLone(net, s, e.n);
    var pc := s.nodes[e.n].pc;
    match e
    case Look(_, i) => SeesOwn(net, s, i);
    case Pick(_, i) => SeesOwn(net, s, i);
    case LookAckLow(_, i) => SeesOwn(net, s, i);
    case LookOut(_, o) => SeesOwn(net, s, o);
    case LookReqLow(_, o) => SeesOwn(net, s, o);
    case Choose(_) =>
      SeesOwn(net, s, pc.i);
      SeesOwn(net, s, net.Route(e.n, s.links[pc.i].msg));
    case Copy(_) => SeesOwn(net, s, pc.i);
    case Store(_) => SeesOwn(net, s, pc.i);
    case Receive(_) => SeesOwn(net, s, pc.i);
    case _ =>
  }

  // The message that a reader is about to take came over its link.
  lemma ReadComes(net: Net, s: Sys, n: nat)
    requires net.Valid() && AllTame(net, s) && n < |s.nodes| && (s.nodes[n].pc.Saw? || s.nodes[n].pc.Open?)
    ensures var i := s.nodes[n].pc.i;
      i < |s.links| && net.cons[i] == n && net.Lone(i) && CanCome(net, i, s.links[i].msg)
  {
    Own(net, s, n);
    BusyLone(net, s, n);
    var l := s.links[s.nodes[n].pc.i];
    assert Tame(net, s, s.nodes[n].pc.i);
    assert l.sent[|l.sent| - 1] == l.msg;
  }

  // A message that comes to a router goes on to the link it is routed to.
  lemma GoesOn(net: Net, i: nat, m: Msg)
    requires net.Valid() && i < |net.prod| && net.Lone(i) && net.cons[i] < |net.nodes| && !net.IsTarget(net.cons[i])
    requires CanCome(net, i, m)
    ensures CanCome(net, net.Route(net.cons[i], m), m)
  {
    var d: nat :| Comes(net, i, m, d);
    var k := net.Route(net.cons[i], m);
    assert net.NodeFits(net.cons[i]);
    assert Through(net, i, k, m);
    assert Comes(net, k, m, d + 1);
  }

  // What comes to the two links of a step that takes a message to link `o`.
  lemma {:induction false} PassedComes(net: Net, s: Sys, e: Event)
    requires net.Valid() && AllTame(net, s) && (e.Copy? || e.Store?) && e.n < |s.nodes|
    requires if e.Copy? then s.nodes[e.n].pc.Open? else s.nodes[e.n].pc.Saw? && !net.IsTarget(e.n)
    ensures var i := s.nodes[e.n].pc.i;
      && i < |s.links| && net.Lone(i) && e.n < |net.nodes| && !net.IsTarget(e.n)
      && CanCome(net, net.Route(e.n, s.links[i].msg), s.links[i].msg)
      && (e.Copy? ==> s.nodes[e.n].pc.o == net.Route(e.n, s.links[i].msg))
  {
    Own(net, s, e.n);
    assert NodeOk(net, s, e.n);
    ReadComes(net, s, e.n);
    GoesOn(net, s.nodes[e.n].pc.i, s.links[s.nodes[e.n].pc.i].msg);
  }

  lemma {:induction false} LookTame(net: Net, s: Sys, e: Event, s': Sys, k: nat)
    requires net.Valid() && AllTame(net, s) && !e.Waits? && e.n < |s.nodes| && NodeNext(net, true, s, e, s')
    requires Looks(e) && k < |s.links|
    ensures Fits(net, s') && Tame(net, s', k)
  {
    assert Tame(net, s, k) && net.LinkFits(k);
    Own(net, s, e.n);
    BusyLone(net, s, e.n);
    if e.Look? || e.LookAckLow? { SeesOwn(net, s, e.i); }
  }

  lemma {:induction false} TurnTame(net: Net, s: Sys, e: Event, s': Sys, k: nat)
    requires net.Valid() && AllTame(net, s) && !e.Waits? && e.n < |s.nodes| && NodeNext(net, true, s, e, s')
    requires Turns(e) && k < |s.links|
    ensures Fits(net, s') && Tame(net, s', k)
  {
    assert Tame(net, s, k) && net.LinkFits(k);
    Own(net, s, e.n);
    BusyLone(net, s, e.n);
    if e.Pick? { SeesOwn(net, s, e.i); }
  }

  lemma {:induction false} FlagTame(net: Net, s: Sys, e: Event, s': Sys, k: nat)
    requires net.Valid() && AllTame(net, s) && !e.Waits? && e.n < |s.nodes| && NodeNext(net, true, s, e, s')
    requires Flags(e) && k < |s.links|
    ensures Fits(net, s') && Tame(net, s', k)
  {
    assert Tame(net, s, k) && net.LinkFits(k);
    Own(net, s, e.n);
    BusyLone(net, s, e.n);
  }

  lemma {:induction false} TargetTame(net: Net, s: Sys, e: Event, s': Sys, k: nat)
    requires net.Valid() && AllTame(net, s) && !e.Waits? && e.n < |s.nodes| && NodeNext(net, true, s, e, s')
    requires (e.Load? || e.Receive? || e.Issue?) && k < |s.links|
    ensures Fits(net, s') && Tame(net, s', k)
  {
    assert Tame(net, s, k) && net.LinkFits(k);
    Own(net, s, e.n);
    BusyLone(net, s, e.n);
    if e.Issue? && net.prod[k] == e.n { assert Comes(net, k, e.m, 0); }
    if e.Load? && s.nodes[e.n].pc.o == k { assert CanCome(net, k, s.links[k].buff[0]); }
  }

  lemma {:induction false} CopyTame(net: Net, s: Sys, e: Event, s': Sys, k: nat)
    requires net.Valid() && AllTame(net, s) && e.Copy? && e.n < |s.nodes| && NodeNext(net, true, s, e, s')
    requires k < |s.links|
    ensures Fits(net, s') && Tame(net, s', k)
  {
    assert Tame(net, s, k) && net.LinkFits(k);
    Own(net, s, e.n);
    PassedComes(net, s, e);
    SeesOwn(net, s, s.nodes[e.n].pc.i);
  }

  lemma {:induction false} StoreTame(net: Net, s: Sys, e: Event, s': Sys, k: nat)
    requires net.Valid() && AllTame(net, s) && e.Store? && e.n < |s.nodes| && NodeNext(net, true, s, e, s')
    requires k < |s.links|
    ensures Fits(net, s') && Tame(net, s', k)
  {
    assert Tame(net, s, k) && net.LinkFits(k);
    Own(net, s, e.n);
    PassedComes(net, s, e);
    SeesOwn(net, s, s.nodes[e.n].pc.i);
  }

  lemma {:induction false} StaysTame(net: Net, s: Sys, e: Event, s': Sys)
    requires net.Valid() && AllTame(net, s) && !e.Waits? && e.n < |s.nodes| && NodeNext(net, true, s, e, s')
    ensures AllTame(net, s')
  {
    SameStep(net, s, e, s');
    NodeNextInv(net, s, e, s');
    forall k | 0 <= k < |s'.links| ensures Tame(net, s', k) {
      if Looks(e) { LookTame(net, s, e, s', k); }
      else if Turns(e) { TurnTame(net, s, e, s', k); }
      else if Flags(e) { FlagTame(net, s, e, s', k); }
      else if e.Copy? { CopyTame(net, s, e, s', k); }
      else if e.Store? { StoreTame(net, s, e, s', k); }
      else { TargetTame(net, s, e, s', k); }
    }
  }
}
