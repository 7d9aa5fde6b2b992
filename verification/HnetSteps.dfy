/**
  Every step of a node of the simulated network keeps the invariant: first for the links, one
  kind of step after the other, then for the nodes, where all but the node that takes the step
  are left alone.
 */
module HnetSteps {
  import opened HnetQueue
  import opened HnetNodes
  import opened HnetInv

  // The links that node `n` is busy with.
  lemma Own(net: Net, s: Sys, n: nat)
    requires net.Valid() && Inv(net, s) && n < |s.nodes|
    ensures PcOk(net, n, s.nodes[n].pc) && net.NodeFits(n)
    ensures var pc := s.nodes[n].pc;
      (pc.Saw? || pc.Open? || pc.Copied? || pc.Kept? || pc.AckLow? ==>
         pc.i < |s.links| && net.cons[pc.i] == n && LinkOk(net, s, pc.i))
    ensures var pc := s.nodes[n].pc;
      (pc.Open? || pc.Copied? || pc.Free? || pc.Filled? || pc.Loaded? || pc.ReqLow? ==>
         pc.o < |s.links| && net.prod[pc.o] == n && LinkOk(net, s, pc.o))
  {
    assert NodeOk(net, s, n) && net.NodeFits(n);
  }

  // A step of a node from a state in which the invariant holds.
  ghost predicate Steps(net: Net, s: Sys, e: Event, s': Sys) {
    net.Valid() && Inv(net, s) && !e.Waits? && e.n < |s.nodes| && NodeNext(net, false, s, e, s')
  }

  // Steps that only look at a flag.
  predicate Looks(e: Event) { e.Look? || e.LookOut? || e.LookAckLow? || e.LookReqLow? }

  // Steps that decide what is done next.
  predicate Turns(e: Event) { e.Choose? || e.Pick? || e.Pass? || e.CountSent? || e.Finish? }

  // Steps that change one flag.
  predicate Flags(e: Event) { e.RaiseReq? || e.RaiseAck? || e.LowerAck? || e.LowerReq? }

  lemma {:induction false} LookInLink(net: Net, s: Sys, e: Event, s': Sys, k: nat)
    requires Steps(net, s, e, s') && (e.Look? || e.LookAckLow?) && k < |s.links|
    ensures Fits(net, s') && LinkOk(net, s', k)
  {
    assert LinkOk(net, s, k) && net.LinkFits(k);
    Own(net, s, e.n);
  }

  lemma {:induction false} LookOutLink(net: Net, s: Sys, e: Event, s': Sys, k: nat)
    requires Steps(net, s, e, s') && (e.LookOut? || e.LookReqLow?) && k < |s.links|
    ensures Fits(net, s') && LinkOk(net, s', k)
  {
    assert LinkOk(net, s, k) && net.LinkFits(k);
    Own(net, s, e.n);
  }

  lemma {:induction false} ChooseLink(net: Net, s: Sys, e: Event, s': Sys, k: nat)
    requires Steps(net, s, e, s') && (e.Choose? || e.Pick? || e.Pass?) && k < |s.links|
    ensures Fits(net, s') && LinkOk(net, s', k)
  {
    assert LinkOk(net, s, k) && net.LinkFits(k);
    Own(net, s, e.n);
  }

  lemma {:induction false} CountLink(net: Net, s: Sys, e: Event, s': Sys, k: nat)
    requires Steps(net, s, e, s') && (e.CountSent? || e.Finish?) && k < |s.links|
    ensures Fits(net, s') && LinkOk(net, s', k)
  {
    assert LinkOk(net, s, k) && net.LinkFits(k);
    Own(net, s, e.n);
  }

  lemma {:induction false} ReqLink(net: Net, s: Sys, e: Event, s': Sys, k: nat)
    requires Steps(net, s, e, s') && e.RaiseReq? && k < |s.links|
    ensures Fits(net, s') && LinkOk(net, s', k)
  {
    assert LinkOk(net, s, k) && net.LinkFits(k);
    Own(net, s, e.n);
  }

  lemma {:induction false} AckLink(net: Net, s: Sys, e: Event, s': Sys, k: nat)
    requires Steps(net, s, e, s') && e.RaiseAck? && k < |s.links|
    ensures Fits(net, s') && LinkOk(net, s', k)
  {
    assert LinkOk(net, s, k) && net.LinkFits(k);
    Own(net, s, e.n);
  }

  lemma {:induction false} LowerAckLink(net: Net, s: Sys, e: Event, s': Sys, k: nat)
    requires Steps(net, s, e, s') && e.LowerAck? && k < |s.links|
    ensures Fits(net, s') && LinkOk(net, s', k)
  {
    assert LinkOk(net, s, k) && net.LinkFits(k);
    Own(net, s, e.n);
  }

  lemma {:induction false} LowerReqLink(net: Net, s: Sys, e: Event, s': Sys, k: nat)
    requires Steps(net, s, e, s') && e.LowerReq? && k < |s.links|
    ensures Fits(net, s') && LinkOk(net, s', k)
  {
    assert LinkOk(net, s, k) && net.LinkFits(k);
    Own(net, s, e.n);
  }

  lemma {:induction false} LoadLink(net: Net, s: Sys, e: Event, s': Sys, k: nat)
    requires Steps(net, s, e, s') && e.Load? && k < |s.links|
    ensures Fits(net, s') && LinkOk(net, s', k)
  {
    assert LinkOk(net, s, k) && net.LinkFits(k);
    Own(net, s, e.n);
  }

  lemma {:induction false} ReceiveLink(net: Net, s: Sys, e: Event, s': Sys, k: nat)
    requires Steps(net, s, e, s') && e.Receive? && k < |s.links|
    ensures Fits(net, s') && LinkOk(net, s', k)
  {
    assert LinkOk(net, s, k) && net.LinkFits(k);
    Own(net, s, e.n);
  }

  lemma {:induction false} IssueLink(net: Net, s: Sys, e: Event, s': Sys, k: nat)
    requires Steps(net, s, e, s') && e.Issue? && k < |s.links|
    ensures Fits(net, s') && LinkOk(net, s', k)
  {
    assert LinkOk(net, s, k) && net.LinkFits(k);
    Own(net, s, e.n);
  }

  lemma {:induction false} CopyLink(net: Net, s: Sys, e: Event, s': Sys, k: nat)
    requires Steps(net, s, e, s') && e.Copy? && k < |s.links|
    ensures Fits(net, s') && LinkOk(net, s', k)
  {
    assert LinkOk(net, s, k) && net.LinkFits(k);
    Own(net, s, e.n);
    var p, c := s'.nodes[net.prod[k]].pc, s'.nodes[net.cons[k]].pc;
    assert LinkIn(s'.links[k], p, c, k);
  }

  // The queue that the message goes to has no room.
  predicate QueueFull(net: Net, s: Sys, n: nat)
    requires net.Valid() && Fits(net, s) && n < |s.nodes|
  {
    var pc := s.nodes[n].pc;
    && pc.Saw? && pc.i < |s.links| && !net.IsTarget(n)
    && var o := net.Route(n, s.links[pc.i].msg);
    && o < |s.links| && |s.links[o].buff| >= net.cap
  }

  lemma {:induction false} FullLink(net: Net, s: Sys, e: Event, s': Sys, k: nat)
    requires Steps(net, s, e, s') && e.Store? && k < |s.links|
    requires QueueFull(net, s, e.n)
    ensures Fits(net, s') && LinkOk(net, s', k)
  {
    assert LinkOk(net, s, k) && net.LinkFits(k);
    Own(net, s, e.n);
  }

  lemma {:induction false} StoreLink(net: Net, s: Sys, e: Event, s': Sys, k: nat)
    requires Steps(net, s, e, s') && e.Store? && k < |s.links|
    requires !QueueFull(net, s, e.n)
    ensures Fits(net, s') && LinkOk(net, s', k)
  {
    assert LinkOk(net, s, k) && net.LinkFits(k);
    Own(net, s, e.n);
    var p, c := s'.nodes[net.prod[k]].pc, s'.nodes[net.cons[k]].pc;
    assert LinkIn(s'.links[k], p, c, k);
  }

  // ---------------------------------------------------------------- the nodes

  // A step of node `n` leaves alone what the other nodes wrote, and the registers that they read.
  ghost predicate Frame(net: Net, s: Sys, n: nat, s': Sys)
    requires net.Valid() && Fits(net, s)
  {
    && Fits(net, s')
    && (forall j | 0 <= j < |s.nodes| && j != n :: s'.nodes[j] == s.nodes[j])
    && (forall k | 0 <= k < |s.links| :: LinkFrame(net, s, n, s', k))
  }

  predicate LinkFrame(net: Net, s: Sys, n: nat, s': Sys, k: nat)
    requires net.Valid() && Fits(net, s) && Fits(net, s') && k < |s.links|
  {
    var l, l' := s.links[k], s'.links[k];
    && (net.cons[k] != n ==> l'.taken == l.taken)
    && (net.prod[k] != n ==> l'.sent == l.sent && l'.buff == l.buff)
    && (net.prod[k] != n || !IsFree(l) ==> l'.msg == l.msg)
  }

  lemma {:induction false} LookFrame(net: Net, s: Sys, e: Event, s': Sys)
    requires Steps(net, s, e, s') && Looks(e)
    ensures Frame(net, s, e.n, s')
  {
    Own(net, s, e.n);
  }

  lemma {:induction false} TurnFrame(net: Net, s: Sys, e: Event, s': Sys)
    requires Steps(net, s, e, s') && Turns(e)
    ensures Frame(net, s, e.n, s')
  {
    Own(net, s, e.n);
  }

  lemma {:induction false} ReqFrame(net: Net, s: Sys, e: Event, s': Sys)
    requires Steps(net, s, e, s') && (e.RaiseReq? || e.LowerReq?)
    ensures Frame(net, s, e.n, s')
  {
    Own(net, s, e.n);
  }

  lemma {:induction false} AckFrame(net: Net, s: Sys, e: Event, s': Sys)
    requires Steps(net, s, e, s') && (e.RaiseAck? || e.LowerAck?)
    ensures Frame(net, s, e.n, s')
  {
    Own(net, s, e.n);
  }

  lemma {:induction false} RegisterFrame(net: Net, s: Sys, e: Event, s': Sys)
    requires Steps(net, s, e, s') && (e.Load? || e.Receive? || e.Issue?)
    ensures Frame(net, s, e.n, s')
  {
    Own(net, s, e.n);
  }

  lemma {:induction false} CopyFrame(net: Net, s: Sys, e: Event, s': Sys)
    requires Steps(net, s, e, s') && e.Copy?
    ensures Frame(net, s, e.n, s')
  {
    Own(net, s, e.n);
  }

  lemma {:induction false} StoreFrame(net: Net, s: Sys, e: Event, s': Sys)
    requires Steps(net, s, e, s') && e.Store?
    ensures Frame(net, s, e.n, s')
  {
    Own(net, s, e.n);
  }

  lemma {:induction false} OtherNode(net: Net, s: Sys, n: nat, s': Sys, j: nat)
    requires net.Valid() && Inv(net, s) && n < |s.nodes| && Frame(net, s, n, s') && j < |s.nodes| && j != n
    ensures NodeOk(net, s', j)
  {
    Own(net, s, j);
    assert NodeOk(net, s, j);
    forall k | 0 <= k < |s.links|
      ensures net.cons[k] == j ==> s'.links[k].taken == s.links[k].taken
      ensures net.prod[k] == j ==> s'.links[k].sent == s.links[k].sent && s'.links[k].buff == s.links[k].buff
      ensures !IsFree(s.links[k]) ==> s'.links[k].msg == s.links[k].msg
    {
      assert LinkFrame(net, s, n, s', k);
    }
  }

  lemma {:induction false} LookNode(net: Net, s: Sys, e: Event, s': Sys)
    requires Steps(net, s, e, s') && Looks(e)
    ensures Fits(net, s') && NodeOk(net, s', e.n)
  {
    Own(net, s, e.n);
    assert NodeOk(net, s, e.n);
  }

  lemma {:induction false} TurnNode(net: Net, s: Sys, e: Event, s': Sys)
    requires Steps(net, s, e, s') && Turns(e)
    ensures Fits(net, s') && NodeOk(net, s', e.n)
  {
    Own(net, s, e.n);
    assert NodeOk(net, s, e.n);
  }

  lemma {:induction false} FlagNode(net: Net, s: Sys, e: Event, s': Sys)
    requires Steps(net, s, e, s') && Flags(e)
    ensures Fits(net, s') && NodeOk(net, s', e.n)
  {
    Own(net, s, e.n);
    assert NodeOk(net, s, e.n);
  }

  lemma {:induction false} LoadNode(net: Net, s: Sys, e: Event, s': Sys)
    requires Steps(net, s, e, s') && e.Load?
    ensures Fits(net, s') && NodeOk(net, s', e.n)
  {
    Own(net, s, e.n);
    assert NodeOk(net, s, e.n);
  }

  lemma {:induction false} RegisterNode(net: Net, s: Sys, e: Event, s': Sys)
    requires Steps(net, s, e, s') && (e.Receive? || e.Issue?)
    ensures Fits(net, s') && NodeOk(net, s', e.n)
  {
    Own(net, s, e.n);
    assert NodeOk(net, s, e.n);
  }

  lemma {:induction false} CopyNode(net: Net, s: Sys, e: Event, s': Sys)
    requires Steps(net, s, e, s') && e.Copy?
    ensures Fits(net, s') && NodeOk(net, s', e.n)
  {
    Own(net, s, e.n);
    assert NodeOk(net, s, e.n);
    var log, log' := s.nodes[e.n].log, s'.nodes[e.n].log;
    var en := log'[|log|];
    forall k: nat
      ensures From(log', k) == From(log, k) + if en.i == k then [en.m] else []
      ensures To(log', k) == To(log, k) + if en.o == k then [en.m] else []
    {
      FromMore(log, en, k);
    }
  }

  lemma {:induction false} FullNode(net: Net, s: Sys, e: Event, s': Sys)
    requires Steps(net, s, e, s') && e.Store? && QueueFull(net, s, e.n)
    ensures Fits(net, s') && NodeOk(net, s', e.n)
  {
    Own(net, s, e.n);
    assert NodeOk(net, s, e.n);
  }

  lemma {:induction false} StoreNode(net: Net, s: Sys, e: Event, s': Sys)
    requires Steps(net, s, e, s') && e.Store? && !QueueFull(net, s, e.n)
    ensures Fits(net, s') && NodeOk(net, s', e.n)
  {
    Own(net, s, e.n);
    assert NodeOk(net, s, e.n);
    var log, log' := s.nodes[e.n].log, s'.nodes[e.n].log;
    var en := log'[|log|];
    forall k: nat
      ensures From(log', k) == From(log, k) + if en.i == k then [en.m] else []
      ensures To(log', k) == To(log, k) + if en.o == k then [en.m] else []
    {
      FromMore(log, en, k);
    }
  }

  lemma {:induction false} LinkKept(net: Net, s: Sys, e: Event, s': Sys, k: nat)
    requires Steps(net, s, e, s') && k < |s.links|
    ensures Fits(net, s') && LinkOk(net, s', k)
  {
    match e
    case Look(_, _) => LookInLink(net, s, e, s', k);
    case LookAckLow(_, _) => LookInLink(net, s, e, s', k);
    case LookOut(_, _) => LookOutLink(net, s, e, s', k);
    case LookReqLow(_, _) => LookOutLink(net, s, e, s', k);
    case Choose(_) => ChooseLink(net, s, e, s', k);
    case Pick(_, _) => ChooseLink(net, s, e, s', k);
    case Pass(_) => ChooseLink(net, s, e, s', k);
    case CountSent(_) => CountLink(net, s, e, s', k);
    case Finish(_) => CountLink(net, s, e, s', k);
    case RaiseReq(_) => ReqLink(net, s, e, s', k);
    case RaiseAck(_) => AckLink(net, s, e, s', k);
    case LowerAck(_) => LowerAckLink(net, s, e, s', k);
    case LowerReq(_) => LowerReqLink(net, s, e, s', k);
    case Load(_) => LoadLink(net, s, e, s', k);
    case Receive(_) => ReceiveLink(net, s, e, s', k);
    case Issue(_, _) => IssueLink(net, s, e, s', k);
    case Copy(_) => CopyLink(net, s, e, s', k);
    case Store(_) => if QueueFull(net, s, e.n) { FullLink(net, s, e, s', k); } else { StoreLink(net, s, e, s', k); }
  }

  lemma {:induction false} StepFrame(net: Net, s: Sys, e: Event, s': Sys)
    requires Steps(net, s, e, s')
    ensures Frame(net, s, e.n, s')
  {
    if Looks(e) { LookFrame(net, s, e, s'); }
    else if Turns(e) { TurnFrame(net, s, e, s'); }
    else if e.RaiseReq? || e.LowerReq? { ReqFrame(net, s, e, s'); }
    else if Flags(e) { AckFrame(net, s, e, s'); }
    else if e.Copy? { CopyFrame(net, s, e, s'); }
    else if e.Store? { StoreFrame(net, s, e, s'); }
    else { RegisterFrame(net, s, e, s'); }
  }

  lemma {:induction false} NodeKept(net: Net, s: Sys, e: Event, s': Sys, j: nat)
    requires Steps(net, s, e, s') && j < |s.nodes|
    ensures Fits(net, s') && NodeOk(net, s', j)
  {
    StepFrame(net, s, e, s');
    if j != e.n { OtherNode(net, s, e.n, s', j); }
    else if Looks(e) { LookNode(net, s, e, s'); }
    else if Turns(e) { TurnNode(net, s, e, s'); }
    else if Flags(e) { FlagNode(net, s, e, s'); }
    else if e.Copy? { CopyNode(net, s, e, s'); }
    else if e.Store? { if QueueFull(net, s, e.n) { FullNode(net, s, e, s'); } else { StoreNode(net, s, e, s'); } }
    else if e.Load? { LoadNode(net, s, e, s'); }
    else { RegisterNode(net, s, e, s'); }
  }

  lemma {:induction false} NodeNextInv(net: Net, s: Sys, e: Event, s': Sys)
    requires Steps(net, s, e, s')
    ensures Inv(net, s')
  {
    StepFrame(net, s, e, s');
    forall k | 0 <= k < |s'.links| ensures LinkOk(net, s', k) { LinkKept(net, s, e, s', k); }
    forall j | 0 <= j < |s'.nodes| ensures NodeOk(net, s', j) { NodeKept(net, s, e, s', j); }
  }
}
