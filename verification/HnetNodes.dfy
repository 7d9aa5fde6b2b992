/**
  The threads of the network simulator (simu_hnet.cpp): nodes that pass messages over links with
  a request flag, an acknowledge flag and a message register.

  A link belongs to the node that writes to it, its request flag and register too; the
  acknowledge flag belongs to the node that reads from it. Every access to a flag or register
  of another node is a step of its own.
 */
module HnetNodes {
  import opened HnetQueue
  import opened LognetSlices

  // hnode_1to2 with its selector (`itv` is the flag gh_is_interval), hnode_2to1, hnode_target.
  datatype Kind = Split(itv: bool, sel: Interval) | Join | Target(source: bool)

  // The links that a node reads from and writes to, in the order in0, in1 and out0, out1.
  datatype Decl = Decl(kind: Kind, ins: seq<nat>, outs: seq<nat>)

  // The writer and the reader of every link; whether nodes have queues, and how long they are.
  datatype Net = Net(nodes: seq<Decl>, prod: seq<nat>, cons: seq<nat>, buffed: bool, cap: nat) {
    predicate Arity(n: nat)
      requires n < |nodes|
    {
      var d := nodes[n];
      match d.kind
      case Split(_, _) => |d.ins| == 1 && |d.outs| == 2 && d.outs[0] != d.outs[1]
      case Join => |d.ins| == 2 && |d.outs| == 1 && d.ins[0] != d.ins[1]
      case Target(_) => |d.ins| == 1 && |d.outs| == 1
    }

    predicate NodeFits(n: nat)
      requires n < |nodes|
    {
      && Arity(n)
      && (forall i | i in nodes[n].ins :: i < |cons| && cons[i] == n)
      && (forall o | o in nodes[n].outs :: o < |prod| && prod[o] == n)
    }

    predicate LinkFits(k: nat)
      requires k < |prod| && k < |cons|
    {
      prod[k] < |nodes| && k in nodes[prod[k]].outs && cons[k] < |nodes| && k in nodes[cons[k]].ins
    }

    predicate Valid() {
      && |prod| == |cons| && cap > 0
      && (forall n | 0 <= n < |nodes| :: NodeFits(n))
      && (forall k | 0 <= k < |prod| :: LinkFits(k))
    }

    // in_interval of the selector of a node.
    static predicate Inside(kind: Kind, dst: int)
      requires kind.Split?
    {
      if kind.itv then kind.sel.In(dst) else kind.sel.lft.In(dst)
    }

    // The link that a node sends a message to.
    function Route(n: nat, m: Msg): (o: nat)
      requires Valid() && n < |nodes| && !nodes[n].kind.Target?
      ensures o in nodes[n].outs
    {
      assert NodeFits(n);
      if nodes[n].kind.Join? || Inside(nodes[n].kind, m.dst) then nodes[n].outs[0] else nodes[n].outs[1]
    }

    // The link whose request and message the reader of link `k` finds (ireq, get_message_of): the
    // first output of the writer that leads to the reader.
    function ReqOf(k: nat): (r: nat)
      requires Valid() && k < |prod|
      ensures r < |prod|
    {
      assert LinkFits(k) && NodeFits(prod[k]);
      var outs := nodes[prod[k]].outs;
      assert outs[0] in outs && (|outs| > 1 ==> outs[1] in outs);
      if cons[outs[0]] == cons[k] then outs[0] else if |outs| > 1 then outs[1] else k
    }

    // The link whose acknowledge the writer of link `k` finds (oack): the first input of the
    // reader that comes from the writer.
    function AckOf(k: nat): (r: nat)
      requires Valid() && k < |prod|
      ensures r < |prod|
    {
      assert LinkFits(k) && NodeFits(cons[k]);
      var ins := nodes[cons[k]].ins;
      assert ins[0] in ins && (|ins| > 1 ==> ins[1] in ins);
      if prod[ins[0]] == prod[k] then ins[0] else if |ins| > 1 then ins[1] else k
    }

    // Links `k` and `l` join the same nodes the same way.
    predicate Parallel(k: nat, l: nat) {
      && k < |prod| && k < |cons| && l < |prod| && l < |cons| && k != l
      && prod[k] == prod[l] && cons[k] == cons[l]
    }

    // No link joins the same nodes as link `k`.
    ghost predicate Lone(k: nat) { forall l: nat :: !Parallel(k, l) }

    predicate IsTarget(n: nat) { n < |nodes| && nodes[n].kind.Target? }

    predicate IsSource(n: nat) { IsTarget(n) && nodes[n].kind.source }
  }

  // Where a thread is in the loop of its node. `i` is a link it reads from, `o` one it writes to.
  datatype Pc =
    | Rest
    | Saw(i: nat)                // found a request on `i`, not acknowledged yet
    | Open(i: nat, o: nat)       // without queues: found `o` free for the message on `i`
    | Copied(i: nat, o: nat)     // without queues: wrote the register of `o`
    | Kept(i: nat)               // has the message on `i`, acknowledge not set yet
    | Free(o: nat)               // found `o` free
    | Filled(o: nat)             // target: wrote the register of `o`, not counted yet
    | Loaded(o: nat)             // wrote the register of `o`, request not set yet
    | AckLow(i: nat)             // found the request on `i` withdrawn
    | ReqLow(o: nat)             // found the acknowledge on `o`

  // `sent` and `taken` are not in the source: the messages ever written to the register, and
  // ever read from it. `buff` is the queue in front of the register.
  datatype Link = Link(req: bool, ack: bool, msg: Msg, buff: seq<Msg>, sent: seq<Msg>, taken: seq<Msg>)

  datatype Entry = Entry(i: nat, o: nat, m: Msg)

  // `log`, `issued` and `delivered` are not in the source: what a 1to2 or 2to1 node has let
  // through, from where to where, and what a target has sent and received.
  datatype Node = Node(pc: Pc, log: seq<Entry>, issued: seq<Msg>, delivered: seq<Msg>,
                       numSnt: nat, numRcv: nat, sentAll: bool)

  // wait_all_threads_ended_simu, which reads one target at a time.
  datatype Main =
    | Sources(k: nat, totSrc: nat, totOk: nat)
    | SumSnt(k: nat, acc: nat)
    | SumRcv(k: nat, snt: nat, acc: nat)
    | Ended

  datatype Sys = Sys(nodes: seq<Node>, links: seq<Link>, main: Main) {
    function Go(n: nat, pc: Pc): Sys
      requires n < |nodes|
    {
      this.(nodes := nodes[n := nodes[n].(pc := pc)])
    }

    function Put(k: nat, l: Link): Sys
      requires k < |links|
    {
      this.(links := links[k := l])
    }

    function Logged(n: nat, e: Entry): Sys
      requires n < |nodes|
    {
      this.(nodes := nodes[n := nodes[n].(log := nodes[n].log + [e])])
    }
  }

  predicate Fits(net: Net, s: Sys) { |s.nodes| == |net.nodes| && |s.links| == |net.prod| }

  datatype Event =
    | Look(n: nat, i: nat)
    | Choose(n: nat)
    | Pick(n: nat, i: nat)
    | Pass(n: nat)
    | Copy(n: nat)
    | Store(n: nat)
    | LookOut(n: nat, o: nat)
    | Load(n: nat)
    | Receive(n: nat)
    | Issue(n: nat, m: Msg)
    | CountSent(n: nat)
    | Finish(n: nat)
    | RaiseReq(n: nat)
    | RaiseAck(n: nat)
    | LookAckLow(n: nat, i: nat)
    | LowerAck(n: nat)
    | LookReqLow(n: nat, o: nat)
    | LowerReq(n: nat)
    | Waits

  predicate IsFree(l: Link) { !l.req && !l.ack }

  predicate Asks(l: Link) { l.req && !l.ack }

  // What the thread that reads from link `k` finds there, and the thread that writes to it. With
  // `adr` they look for the flags of the other by the address of its node, as the source does;
  // without, they find the flags of the link itself.
  function SeenIn(net: Net, adr: bool, s: Sys, k: nat): Link
    requires net.Valid() && Fits(net, s) && k < |s.links|
  {
    if adr then s.links[net.ReqOf(k)].(ack := s.links[k].ack) else s.links[k]
  }

  function SeenOut(net: Net, adr: bool, s: Sys, k: nat): Link
    requires net.Valid() && Fits(net, s) && k < |s.links|
  {
    if adr then s.links[k].(ack := s.links[net.AckOf(k)].ack) else s.links[k]
  }

  // ---------------------------------------------------------------- the steps of a node

  // ireq(*in) && ! ack, at the top of the loop of all but the 2to1 node without queues.
  predicate StepLook(net: Net, adr: bool, s: Sys, n: nat, i: nat, s': Sys)
    requires net.Valid() && Fits(net, s) && n < |s.nodes| && i < |s.links|
  {
    && s.nodes[n].pc.Rest? && i in net.nodes[n].ins && (net.buffed || !net.nodes[n].kind.Join?)
    && Asks(SeenIn(net, adr, s, i)) && s' == s.Go(n, Saw(i))
  }

  // 1to2 without queues: the selector says where to, and rdy_out is read there.
  predicate StepChoose(net: Net, adr: bool, s: Sys, n: nat, s': Sys)
    requires net.Valid() && Fits(net, s) && n < |s.nodes|
  {
    && s.nodes[n].pc.Saw? && net.nodes[n].kind.Split? && !net.buffed && s.nodes[n].pc.i < |s.links|
    && var i := s.nodes[n].pc.i;
    && var o := net.Route(n, SeenIn(net, adr, s, i).msg);
    && o < |s.links|
    && s' == s.Go(n, if IsFree(SeenOut(net, adr, s, o)) then Open(i, o) else Rest)
  }

  // 2to1 without queues: rdy_out0 was found true, and in0 or in1 asks, or neither does.
  predicate StepPick(net: Net, adr: bool, s: Sys, n: nat, i: nat, s': Sys)
    requires net.Valid() && Fits(net, s) && n < |s.nodes| && i < |s.links|
  {
    && s.nodes[n].pc.Free? && net.nodes[n].kind.Join? && !net.buffed && i in net.nodes[n].ins
    && Asks(SeenIn(net, adr, s, i)) && s' == s.Go(n, Open(i, s.nodes[n].pc.o))
  }

  predicate StepPass(net: Net, s: Sys, n: nat, s': Sys)
    requires net.Valid() && Fits(net, s) && n < |s.nodes|
  {
    s.nodes[n].pc.Free? && net.nodes[n].kind.Join? && !net.buffed && s' == s.Go(n, Rest)
  }

  // Without queues: copy_mg_to from register to register.
  predicate StepCopy(net: Net, adr: bool, s: Sys, n: nat, s': Sys)
    requires net.Valid() && Fits(net, s) && n < |s.nodes|
  {
    && s.nodes[n].pc.Open? && s.nodes[n].pc.i < |s.links| && s.nodes[n].pc.o < |s.links|
    && var i, o := s.nodes[n].pc.i, s.nodes[n].pc.o;
    && var m := SeenIn(net, adr, s, i).msg;
    && var s1 := s.Put(i, s.links[i].(taken := s.links[i].taken + [m]));
    && var s2 := s1.Put(o, s1.links[o].(msg := m, sent := s1.links[o].sent + [m]));
    && s' == s2.Logged(n, Entry(i, o, m)).Go(n, Copied(i, o))
  }

  // With queues: run_head_queue_simu up to the point where the acknowledge is to be set.
  predicate StepStore(net: Net, adr: bool, s: Sys, n: nat, s': Sys)
    requires net.Valid() && Fits(net, s) && n < |s.nodes|
  {
    && s.nodes[n].pc.Saw? && !net.nodes[n].kind.Target? && net.buffed && s.nodes[n].pc.i < |s.links|
    && var i := s.nodes[n].pc.i;
    && var m := SeenIn(net, adr, s, i).msg;
    && var o := net.Route(n, m);
    && o < |s.links|
    && if |s.links[o].buff| < net.cap then
         var s1 := s.Put(i, s.links[i].(taken := s.links[i].taken + [m]));
         var s2 := s1.Put(o, s1.links[o].(buff := s1.links[o].buff + [m]));
         s' == s2.Logged(n, Entry(i, o, m)).Go(n, Kept(i))
       else s' == s.Go(n, Rest)
  }

  // rdy_out: of a queue that is not empty, of a 2to1 node without queues, of a source.
  predicate StepLookOut(net: Net, adr: bool, s: Sys, n: nat, o: nat, s': Sys)
    requires net.Valid() && Fits(net, s) && n < |s.nodes| && o < |s.links|
  {
    && s.nodes[n].pc.Rest? && o in net.nodes[n].outs
    && (match net.nodes[n].kind
        case Target(source) => source && !s.nodes[n].sentAll
        case Split(_, _) => net.buffed && s.links[o].buff != []
        case Join => net.buffed ==> s.links[o].buff != [])
    && IsFree(SeenOut(net, adr, s, o)) && s' == s.Go(n, Free(o))
  }

  // run_tail_queue_simu: the oldest message of the queue goes to the register.
  predicate StepLoad(net: Net, s: Sys, n: nat, s': Sys)
    requires net.Valid() && Fits(net, s) && n < |s.nodes|
  {
    && s.nodes[n].pc.Free? && !net.nodes[n].kind.Target? && net.buffed && s.nodes[n].pc.o < |s.links|
    && var o := s.nodes[n].pc.o;
    && var l := s.links[o];
    && l.buff != []
    && s' == s.Put(o, l.(buff := l.buff[1..], msg := l.buff[0], sent := l.sent + [l.buff[0]])).Go(n, Loaded(o))
  }

  // A target takes what is in the register and counts it.
  predicate StepReceive(net: Net, adr: bool, s: Sys, n: nat, s': Sys)
    requires net.Valid() && Fits(net, s) && n < |s.nodes|
  {
    && s.nodes[n].pc.Saw? && net.IsTarget(n) && s.nodes[n].pc.i < |s.links|
    && var i, x := s.nodes[n].pc.i, s.nodes[n];
    && var m := SeenIn(net, adr, s, i).msg;
    && var s1 := s.Put(i, s.links[i].(taken := s.links[i].taken + [m]));
    && s' == s1.(nodes := s.nodes[n := x.(delivered := x.delivered + [m], numRcv := x.numRcv + 1, pc := Kept(i))])
  }

  // A source writes a new message, then counts it; or it finds that there are no more.
  predicate StepIssue(net: Net, s: Sys, n: nat, m: Msg, s': Sys)
    requires net.Valid() && Fits(net, s) && n < |s.nodes|
  {
    && s.nodes[n].pc.Free? && net.IsTarget(n) && s.nodes[n].pc.o < |s.links|
    && var o, x := s.nodes[n].pc.o, s.nodes[n];
    && var l := s.links[o];
    && s' == s.Put(o, l.(msg := m, sent := l.sent + [m]))
              .(nodes := s.nodes[n := x.(issued := x.issued + [m], pc := Filled(o))])
  }

  predicate StepCountSent(s: Sys, n: nat, s': Sys)
    requires n < |s.nodes|
  {
    && s.nodes[n].pc.Filled?
    && s' == s.(nodes := s.nodes[n := s.nodes[n].(numSnt := s.nodes[n].numSnt + 1, pc := Loaded(s.nodes[n].pc.o))])
  }

  predicate StepFinish(net: Net, s: Sys, n: nat, s': Sys)
    requires net.Valid() && Fits(net, s) && n < |s.nodes|
  {
    && s.nodes[n].pc.Free? && net.IsTarget(n)
    && s' == s.(nodes := s.nodes[n := s.nodes[n].(sentAll := true, pc := Rest)])
  }

  predicate StepRaiseReq(s: Sys, n: nat, s': Sys)
    requires n < |s.nodes|
  {
    && (s.nodes[n].pc.Copied? || s.nodes[n].pc.Loaded?) && s.nodes[n].pc.o < |s.links|
    && var o := s.nodes[n].pc.o;
    && s' == s.Put(o, s.links[o].(req := true)).Go(n, if s.nodes[n].pc.Copied? then Kept(s.nodes[n].pc.i) else Rest)
  }

  predicate StepRaiseAck(s: Sys, n: nat, s': Sys)
    requires n < |s.nodes|
  {
    && s.nodes[n].pc.Kept? && s.nodes[n].pc.i < |s.links|
    && var i := s.nodes[n].pc.i;
    && s' == s.Put(i, s.links[i].(ack := true)).Go(n, Rest)
  }

  // The four tests at the end of the loop, and what they do.
  predicate StepLookAckLow(net: Net, adr: bool, s: Sys, n: nat, i: nat, s': Sys)
    requires net.Valid() && Fits(net, s) && n < |s.nodes| && i < |s.links|
  {
    && s.nodes[n].pc.Rest? && i in net.nodes[n].ins && !SeenIn(net, adr, s, i).req && s.links[i].ack
    && s' == s.Go(n, AckLow(i))
  }

  predicate StepLowerAck(s: Sys, n: nat, s': Sys)
    requires n < |s.nodes|
  {
    && s.nodes[n].pc.AckLow? && s.nodes[n].pc.i < |s.links|
    && s' == s.Put(s.nodes[n].pc.i, s.links[s.nodes[n].pc.i].(ack := false)).Go(n, Rest)
  }

  predicate StepLookReqLow(net: Net, adr: bool, s: Sys, n: nat, o: nat, s': Sys)
    requires net.Valid() && Fits(net, s) && n < |s.nodes| && o < |s.links|
  {
    && s.nodes[n].pc.Rest? && o in net.nodes[n].outs && s.links[o].req && SeenOut(net, adr, s, o).ack
    && s' == s.Go(n, ReqLow(o))
  }

  predicate StepLowerReq(s: Sys, n: nat, s': Sys)
    requires n < |s.nodes|
  {
    && s.nodes[n].pc.ReqLow? && s.nodes[n].pc.o < |s.links|
    && s' == s.Put(s.nodes[n].pc.o, s.links[s.nodes[n].pc.o].(req := false)).Go(n, Rest)
  }

  // ---------------------------------------------------------------- the thread that waits

  function B(x: bool): nat { if x then 1 else 0 }

  function MainStep(net: Net, s: Sys): Main
    requires Fits(net, s)
  {
    match s.main
    case Sources(k, src, ok) =>
      if k < |s.nodes| then
        Sources(k + 1, src + B(net.IsSource(k)), ok + B(net.IsSource(k) && s.nodes[k].sentAll))
      else if ok == src then SumSnt(0, 0) else Sources(0, 0, 0)
    case SumSnt(k, acc) =>
      if k < |s.nodes| then SumSnt(k + 1, acc + s.nodes[k].numSnt) else SumRcv(0, acc, 0)
    case SumRcv(k, snt, acc) =>
      if k < |s.nodes| then SumRcv(k + 1, snt, acc + s.nodes[k].numRcv)
      else if acc == snt then Ended else SumRcv(0, snt, 0)
    case Ended => Ended
  }

  // ---------------------------------------------------------------- runs

  predicate NodeNext(net: Net, adr: bool, s: Sys, e: Event, s': Sys)
    requires net.Valid() && Fits(net, s) && !e.Waits? && e.n < |s.nodes|
  {
    match e
    case Look(n, i) => i < |s.links| && StepLook(net, adr, s, n, i, s')
    case Choose(n) => StepChoose(net, adr, s, n, s')
    case Pick(n, i) => i < |s.links| && StepPick(net, adr, s, n, i, s')
    case Pass(n) => StepPass(net, s, n, s')
    case Copy(n) => StepCopy(net, adr, s, n, s')
    case Store(n) => StepStore(net, adr, s, n, s')
    case LookOut(n, o) => o < |s.links| && StepLookOut(net, adr, s, n, o, s')
    case Load(n) => StepLoad(net, s, n, s')
    case Receive(n) => StepReceive(net, adr, s, n, s')
    case Issue(n, m) => StepIssue(net, s, n, m, s')
    case CountSent(n) => StepCountSent(s, n, s')
    case Finish(n) => StepFinish(net, s, n, s')
    case RaiseReq(n) => StepRaiseReq(s, n, s')
    case RaiseAck(n) => StepRaiseAck(s, n, s')
    case LookAckLow(n, i) => i < |s.links| && StepLookAckLow(net, adr, s, n, i, s')
    case LowerAck(n) => StepLowerAck(s, n, s')
    case LookReqLow(n, o) => o < |s.links| && StepLookReqLow(net, adr, s, n, o, s')
    case LowerReq(n) => StepLowerReq(s, n, s')
  }

  ghost predicate Next(net: Net, s: Sys, e: Event, s': Sys)
    requires net.Valid()
  {
    && Fits(net, s)
    && if e.Waits? then s' == s.(main := MainStep(net, s)) else e.n < |s.nodes| && NodeNext(net, true, s, e, s')
  }

  const NO_MSG := Msg(0, -1, -1, -1)

  function Start(net: Net): Sys {
    Sys(seq(|net.nodes|, _ => Node(Rest, [], [], [], 0, 0, false)),
        seq(|net.prod|, _ => Link(false, false, NO_MSG, [], [], [])), Sources(0, 0, 0))
  }

  ghost predicate Run(net: Net, tr: seq<Sys>, es: seq<Event>)
    requires net.Valid()
  {
    && |tr| == |es| + 1 && tr[0] == Start(net)
    && forall i | 0 <= i < |es| :: Next(net, tr[i], es[i], tr[i + 1])
  }

  ghost predicate Reachable(net: Net, s: Sys)
    requires net.Valid()
  {
    exists tr, es :: Run(net, tr, es) && tr[|es|] == s
  }
}
