/**
  What every step of the simulated network keeps: the four phases of every link and where its
  two threads may be in them, and the agreement of the log of a node with what it has read and
  written.
 */
module HnetInv {
  import opened HnetQueue
  import opened HnetNodes

  // ---------------------------------------------------------------- the links

  // The writer of link `k` has written the register and not raised the request yet.
  predicate Filling(p: Pc, k: nat) { (p.Copied? || p.Filled? || p.Loaded?) && p.o == k }

  // It has found the link free and not written the register yet.
  predicate Opening(p: Pc, k: nat) { (p.Open? || p.Free?) && p.o == k }

  // The reader of link `k` is going to read the register.
  predicate Reading(c: Pc, k: nat) { (c.Saw? || c.Open?) && c.i == k }

  // It has read the register and not acknowledged yet.
  predicate Holding(c: Pc, k: nat) { (c.Copied? || c.Kept?) && c.i == k }

  // The message that is on a link: written and not read.
  function OnLink(l: Link, p: Pc, c: Pc, k: nat): seq<Msg> {
    if Filling(p, k) || (Asks(l) && !Holding(c, k)) then [l.msg] else []
  }

  // The four phases of a link, and where its two threads may be in them.
  predicate LinkIn(l: Link, p: Pc, c: Pc, k: nat) {
    && (Filling(p, k) || Opening(p, k) ==> IsFree(l))
    && (p == ReqLow(k) ==> l.req && l.ack)
    && (Reading(c, k) || Holding(c, k) ==> Asks(l))
    && (c == AckLow(k) ==> !l.req && l.ack)
    && l.sent == l.taken + OnLink(l, p, c, k)
  }

  predicate LinkOk(net: Net, s: Sys, k: nat)
    requires net.Valid() && Fits(net, s) && k < |s.links|
  {
    assert net.LinkFits(k);
    var p := s.nodes[net.prod[k]].pc;
    && LinkIn(s.links[k], p, s.nodes[net.cons[k]].pc, k)
    && |s.links[k].buff| <= (if net.buffed then net.cap else 0)
    && (net.buffed && p == Free(k) && !net.IsTarget(net.prod[k]) ==> s.links[k].buff != [])
    && (net.IsTarget(net.prod[k]) ==> s.links[k].buff == [])
  }

  // ---------------------------------------------------------------- the nodes

  // The messages of a log that came from link `i`, and that went to link `o`.
  function From(log: seq<Entry>, i: nat): seq<Msg> {
    if log == [] then []
    else
      var e := log[|log| - 1];
      From(log[..|log| - 1], i) + if e.i == i then [e.m] else []
  }

  function To(log: seq<Entry>, o: nat): seq<Msg> {
    if log == [] then []
    else
      var e := log[|log| - 1];
      To(log[..|log| - 1], o) + if e.o == o then [e.m] else []
  }

  lemma FromMore(log: seq<Entry>, e: Entry, i: nat)
    ensures From(log + [e], i) == From(log, i) + if e.i == i then [e.m] else []
    ensures To(log + [e], i) == To(log, i) + if e.o == i then [e.m] else []
  {
    assert (log + [e])[..|log|] == log;
  }

  predicate PcOk(net: Net, n: nat, pc: Pc)
    requires n < |net.nodes|
  {
    && (pc.Saw? || pc.Open? || pc.Copied? || pc.Kept? || pc.AckLow? ==> pc.i in net.nodes[n].ins)
    && (pc.Open? || pc.Copied? || pc.Free? || pc.Filled? || pc.Loaded? || pc.ReqLow? ==> pc.o in net.nodes[n].outs)
    && (pc.Open? || pc.Copied? ==> !net.IsTarget(n) && !net.buffed)
    && (pc.Filled? ==> net.IsSource(n))
    && (pc.Free? && net.IsTarget(n) ==> net.IsSource(n))
  }

  predicate EntryOk(net: Net, n: nat, e: Entry)
    requires net.Valid() && n < |net.nodes| && !net.IsTarget(n)
  {
    e.i in net.nodes[n].ins && e.o == net.Route(n, e.m)
  }

  // A 1to2 or 2to1 node: what it has read and what it has passed on are what it logged.
  predicate RouterOk(net: Net, s: Sys, n: nat)
    requires net.Valid() && Fits(net, s) && n < |s.nodes| && !net.IsTarget(n)
  {
    var x := s.nodes[n];
    && (forall i | 0 <= i < |s.links| && i in net.nodes[n].ins :: s.links[i].taken == From(x.log, i))
    && (forall o | 0 <= o < |s.links| && o in net.nodes[n].outs :: s.links[o].sent + s.links[o].buff == To(x.log, o))
    && (forall j | 0 <= j < |x.log| :: EntryOk(net, n, x.log[j]))
    && (x.pc.Open? && x.pc.i < |s.links| ==> x.pc.o == net.Route(n, s.links[x.pc.i].msg))
    && x.issued == [] && x.delivered == []
  }

  predicate TargetOk(net: Net, s: Sys, n: nat)
    requires net.Valid() && Fits(net, s) && n < |s.nodes| && net.IsTarget(n)
  {
    var x := s.nodes[n];
    && (forall i | 0 <= i < |s.links| && i in net.nodes[n].ins :: s.links[i].taken == x.delivered)
    && (forall o | 0 <= o < |s.links| && o in net.nodes[n].outs :: s.links[o].sent == x.issued)
    && (x.issued != [] ==> net.IsSource(n))
  }

  predicate NodeOk(net: Net, s: Sys, n: nat)
    requires net.Valid() && Fits(net, s) && n < |s.nodes|
  {
    var x := s.nodes[n];
    && PcOk(net, n, x.pc)
    && (if net.IsTarget(n) then TargetOk(net, s, n) else RouterOk(net, s, n))
    && x.numRcv == |x.delivered| && x.numSnt + B(x.pc.Filled?) == |x.issued|
    && (x.sentAll ==> net.IsSource(n) && !x.pc.Free? && !x.pc.Filled?)
  }

  ghost predicate Inv(net: Net, s: Sys)
    requires net.Valid()
  {
    && Fits(net, s)
    && (forall k {:trigger LinkOk(net, s, k)} | 0 <= k < |s.links| :: LinkOk(net, s, k))
    && (forall n {:trigger NodeOk(net, s, n)} | 0 <= n < |s.nodes| :: NodeOk(net, s, n))
  }
}
