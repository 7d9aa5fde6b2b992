/** The runs of the simulated network. */
module HnetRuns {
  import opened HnetQueue
  import opened HnetNodes
  import opened HnetInv
  import opened HnetSteps
  import opened HnetTotals
  import opened HnetSight

  // What holds in every reachable state, whatever the sources send and however the threads
  // interleave, in every network in which no message comes to the first of two links between the
  // same nodes.

  // ---------------------------------------------------------------- the thread that waits

  function Snt(nodes: seq<Node>, k: nat): nat
    requires k <= |nodes|
  {
    if k == 0 then 0 else Snt(nodes, k - 1) + nodes[k - 1].numSnt
  }

  function Rcv(nodes: seq<Node>, k: nat): nat
    requires k <= |nodes|
  {
    if k == 0 then 0 else Rcv(nodes, k - 1) + nodes[k - 1].numRcv
  }

  predicate SourcesDone(net: Net, s: Sys, k: nat)
    requires k <= |s.nodes|
  {
    forall n | 0 <= n < k && net.IsSource(n) :: s.nodes[n].sentAll
  }

  // What the waiting thread knows: it reads the counters one by one while the others go on.
  predicate MainOk(net: Net, s: Sys) {
    var size := |s.nodes|;
    match s.main
    case Sources(k, src, ok) => k <= size && ok <= src && (ok == src ==> SourcesDone(net, s, k))
    case SumSnt(k, acc) => k <= size && SourcesDone(net, s, size) && acc == Snt(s.nodes, k)
    case SumRcv(k, snt, acc) =>
      k <= size && SourcesDone(net, s, size) && snt == Snt(s.nodes, size) && acc <= Rcv(s.nodes, k)
    case Ended => SourcesDone(net, s, size) && Snt(s.nodes, size) <= Rcv(s.nodes, size)
  }

  // Counters only grow, and a source that has sent all stays so and counts no more.
  predicate Grows(net: Net, s: Sys, s': Sys, n: nat)
    requires n < |s.nodes| && n < |s'.nodes|
  {
    var x, x' := s.nodes[n], s'.nodes[n];
    && x.numRcv <= x'.numRcv && (x.sentAll ==> x'.sentAll)
    && (x.sentAll || !net.IsSource(n) ==> x'.numSnt == x.numSnt)
  }

  lemma {:induction false} StepGrows(net: Net, s: Sys, e: Event, s': Sys)
    requires Steps(net, s, e, s')
    ensures |s'.nodes| == |s.nodes| && forall n | 0 <= n < |s.nodes| :: Grows(net, s, s', n)
  {
    Own(net, s, e.n);
    StepFrame(net, s, e, s');
    assert NodeOk(net, s, e.n);
    assert Grows(net, s, s', e.n);
  }

  lemma {:induction false} SumsGrow(net: Net, s: Sys, s': Sys, k: nat)
    requires k <= |s.nodes| && |s'.nodes| == |s.nodes| && forall n | 0 <= n < |s.nodes| :: Grows(net, s, s', n)
    ensures Rcv(s.nodes, k) <= Rcv(s'.nodes, k)
    ensures SourcesDone(net, s, k) ==> SourcesDone(net, s', k) && Snt(s'.nodes, k) == Snt(s.nodes, k)
  {
    if k > 0 {
      SumsGrow(net, s, s', k - 1);
      assert Grows(net, s, s', k - 1);
    }
    forall n | 0 <= n < k && s.nodes[n].sentAll ensures s'.nodes[n].sentAll { assert Grows(net, s, s', n); }
  }

  lemma {:induction false} MainKept(net: Net, s: Sys, s': Sys)
    requires MainOk(net, s) && s'.main == s.main
    requires |s'.nodes| == |s.nodes| && forall n | 0 <= n < |s.nodes| :: Grows(net, s, s', n)
    ensures MainOk(net, s')
  {
    var size := |s.nodes|;
    SumsGrow(net, s, s', size);
    match s.main
    case Sources(k, _, _) => SumsGrow(net, s, s', k);
    case SumSnt(k, _) => SumsGrow(net, s, s', k);
    case SumRcv(k, _, _) => SumsGrow(net, s, s', k);
    case Ended =>
  }

  lemma {:induction false} WaitsOk(net: Net, s: Sys)
    requires net.Valid() && Inv(net, s) && MainOk(net, s)
    ensures MainOk(net, s.(main := MainStep(net, s)))
  {
  }

  // ---------------------------------------------------------------- all runs

  lemma {:induction false} StartInv(net: Net)
    requires net.Valid() && ClearSight(net)
    ensures AllTame(net, Start(net)) && MainOk(net, Start(net)) && Conserved(Start(net))
  {
    var s := Start(net);
    forall k | 0 <= k < |s.links| ensures LinkOk(net, s, k) && Tame(net, s, k) { assert net.LinkFits(k); }
    forall n | 0 <= n < |s.nodes| ensures NodeOk(net, s, n) { assert net.NodeFits(n); }
    NothingYet(s.nodes, |s.nodes|);
    forall k | 0 <= k < |s.links| ensures HoldsNothing(s.links[k]) {}
    NothingHeld(s.links, |s.links|);
  }

  lemma {:induction false} NothingYet(nodes: seq<Node>, k: nat)
    requires k <= |nodes| && forall n | 0 <= n < k :: nodes[n].issued == [] && nodes[n].delivered == []
    ensures IssuedBy(nodes, k) == multiset{} && DeliveredTo(nodes, k) == multiset{}
  {
    if k > 0 { NothingYet(nodes, k - 1); }
  }

  predicate HoldsNothing(l: Link) { Held(l) == multiset{} }

  lemma {:induction false} NothingHeld(links: seq<Link>, k: nat)
    requires k <= |links| && forall n {:trigger HoldsNothing(links[n])} | 0 <= n < k :: HoldsNothing(links[n])
    ensures HeldBy(links, k) == multiset{}
  {
    if k > 0 {
      NothingHeld(links, k - 1);
      assert HoldsNothing(links[k - 1]);
    }
  }

  lemma {:induction false} HeldByOne(links: seq<Link>, n: nat, k: nat)
    requires n < k <= |links|
    ensures Held(links[n]) <= HeldBy(links, k)
  {
    if n < k - 1 { HeldByOne(links, n, k - 1); }
  }

  lemma {:induction false} NextInv(net: Net, s: Sys, e: Event, s': Sys)
    requires net.Valid() && AllTame(net, s) && MainOk(net, s) && Conserved(s) && Next(net, s, e, s')
    ensures AllTame(net, s') && MainOk(net, s') && Conserved(s')
  {
    if e.Waits? {
      WaitsOk(net, s);
      forall k | 0 <= k < |s.links| ensures LinkOk(net, s', k) && Tame(net, s', k) {
        assert LinkOk(net, s, k) && Tame(net, s, k);
      }
      forall n | 0 <= n < |s.nodes| ensures NodeOk(net, s', n) { assert NodeOk(net, s, n); }
    } else {
      StaysTame(net, s, e, s');
      SameStep(net, s, e, s');
      NextConserved(net, s, e, s');
      StepGrows(net, s, e, s');
      MainStays(net, s, e, s');
      MainKept(net, s, s');
    }
  }

  lemma MainStays(net: Net, s: Sys, e: Event, s': Sys)
    requires net.Valid() && Fits(net, s) && !e.Waits? && e.n < |s.nodes| && NodeNext(net, false, s, e, s')
    ensures s'.main == s.main
  {
  }

  lemma {:induction false} RunInv(net: Net, tr: seq<Sys>, es: seq<Event>, k: nat)
    requires net.Valid() && ClearSight(net) && Run(net, tr, es) && k <= |es|
    ensures AllTame(net, tr[k]) && MainOk(net, tr[k]) && Conserved(tr[k])
    decreases k
  {
    if k == 0 {
      StartInv(net);
    } else {
      RunInv(net, tr, es, k - 1);
      assert Next(net, tr[k - 1], es[k - 1], tr[k]);
      NextInv(net, tr[k - 1], es[k - 1], tr[k]);
    }
  }

  lemma {:induction false} ReachableInv(net: Net, s: Sys)
    requires net.Valid() && ClearSight(net) && Reachable(net, s)
    ensures AllTame(net, s) && MainOk(net, s) && Conserved(s)
  {
    var tr, es :| Run(net, tr, es) && tr[|es|] == s;
    RunInv(net, tr, es, |es|);
  }

  // One more step of a run.
  lemma Onward(net: Net, s: Sys, e: Event, s': Sys)
    requires net.Valid() && Reachable(net, s) && Next(net, s, e, s')
    ensures Reachable(net, s')
  {
    var tr, es :| Run(net, tr, es) && tr[|es|] == s;
    var tr', es' := tr + [s'], es + [e];
    forall i | 0 <= i < |es'| ensures Next(net, tr'[i], es'[i], tr'[i + 1]) {
      if i < |es| { assert Next(net, tr[i], es[i], tr[i + 1]); }
    }
    assert Run(net, tr', es');
  }

  // ---------------------------------------------------------------- consequences

  // A link transfers every message once, in order; a register is written only when what was in
  // it has been read.
  lemma {:induction false} LinkTransfers(net: Net, s: Sys, k: nat)
    requires net.Valid() && ClearSight(net) && Reachable(net, s) && k < |s.links|
    ensures Fits(net, s)
    ensures s.links[k].taken <= s.links[k].sent && |s.links[k].sent| <= |s.links[k].taken| + 1
    ensures net.prod[k] < |s.nodes| && (Opening(s.nodes[net.prod[k]].pc, k) ==> s.links[k].taken == s.links[k].sent)
    ensures net.cons[k] < |s.nodes| &&
      (Reading(s.nodes[net.cons[k]].pc, k) ==> s.links[k].sent == s.links[k].taken + [s.links[k].msg])
  {
    ReachableInv(net, s);
    assert LinkOk(net, s, k) && net.LinkFits(k);
  }

  // Of two links between the same nodes none is ever read: what is sent there never arrives.
  lemma {:induction false} ParallelNeverRead(net: Net, s: Sys, k: nat)
    requires net.Valid() && ClearSight(net) && Reachable(net, s) && k < |s.links| && !net.Lone(k)
    ensures s.links[k].taken == []
  {
    ReachableInv(net, s);
    assert Tame(net, s, k);
  }

  lemma Ports(net: Net, n: nat)
    requires net.Valid() && n < |net.nodes|
    ensures net.NodeFits(n)
    ensures forall j | 0 <= j < |net.nodes[n].ins| :: net.nodes[n].ins[j] < |net.prod|
    ensures forall j | 0 <= j < |net.nodes[n].outs| :: net.nodes[n].outs[j] < |net.prod|
  {
    assert net.NodeFits(n);
    forall j | 0 <= j < |net.nodes[n].ins| ensures net.nodes[n].ins[j] < |net.prod| {
      assert net.nodes[n].ins[j] in net.nodes[n].ins;
    }
    forall j | 0 <= j < |net.nodes[n].outs| ensures net.nodes[n].outs[j] < |net.prod| {
      assert net.nodes[n].outs[j] in net.nodes[n].outs;
    }
  }

  // The messages that the selector of a 1to2 node lets through to out0, or to out1.
  function Chosen(kind: Kind, ms: seq<Msg>, down: bool): seq<Msg>
    requires kind.Split?
  {
    if ms == [] then []
    else
      var m := ms[|ms| - 1];
      Chosen(kind, ms[..|ms| - 1], down) + if Net.Inside(kind, m.dst) == down then [m] else []
  }

  lemma {:induction false} SplitLog(net: Net, n: nat, log: seq<Entry>)
    requires net.Valid() && n < |net.nodes| && net.nodes[n].kind.Split?
    requires |net.nodes[n].ins| == 1 && |net.nodes[n].outs| == 2 && net.nodes[n].outs[0] != net.nodes[n].outs[1]
    requires forall j | 0 <= j < |log| :: EntryOk(net, n, log[j])
    ensures To(log, net.nodes[n].outs[0]) == Chosen(net.nodes[n].kind, From(log, net.nodes[n].ins[0]), true)
    ensures To(log, net.nodes[n].outs[1]) == Chosen(net.nodes[n].kind, From(log, net.nodes[n].ins[0]), false)
  {
    if log != [] {
      var rest, e := log[..|log| - 1], log[|log| - 1];
      SplitLog(net, n, rest);
      assert EntryOk(net, n, e);
      var got := From(rest, net.nodes[n].ins[0]);
      assert (got + [e.m])[..|got|] == got;
    }
  }

  // A 1to2 node sends down what is in its interval and up what is not, each in the order in
  // which it came.
  lemma {:induction false} SplitSends(net: Net, s: Sys, n: nat)
    requires net.Valid() && ClearSight(net) && Reachable(net, s)
    requires n < |s.nodes| && n < |net.nodes| && net.nodes[n].kind.Split?
    ensures net.Arity(n) && net.nodes[n].ins[0] < |s.links|
    ensures net.nodes[n].outs[0] < |s.links| && net.nodes[n].outs[1] < |s.links|
    ensures var d := net.nodes[n];
      var i, o, p, kind := s.links[d.ins[0]], s.links[d.outs[0]], s.links[d.outs[1]], d.kind;
      && o.sent + o.buff == Chosen(kind, i.taken, true)
      && p.sent + p.buff == Chosen(kind, i.taken, false)
  {
    ReachableInv(net, s);
    Ports(net, n);
    assert NodeOk(net, s, n);
    SplitLog(net, n, s.nodes[n].log);
  }

  // `c` has the messages of `a` and of `b`, each in order.
  ghost predicate Merge(c: seq<Msg>, a: seq<Msg>, b: seq<Msg>) {
    if c == [] then a == [] && b == []
    else
      var rest, m := c[..|c| - 1], c[|c| - 1];
      || (a != [] && a[|a| - 1] == m && Merge(rest, a[..|a| - 1], b))
      || (b != [] && b[|b| - 1] == m && Merge(rest, a, b[..|b| - 1]))
  }

  lemma MergeMore(c: seq<Msg>, a: seq<Msg>, b: seq<Msg>, m: Msg)
    requires Merge(c, a, b)
    ensures Merge(c + [m], a + [m], b) && Merge(c + [m], a, b + [m])
  {
    assert (c + [m])[..|c|] == c && (a + [m])[..|a|] == a && (b + [m])[..|b|] == b;
  }

  lemma {:induction false} JoinLog(log: seq<Entry>, i: nat, j: nat, o: nat)
    requires i != j && forall k | 0 <= k < |log| :: (log[k].i == i || log[k].i == j) && log[k].o == o
    ensures Merge(To(log, o), From(log, i), From(log, j))
  {
    if log != [] {
      var rest, e := log[..|log| - 1], log[|log| - 1];
      JoinLog(rest, i, j, o);
      MergeMore(To(rest, o), From(rest, i), From(rest, j), e.m);
      assert From(rest, i) + [] == From(rest, i) && From(rest, j) + [] == From(rest, j);
    }
  }

  // A 2to1 node sends what came from either side, each side in order.
  lemma {:induction false} JoinSends(net: Net, s: Sys, n: nat)
    requires net.Valid() && ClearSight(net) && Reachable(net, s)
    requires n < |s.nodes| && n < |net.nodes| && net.nodes[n].kind.Join?
    ensures net.Arity(n) && net.nodes[n].outs[0] < |s.links|
    ensures net.nodes[n].ins[0] < |s.links| && net.nodes[n].ins[1] < |s.links|
    ensures var d := net.nodes[n];
      var i, j, o := s.links[d.ins[0]], s.links[d.ins[1]], s.links[d.outs[0]];
      Merge(o.sent + o.buff, i.taken, j.taken)
  {
    ReachableInv(net, s);
    Ports(net, n);
    assert NodeOk(net, s, n);
    var log := s.nodes[n].log;
    var i, j, o := net.nodes[n].ins[0], net.nodes[n].ins[1], net.nodes[n].outs[0];
    forall k | 0 <= k < |log| ensures (log[k].i == i || log[k].i == j) && log[k].o == o { assert EntryOk(net, n, log[k]); }
    JoinLog(log, i, j, o);
  }

  // Nothing is lost or doubled: what has been issued has been delivered or is held by a link.
  lemma {:induction false} NothingIsLost(net: Net, s: Sys)
    requires net.Valid() && ClearSight(net) && Reachable(net, s)
    ensures IssuedBy(s.nodes, |s.nodes|) == DeliveredTo(s.nodes, |s.nodes|) + HeldBy(s.links, |s.links|)
    ensures forall k | 0 <= k < |s.links| :: |s.links[k].buff| <= net.cap
  {
    ReachableInv(net, s);
    forall k | 0 <= k < |s.links| ensures |s.links[k].buff| <= net.cap { assert LinkOk(net, s, k); }
  }

  // ---------------------------------------------------------------- the end test

  // No message is on its way.
  predicate AtRest(s: Sys) {
    forall k | 0 <= k < |s.links| :: s.links[k].sent == s.links[k].taken && s.links[k].buff == []
  }

  lemma {:induction false} Counts(net: Net, s: Sys, k: nat)
    requires net.Valid() && Inv(net, s) && k <= |s.nodes| && SourcesDone(net, s, |s.nodes|)
    ensures |IssuedBy(s.nodes, k)| == Snt(s.nodes, k)
    ensures |DeliveredTo(s.nodes, k)| == Rcv(s.nodes, k)
  {
    if k > 0 {
      Counts(net, s, k - 1);
      assert NodeOk(net, s, k - 1);
    }
  }

  lemma {:induction false} RestMeansNothingHeld(net: Net, s: Sys)
    requires net.Valid() && Inv(net, s)
    ensures AtRest(s) <==> HeldBy(s.links, |s.links|) == multiset{}
  {
    forall k | 0 <= k < |s.links|
      ensures HoldsNothing(s.links[k]) <==> s.links[k].sent == s.links[k].taken && s.links[k].buff == []
      ensures Held(s.links[k]) <= HeldBy(s.links, |s.links|)
    {
      assert LinkOk(net, s, k);
      HeldNothing(s.links[k]);
      HeldByOne(s.links, k, |s.links|);
    }
    if AtRest(s) { NothingHeld(s.links, |s.links|); }
    if HeldBy(s.links, |s.links|) == multiset{} {
      forall k | 0 <= k < |s.links| ensures s.links[k].sent == s.links[k].taken && s.links[k].buff == [] {
        assert HoldsNothing(s.links[k]);
      }
    }
  }

  lemma HeldNothing(l: Link)
    requires l.sent == l.taken || l.sent == l.taken + [l.msg]
    ensures HoldsNothing(l) <==> l.sent == l.taken && l.buff == []
  {
    if l.sent == l.taken + [l.msg] { assert l.msg in Held(l); }
    if l.buff != [] { assert l.buff[0] in Held(l); }
  }

  // Once all sources have sent all, the counts agree just when no message is on its way.
  lemma {:induction false} CountsAgreeAtRest(net: Net, s: Sys)
    requires net.Valid() && ClearSight(net) && Reachable(net, s) && (s.main.SumRcv? || s.main.Ended?)
    ensures Rcv(s.nodes, |s.nodes|) <= Snt(s.nodes, |s.nodes|)
    ensures s.main.SumRcv? ==> s.main.snt == Snt(s.nodes, |s.nodes|)
    ensures Rcv(s.nodes, |s.nodes|) == Snt(s.nodes, |s.nodes|) <==> AtRest(s)
  {
    ReachableInv(net, s);
    Counts(net, s, |s.nodes|);
    RestMeansNothingHeld(net, s);
  }

  // When the waiting thread has ended, every message has arrived and none will follow, although
  // it read the counters one by one.
  lemma {:induction false} EndTestIsSound(net: Net, s: Sys)
    requires net.Valid() && ClearSight(net) && Reachable(net, s) && s.main.Ended?
    ensures AtRest(s) && IssuedBy(s.nodes, |s.nodes|) == DeliveredTo(s.nodes, |s.nodes|)
    ensures forall n | 0 <= n < |s.nodes| && net.IsSource(n) :: s.nodes[n].sentAll
  {
    ReachableInv(net, s);
    CountsAgreeAtRest(net, s);
    RestMeansNothingHeld(net, s);
  }
}
