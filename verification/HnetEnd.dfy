/** When the waiting thread ends. */
module HnetEnd {
  import opened HnetQueue
  import opened HnetNodes
  import opened HnetSight
  import opened HnetRuns

  // wait_all_threads_ended_simu ends if and only if all sources have sent all and no message is on
  // its way: the loop over the sources comes to its end, the two sums are taken over all targets,
  // and the test of the sums succeeds.

  // The waiting thread alone takes `n` steps.
  function Waited(net: Net, s: Sys, n: nat): (r: Sys)
    requires Fits(net, s)
    ensures r.nodes == s.nodes && r.links == s.links
    decreases n
  {
    if n == 0 then s else Waited(net, s.(main := MainStep(net, s)), n - 1)
  }

  lemma {:induction false} WaitedTwice(net: Net, s: Sys, n: nat, k: nat)
    requires Fits(net, s)
    ensures Waited(net, s, n + k) == Waited(net, Waited(net, s, n), k)
    decreases n
  {
    if n > 0 { WaitedTwice(net, s.(main := MainStep(net, s)), n - 1, k); }
  }

  lemma {:induction false} WaitedReachable(net: Net, s: Sys, n: nat)
    requires net.Valid() && Fits(net, s) && Reachable(net, s)
    ensures Reachable(net, Waited(net, s, n))
    decreases n
  {
    if n > 0 {
      var s' := s.(main := MainStep(net, s));
      Onward(net, s, Waits, s');
      WaitedReachable(net, s', n - 1);
    }
  }

  // ---------------------------------------------------------------- the three loops

  // How many of the first `k` targets are sources.
  function SourcesAmong(net: Net, k: nat): nat {
    if k == 0 then 0 else SourcesAmong(net, k - 1) + B(net.IsSource(k - 1))
  }

  // One round over the sources, from target `k` on.
  lemma {:induction false} SourcesRound(net: Net, s: Sys, k: nat)
    requires Fits(net, s) && SourcesDone(net, s, |s.nodes|) && k <= |s.nodes|
    requires s.main == Sources(k, SourcesAmong(net, k), SourcesAmong(net, k))
    ensures Waited(net, s, |s.nodes| - k + 1).main == SumSnt(0, 0)
    decreases |s.nodes| - k
  {
    if k < |s.nodes| { SourcesRound(net, s.(main := MainStep(net, s)), k + 1); }
  }

  // A round that was begun earlier, when not all were done.
  lemma {:induction false} SourcesLeft(net: Net, s: Sys, k: nat, src: nat, ok: nat)
    requires Fits(net, s) && k <= |s.nodes| && s.main == Sources(k, src, ok)
    ensures var m := Waited(net, s, |s.nodes| - k + 1).main; m == SumSnt(0, 0) || m == Sources(0, 0, 0)
    decreases |s.nodes| - k
  {
    if k < |s.nodes| {
      SourcesLeft(net, s.(main := MainStep(net, s)), k + 1, src + B(net.IsSource(k)),
                  ok + B(net.IsSource(k) && s.nodes[k].sentAll));
    }
  }

  lemma {:induction false} SntRound(net: Net, s: Sys, k: nat)
    requires Fits(net, s) && k <= |s.nodes| && s.main == SumSnt(k, Snt(s.nodes, k))
    ensures Waited(net, s, |s.nodes| - k + 1).main == SumRcv(0, Snt(s.nodes, |s.nodes|), 0)
    decreases |s.nodes| - k
  {
    if k < |s.nodes| { SntRound(net, s.(main := MainStep(net, s)), k + 1); }
  }

  // One round over the counts of what was received.
  lemma {:induction false} RcvRound(net: Net, s: Sys, k: nat, snt: nat)
    requires Fits(net, s) && k <= |s.nodes| && s.main == SumRcv(k, snt, Rcv(s.nodes, k))
    ensures Waited(net, s, |s.nodes| - k + 1).main ==
              if Rcv(s.nodes, |s.nodes|) == snt then Ended else SumRcv(0, snt, 0)
    decreases |s.nodes| - k
  {
    if k < |s.nodes| { RcvRound(net, s.(main := MainStep(net, s)), k + 1, snt); }
  }

  lemma {:induction false} RcvLeft(net: Net, s: Sys, k: nat, snt: nat, acc: nat)
    requires Fits(net, s) && k <= |s.nodes| && s.main == SumRcv(k, snt, acc)
    ensures var m := Waited(net, s, |s.nodes| - k + 1).main; m == Ended || m == SumRcv(0, snt, 0)
    decreases |s.nodes| - k
  {
    if k < |s.nodes| { RcvLeft(net, s.(main := MainStep(net, s)), k + 1, snt, acc + s.nodes[k].numRcv); }
  }

  lemma {:induction false} StaysEnded(net: Net, s: Sys, n: nat)
    requires Fits(net, s) && s.main.Ended?
    ensures Waited(net, s, n).main.Ended?
    decreases n
  {
    if n > 0 { StaysEnded(net, s.(main := MainStep(net, s)), n - 1); }
  }

  // ---------------------------------------------------------------- the end test is exact

  // From the start of the round over what was received, once nothing is on its way.
  lemma {:induction false} RestEnds(net: Net, s: Sys)
    requires net.Valid() && ClearSight(net) && Reachable(net, s) && Fits(net, s) && AtRest(s)
    requires s.main.SumRcv? && s.main.k == 0 && s.main.acc == 0
    ensures Waited(net, s, |s.nodes| + 1).main.Ended?
  {
    CountsAgreeAtRest(net, s);
    RcvRound(net, s, 0, s.main.snt);
  }

  // From the start of the round over the sources, once all have sent all.
  lemma {:induction false} DoneCounts(net: Net, s: Sys)
    requires Fits(net, s) && SourcesDone(net, s, |s.nodes|) && s.main == Sources(0, 0, 0)
    ensures Waited(net, s, |s.nodes| + 1).main == SumSnt(0, 0)
    ensures Waited(net, s, 2 * (|s.nodes| + 1)).main == SumRcv(0, Snt(s.nodes, |s.nodes|), 0)
  {
    SourcesRound(net, s, 0);
    SntRound(net, Waited(net, s, |s.nodes| + 1), 0);
    WaitedTwice(net, s, |s.nodes| + 1, |s.nodes| + 1);
  }

  // From anywhere in the three loops: the rest of a round, and then at most one round of each.
  lemma {:induction false} ComesToEnd(net: Net, s: Sys) returns (n: nat)
    requires net.Valid() && ClearSight(net) && Reachable(net, s) && Fits(net, s)
    requires AtRest(s) && SourcesDone(net, s, |s.nodes|)
    ensures n <= 4 * (|s.nodes| + 1) && Waited(net, s, n).main.Ended?
  {
    ReachableInv(net, s);
    match s.main
    case Ended => n := 0;
    case SumRcv(k, snt, acc) => n := CountsRcv(net, s);
    case SumSnt(k, acc) => n := CountsSnt(net, s);
    case Sources(k, src, ok) =>
      var n1 := |s.nodes| - k + 1;
      SourcesLeft(net, s, k, src, ok);
      var s1 := Waited(net, s, n1);
      if s1.main.Sources? {
        DoneCounts(net, s1);
        WaitedTwice(net, s, n1, |s.nodes| + 1);
        n1 := n1 + (|s.nodes| + 1);
      }
      WaitedReachable(net, s, n1);
      var n2 := CountsSnt(net, Waited(net, s, n1));
      WaitedTwice(net, s, n1, n2);
      n := n1 + n2;
  }

  lemma {:induction false} CountsRcv(net: Net, s: Sys) returns (n: nat)
    requires net.Valid() && ClearSight(net) && Reachable(net, s) && Fits(net, s) && AtRest(s)
    requires s.main.SumRcv? && s.main.k <= |s.nodes|
    ensures n <= 2 * (|s.nodes| + 1) && Waited(net, s, n).main.Ended?
  {
    n := |s.nodes| - s.main.k + 1;
    RcvLeft(net, s, s.main.k, s.main.snt, s.main.acc);
    var s1 := Waited(net, s, n);
    if !s1.main.Ended? {
      WaitedReachable(net, s, n);
      RestEnds(net, s1);
      WaitedTwice(net, s, n, |s.nodes| + 1);
      n := n + (|s.nodes| + 1);
    }
  }

  lemma {:induction false} CountsSnt(net: Net, s: Sys) returns (n: nat)
    requires net.Valid() && ClearSight(net) && Reachable(net, s) && Fits(net, s) && AtRest(s) && s.main.SumSnt?
    ensures n <= 2 * (|s.nodes| + 1) && Waited(net, s, n).main.Ended?
  {
    ReachableInv(net, s);
    var n1 := |s.nodes| - s.main.k + 1;
    SntRound(net, s, s.main.k);
    WaitedReachable(net, s, n1);
    RestEnds(net, Waited(net, s, n1));
    WaitedTwice(net, s, n1, |s.nodes| + 1);
    n := n1 + (|s.nodes| + 1);
  }

  // In every reachable state: left alone, the waiting thread ends if and only if all sources have
  // sent all and no message is on its way; and then after four rounds at the latest.
  lemma {:induction false} EndTestIsExact(net: Net, s: Sys)
    requires net.Valid() && ClearSight(net) && Reachable(net, s) && Fits(net, s)
    ensures (exists n :: Waited(net, s, n).main.Ended?) <==> AtRest(s) && SourcesDone(net, s, |s.nodes|)
    ensures AtRest(s) && SourcesDone(net, s, |s.nodes|) ==> Waited(net, s, 4 * (|s.nodes| + 1)).main.Ended?
  {
    if AtRest(s) && SourcesDone(net, s, |s.nodes|) {
      var n := ComesToEnd(net, s);
      StaysEnded(net, Waited(net, s, n), 4 * (|s.nodes| + 1) - n);
      WaitedTwice(net, s, n, 4 * (|s.nodes| + 1) - n);
    }
    if n :| Waited(net, s, n).main.Ended? {
      WaitedReachable(net, s, n);
      EndTestIsSound(net, Waited(net, s, n));
    }
  }
}
