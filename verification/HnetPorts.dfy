/** The ports of the simulated nodes. */
module HnetPorts {
  import opened Options
  import opened HnetNodes
  import opened HnetSight

  // How the nodes of the simulated network find the flags of their neighbours, and how a 2to1
  // node chooses between its two inputs.

  // ---------------------------------------------------------------- ireq and oack

  // Every thread reads the flags of its own links exactly when no two links are parallel.
  lemma FlagsAreOwn(net: Net)
    requires net.Valid()
    ensures (forall k | 0 <= k < |net.prod| :: net.Lone(k)) <==>
      forall k {:trigger net.ReqOf(k)} | 0 <= k < |net.prod| :: net.ReqOf(k) == k && net.AckOf(k) == k
  {
    forall k | 0 <= k < |net.prod| && net.Lone(k) ensures net.ReqOf(k) == k && net.AckOf(k) == k { LoneReads(net, k); }
    if k: nat :| k < |net.prod| && !net.Lone(k) {
      var l: nat :| net.Parallel(k, l);
      SameRead(net, k, l);
    }
  }

  lemma SameRead(net: Net, k: nat, l: nat)
    requires net.Valid() && net.Parallel(k, l)
    ensures net.ReqOf(k) == net.ReqOf(l) && net.AckOf(k) == net.AckOf(l)
  {
    assert net.LinkFits(k) && net.LinkFits(l) && net.NodeFits(net.prod[k]) && net.NodeFits(net.cons[k]);
  }

  // ---------------------------------------------------------------- the choice of a 2to1 node

  // What the node finds in one turn of its loop: requests on in0 and in1, and room for a message.
  datatype Turn = Turn(rq0: bool, rq1: bool, room: bool)

  // The input that is served, and choose0 afterwards.
  datatype Choice = Choice(served: Option<nat>, choose0: bool)

  // run_2to1_simu: nothing happens without room.
  function Choose(choose0: bool, t: Turn): Choice {
    if !t.room then Choice(None, choose0)
    else if t.rq0 && t.rq1 then Choice(Some(if choose0 then 0 else 1), !choose0)
    else Choice(if t.rq0 then Some(0) else if t.rq1 then Some(1) else None, choose0)
  }

  // run_2to1_buff_simu: choose0 is turned over before the queue is asked for room.
  function ChooseQueued(choose0: bool, t: Turn): Choice {
    if t.rq0 && t.rq1 then Choice(if t.room then Some(if choose0 then 0 else 1) else None, !choose0)
    else Choice(if t.room && t.rq0 then Some(0) else if t.room && t.rq1 then Some(1) else None, choose0)
  }

  predicate Serves(queued: bool, choose0: bool, ts: seq<Turn>, i: nat)
    decreases ts
  {
    if ts == [] then false
    else
      var c := if queued then ChooseQueued(choose0, ts[0]) else Choose(choose0, ts[0]);
      c.served == Some(i) || Serves(queued, c.choose0, ts[1..], i)
  }

  function Rooms(ts: seq<Turn>): nat {
    if ts == [] then 0 else (if ts[0].room then 1 else 0) + Rooms(ts[1..])
  }

  predicate AllAsk(ts: seq<Turn>, i: nat) {
    forall k | 0 <= k < |ts| :: if i == 0 then ts[k].rq0 else ts[k].rq1
  }

  // Without queues an input that keeps asking waits for the other at most once: it is served
  // within two turns that have room, and within one if it is its turn.
  lemma {:induction false} ServedInTwo(choose0: bool, ts: seq<Turn>, i: nat)
    requires i < 2 && AllAsk(ts, i) && Rooms(ts) >= (if choose0 == (i == 0) then 1 else 2)
    ensures Serves(false, choose0, ts, i)
    decreases ts
  {
    assert if i == 0 then ts[0].rq0 else ts[0].rq1;
    var c := Choose(choose0, ts[0]);
    if c.served != Some(i) {
      assert forall k | 0 <= k < |ts[1..]| :: ts[1..][k] == ts[k + 1];
      ServedInTwo(c.choose0, ts[1..], i);
    }
  }

  // With queues that is not so. When both inputs keep asking, in1 is served exactly if there
  // is room in a turn that is its own, and choose0 has made every second turn its own.
  lemma {:induction false} ServedInOwnTurn(choose0: bool, ts: seq<Turn>)
    requires AllAsk(ts, 0) && AllAsk(ts, 1)
    ensures Serves(true, choose0, ts, 1) <==> exists k :: 0 <= k < |ts| && ts[k].room && k % 2 == (if choose0 then 1 else 0)
    decreases ts
  {
    if ts != [] {
      assert ts[0].rq0 && ts[0].rq1;
      var rest := ts[1..];
      assert forall k | 0 <= k < |rest| :: rest[k] == ts[k + 1];
      ServedInOwnTurn(!choose0, rest);
      forall k | 0 <= k < |rest| && rest[k].room && k % 2 == (if !choose0 then 1 else 0)
        ensures ts[k + 1].room && (k + 1) % 2 == (if choose0 then 1 else 0) {}
      forall k | 0 < k < |ts| && ts[k].room && k % 2 == (if choose0 then 1 else 0)
        ensures rest[k - 1].room && (k - 1) % 2 == (if !choose0 then 1 else 0) {}
    }
  }

  // So in1 may starve although half of all turns have room.
  lemma {:induction false} QueuedMayStarve(n: nat)
    ensures exists ts: seq<Turn> ::
      |ts| == 2 * n && AllAsk(ts, 0) && AllAsk(ts, 1) && Rooms(ts) == n && !Serves(true, true, ts, 1)
  {
    var ts := seq(2 * n, k => Turn(true, true, k % 2 == 0));
    EverySecond(ts, 0);
    ServedInOwnTurn(true, ts);
  }

  lemma {:induction false} EverySecond(ts: seq<Turn>, p: nat)
    requires p < 2 && forall k | 0 <= k < |ts| :: ts[k].room == (k % 2 == p)
    ensures Rooms(ts) == (|ts| + 1 - p) / 2
  {
    if ts != [] {
      assert forall k | 0 <= k < |ts[1..]| :: ts[1..][k] == ts[k + 1];
      EverySecond(ts[1..], 1 - p);
    }
  }
}
