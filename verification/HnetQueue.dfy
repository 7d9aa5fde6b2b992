/**
  The message queue inside a node of the simulated network (hmsg_queue in hgen_net.h): a ring of
  message slots with a busy flag each. Nothing but the flags tells a full ring from an empty one.
 */
module HnetQueue {
  import opened Options

  datatype Msg = Msg(val: nat, sra: int, src: int, dst: int)

  datatype Slot = Slot(busy: bool, msg: Msg)

  // The place `j` steps after `p` in a ring of `n`.
  function Around(p: nat, j: nat, n: nat): (r: nat)
    requires p < n && j <= n
    ensures r < n
  {
    if p + j < n then p + j else p + j - n
  }

  lemma AroundStep(p: nat, j: nat, n: nat)
    requires p < n && j < n
    ensures Around(Around(p, 1, n), j, n) == Around(p, j + 1, n)
  {
  }

  class MsgQueue {
    var slots: array<Slot>
    var hd: nat
    var tl: nat
    ghost var contents: seq<Msg>

    // `contents` are the busy slots, from the tail on; the other slots are free.
    ghost predicate Valid()
      reads this, slots
    {
      var n := slots.Length;
      && hd < n && tl < n && |contents| <= n
      && hd == Around(tl, |contents|, n)
      && (forall j {:trigger contents[j]} | 0 <= j < |contents| :: slots[Around(tl, j, n)] == Slot(true, contents[j]))
      && (forall j {:trigger Around(tl, j, n)} | |contents| <= j < n :: !slots[Around(tl, j, n)].busy)
    }

    constructor (n: nat)
      requires n > 0
      ensures Valid() && contents == [] && slots.Length == n && fresh(slots)
    {
      slots := new Slot[n](_ => Slot(false, Msg(0, -1, -1, -1)));
      hd := 0;
      tl := 0;
      contents := [];
    }

    method NxtPos(pos: nat) returns (r: nat)
      requires pos < slots.Length
      ensures r == Around(pos, 1, slots.Length)
    {
      r := pos + 1;
      if r == slots.Length { r := 0; }
    }

    // run_head_queue_simu: the message is taken (and `ack` is to be set) unless the ring is full.
    method RunHead(m: Msg) returns (ack: bool)
      requires Valid()
      modifies this, slots
      ensures Valid() && slots == old(slots)
      ensures ack == (|old(contents)| < slots.Length)
      ensures contents == if ack then old(contents) + [m] else old(contents)
    {
      ack := false;
      if !slots[hd].busy {
        FullWhenBusy();
        var h := hd;
        slots[h] := slots[h].(busy := true);
        hd := NxtPos(hd);
        slots[h] := slots[h].(msg := m);
        ack := true;
        contents := contents + [m];
        forall j | 0 <= j < |contents| - 1 ensures slots[Around(tl, j, slots.Length)] == Slot(true, contents[j]) {
          assert old(contents)[j] == contents[j];
        }
      } else {
        FullWhenBusy();
      }
    }

    // run_tail_queue_simu: the oldest message goes out when the ring has one and the link is free.
    method RunTail(ready: bool) returns (out: Option<Msg>)
      requires Valid()
      modifies this, slots
      ensures Valid() && slots == old(slots)
      ensures out.Some? <==> ready && old(contents) != []
      ensures out.Some? ==> old(contents) == [out.value] + contents
      ensures out.None? ==> contents == old(contents)
    {
      out := None;
      EmptyWhenFree();
      if slots[tl].busy {
        if ready {
          var t := tl;
          assert slots[t] == Slot(true, contents[0]);
          slots[t] := slots[t].(busy := false);
          tl := NxtPos(tl);
          out := Some(slots[t].msg);
          contents := contents[1..];
          var n := slots.Length;
          forall j | 0 <= j < |contents| ensures slots[Around(tl, j, n)] == Slot(true, contents[j]) {
            AroundStep(t, j, n);
            assert old(contents)[j + 1] == contents[j];
          }
          forall j | |contents| <= j < n ensures !slots[Around(tl, j, n)].busy {
            if j + 1 < n { AroundStep(t, j, n); assert Around(t, j + 1, n) != t; }
          }
        }
      }
    }

    // The slot at the head is busy just when the ring is full.
    lemma FullWhenBusy()
      requires Valid()
      ensures slots[hd].busy <==> |contents| == slots.Length
    {
      if |contents| == slots.Length {
        assert slots[Around(tl, 0, slots.Length)] == Slot(true, contents[0]);
      }
    }

    // The slot at the tail is free just when the ring is empty.
    lemma EmptyWhenFree()
      requires Valid()
      ensures slots[tl].busy <==> contents != []
    {
      assert Around(tl, 0, slots.Length) == tl;
      if contents != [] { assert slots[Around(tl, 0, slots.Length)] == Slot(true, contents[0]); }
    }
  }
}
