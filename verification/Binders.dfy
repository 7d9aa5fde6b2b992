/**
  The circular doubly linked lists of binder.hh. Every queue of a kernel is such a ring: the grip
  of the queue, and then its members from first to last.
 */
module Binders {
  function After(i: nat, n: nat): (r: nat)
    requires i < n
    ensures r < n
  {
    if i + 1 == n then 0 else i + 1
  }

  // Where two neighbours refer to each other.
  ghost predicate Linked(a: Binder, b: Binder)
    reads a, b
  {
    a.right == b && b.left == a
  }

  predicate NoneTwice(bs: seq<Binder>) { forall i, j | 0 <= i < j < |bs| :: bs[i] != bs[j] }

  // Two lists without a common binder.
  predicate Disjoint(bs: seq<Binder>, gs: seq<Binder>) { forall i, j | 0 <= i < |bs| && 0 <= j < |gs| :: bs[i] != gs[j] }

  // The binders of `bs` form a ring, in this order.
  ghost predicate Ring(bs: seq<Binder>)
    reads bs
  {
    && bs != [] && NoneTwice(bs)
    && forall i {:trigger LinkAt(bs, i)} | 0 <= i < |bs| :: LinkAt(bs, i)
  }

  ghost predicate LinkAt(bs: seq<Binder>, i: nat)
    requires i < |bs|
    reads bs
  {
    Linked(bs[i], bs[After(i, |bs|)])
  }

  ghost predicate Alone(b: Binder)
    reads b
  {
    b.left == b && b.right == b
  }

  function Without(bs: seq<Binder>, k: nat): seq<Binder>
    requires k < |bs|
  {
    bs[..k] + bs[k + 1..]
  }

  // Two places of a ring are different binders.
  lemma Apart(bs: seq<Binder>, i: nat, j: nat)
    requires NoneTwice(bs) && i < |bs| && j < |bs| && i != j
    ensures bs[i] != bs[j]
  {
  }

  // A ring may be read from any of its members on.
  lemma {:induction false} Turned(bs: seq<Binder>, k: nat)
    requires Ring(bs) && k < |bs|
    ensures Ring(bs[k..] + bs[..k])
  {
    var cs, n := bs[k..] + bs[..k], |bs|;
    forall i | 0 <= i < n ensures LinkAt(cs, i) {
      var j := if i + k < n then i + k else i + k - n;
      assert LinkAt(bs, j) && cs[i] == bs[j] && cs[After(i, n)] == bs[After(j, n)];
    }
  }

  class Binder {
    var left: Binder
    var right: Binder

    // init_binder
    constructor ()
      ensures Alone(this)
    {
      left := this;
      right := this;
    }

    method IsAlone(ghost bs: seq<Binder>) returns (r: bool)
      requires Ring(bs) && bs[0] == this
      ensures r <==> |bs| == 1
    {
      assert LinkAt(bs, 0) && LinkAt(bs, |bs| - 1);
      r := left == this && right == this;
    }

    // is_single: one member besides the grip.
    method IsSingle(ghost bs: seq<Binder>) returns (r: bool)
      requires Ring(bs) && bs[0] == this
      ensures r <==> |bs| == 2
    {
      var alone := IsAlone(bs);
      assert LinkAt(bs, 0) && LinkAt(bs, |bs| - 1);
      r := !alone && left == right;
    }

    // A binder leaves its ring; the others close up.
    method LetGo(ghost bs: seq<Binder>, ghost k: nat)
      requires Ring(bs) && k < |bs| && bs[k] == this
      modifies this, left, right
      ensures Alone(this)
      ensures |bs| > 1 ==> Ring(Without(bs, k))
    {
      ghost var n, cs := |bs|, Without(bs, k);
      ghost var p := if k == 0 then n - 1 else k - 1;
      assert LinkAt(bs, p) && LinkAt(bs, k) && bs[After(p, n)] == this;
      left.right := right;
      right.left := left;
      left := this;
      right := this;
      if n > 1 {
        forall i | 0 <= i < |cs| ensures LinkAt(cs, i) {
          var j := if i < k then i else i + 1;
          assert old(LinkAt(bs, j)) && cs[i] == bs[j];
          if j != p {
            Apart(bs, j, p);
            assert cs[After(i, |cs|)] == bs[After(j, n)];
          } else {
            assert cs[After(i, |cs|)] == bs[After(k, n)];
          }
        }
      }
    }

    // bind_to_my_left, on the grip: a new last member.
    method BindToMyLeft(b: Binder, ghost bs: seq<Binder>)
      requires Ring(bs) && bs[0] == this && Alone(b) && b !in bs
      modifies this, left, b
      ensures Ring(bs + [b])
    {
      ghost var n, cs := |bs|, bs + [b];
      assert LinkAt(bs, n - 1);
      b.left := left;
      b.right := this;
      left.right := b;
      left := b;
      forall i | 0 <= i < |cs| ensures LinkAt(cs, i) {
        if i < n - 1 {
          assert old(LinkAt(bs, i)) && cs[i] == bs[i] && cs[i + 1] == bs[i + 1];
          Apart(bs, i, n - 1);
          Apart(bs, i + 1, 0);
        }
      }
    }

    // bind_to_my_right, on the grip: a new first member.
    method BindToMyRight(b: Binder, ghost bs: seq<Binder>)
      requires Ring(bs) && bs[0] == this && Alone(b) && b !in bs
      modifies this, right, b
      ensures Ring([this, b] + bs[1..])
    {
      ghost var n, cs := |bs|, [this, b] + bs[1..];
      assert LinkAt(bs, 0);
      b.right := right;
      b.left := this;
      right.left := b;
      right := b;
      forall i | 0 <= i < |cs| ensures LinkAt(cs, i) {
        if i > 1 { assert old(LinkAt(bs, i - 1)) && cs[i] == bs[i - 1]; Apart(bs, i - 1, 0); }
      }
    }

    // move_all_to_my_left: the members of another queue go behind the members of this one.
    method MoveAllToMyLeft(grp: Binder, ghost bs: seq<Binder>, ghost gs: seq<Binder>)
      requires Ring(bs) && bs[0] == this && Ring(gs) && gs[0] == grp && Disjoint(bs, gs)
      modifies this, left, grp, grp.left, grp.right
      ensures Alone(grp) && Ring(bs + gs[1..])
    {
      ghost var n, m, cs := |bs|, |gs|, bs + gs[1..];
      assert LinkAt(bs, n - 1) && LinkAt(gs, m - 1) && LinkAt(gs, 0);
      var alone := grp.IsAlone(gs);
      if alone {
        assert cs == bs;
        return;
      }
      var newLft := grp.left;
      var newMid := grp.right;
      var oldLft := left;
      grp.right := grp;
      grp.left := grp;
      left := newLft;
      left.right := this;
      newMid.left := oldLft;
      newMid.left.right := newMid;
      forall i | 0 <= i < |cs| ensures LinkAt(cs, i) {
        if i < n - 1 {
          assert old(LinkAt(bs, i)) && cs[i] == bs[i] && cs[i + 1] == bs[i + 1];
        } else if i >= n {
          assert old(LinkAt(gs, i - n + 1)) && cs[i] == gs[i - n + 1];
        }
      }
    }

    // move_all_to_my_right: the members of another queue go before the members of this one.
    method MoveAllToMyRight(grp: Binder, ghost bs: seq<Binder>, ghost gs: seq<Binder>)
      requires Ring(bs) && bs[0] == this && Ring(gs) && gs[0] == grp && Disjoint(bs, gs)
      modifies this, right, grp, grp.left, grp.right
      ensures Alone(grp) && Ring([this] + gs[1..] + bs[1..])
    {
      ghost var n, m, cs := |bs|, |gs|, [this] + gs[1..] + bs[1..];
      assert LinkAt(bs, 0) && LinkAt(gs, m - 1) && LinkAt(gs, 0);
      var alone := grp.IsAlone(gs);
      if alone {
        assert cs == bs;
        return;
      }
      var newRgt := grp.right;
      var newMid := grp.left;
      var oldRgt := right;
      grp.right := grp;
      grp.left := grp;
      right := newRgt;
      right.left := this;
      newMid.right := oldRgt;
      newMid.right.left := newMid;
      forall i | 0 <= i < |cs| ensures LinkAt(cs, i) {
        if 0 < i < m - 1 {
          assert old(LinkAt(gs, i)) && cs[i] == gs[i] && cs[i + 1] == gs[i + 1];
        } else if i >= m {
          assert old(LinkAt(bs, i - m + 1)) && cs[i] == bs[i - m + 1];
        }
      }
    }

    // let_all_go: every member leaves.
    method LetAllGo(ghost bs: seq<Binder>)
      requires Ring(bs) && bs[0] == this
      modifies bs
      ensures forall b | b in bs :: Alone(b)
    {
      ghost var cs := bs;
      var alone := IsAlone(cs);
      while !alone
        invariant Ring(cs) && cs[0] == this && (alone <==> |cs| == 1)
        invariant forall b | b in cs :: b in bs
        invariant forall b | b in bs && b !in cs :: Alone(b)
        decreases |cs|
      {
        assert LinkAt(cs, 0);
        ghost var ds := Without(cs, 1);
        assert LinkAt(cs, 1) && right == cs[1] && this in bs && right in bs && right.right in bs;
        right.LetGo(cs, 1);
        assert forall d | d in cs && d !in ds :: d == cs[1];
        cs := ds;
        alone := IsAlone(cs);
      }
      assert LinkAt(cs, 0);
    }
  }
}
