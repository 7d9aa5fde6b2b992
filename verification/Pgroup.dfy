/**
  pgroup.cpp and preload_pgroup.cpp: a binary tree of items grows one item at a time. The
  place of the next item is found from the last one by following pointers only.
 */
module Pgroup {
  // ---------------------------------------------------------------- numbers of items

  // The rightmost and the leftmost item `j` levels below item `k`.
  function Rightmost(k: nat, j: nat): nat { if j == 0 then k else 2 * Rightmost(k, j - 1) + 2 }
  function Leftmost(k: nat, j: nat): nat { if j == 0 then k else 2 * Leftmost(k, j - 1) + 1 }

  // One step down first, or last.
  lemma {:induction false} RightmostFirst(k: nat, j: nat)
    ensures Rightmost(2 * k + 2, j) == Rightmost(k, j + 1)
    decreases j
  {
    if j > 0 { RightmostFirst(k, j - 1); }
  }

  // Level order: the leftmost item under `k + 1` follows the rightmost one under `k`.
  lemma {:induction false} NextOnLevel(k: nat, j: nat)
    ensures Leftmost(k + 1, j) == Rightmost(k, j) + 1
    decreases j
  {
    if j > 0 { NextOnLevel(k, j - 1); }
  }

  lemma {:induction false} LevelsGrow(k: nat, i: nat, j: nat)
    requires i <= j
    ensures Leftmost(k, i) + (j - i) <= Leftmost(k, j)
    decreases j
  {
    if i < j { LevelsGrow(k, i, j - 1); }
  }

  lemma {:induction false} DeepAreLate(k: nat, j: nat)
    ensures Rightmost(k, j) >= k + j
    ensures Rightmost(k, j) + 2 >= Pow2(j)
    ensures j > 0 ==> Rightmost(k, j) >= 2 * k + 2
    decreases j
  {
    if j > 0 { DeepAreLate(k, j - 1); }
  }

  function Pow2(j: nat): nat { if j == 0 then 1 else 2 * Pow2(j - 1) }

  // The root is leftmost and rightmost of its level.
  lemma {:induction false} PerfectTree(j: nat)
    ensures Leftmost(0, j + 1) == Rightmost(0, j) + 1
    decreases j
  {
    if j > 0 { PerfectTree(j - 1); }
  }

  // ---------------------------------------------------------------- the tree

  // A null parent stands for the group: only the first item has it.
  class Item {
    var pnt: Item?
    var lft: Item?
    var rgt: Item?

    constructor ()
      ensures pnt == null && lft == null && rgt == null
    {
      pnt, lft, rgt := null, null, null;
    }
  }

  class Group {
    var fst: Item?
    var lst: Item?
    ghost var items: seq<Item>  // in the order in which they were added

    // The item with a number, or null.
    ghost function ItemAt(k: nat): Item?
      reads this
    {
      if k < |items| then items[k] else null
    }

    // Item `k` is linked as in a complete binary tree in level order.
    ghost predicate LinkedAt(k: nat)
      requires k < |items|
      reads this, items
    {
      && items[k].lft == ItemAt(2 * k + 1)
      && items[k].rgt == ItemAt(2 * k + 2)
      && (k == 0 ==> items[k].pnt == null)
      && (k > 0 ==> items[k].pnt == items[(k - 1) / 2])
    }

    ghost predicate Valid()
      reads this, items
    {
      && (forall i, j | 0 <= i < j < |items| :: items[i] != items[j])
      && (forall k {:trigger LinkedAt(k)} | 0 <= k < |items| :: LinkedAt(k))
      && fst == ItemAt(0)
      && (items == [] ==> lst == null)
      && (items != [] ==> lst == items[|items| - 1])
    }

    constructor ()
      ensures Valid() && items == []
    {
      fst, lst, items := null, null, [];
    }

    // create_get_pnt_of_nxt_add, from the last item: the parent that the next item will have.
    // It follows at most two pointers for every level of the tree.
    method ParentOfNext() returns (p: Item, ghost steps: nat)
      requires Valid() && items != []
      ensures p == items[(|items| - 1) / 2]
      ensures exists j: nat :: Pow2(j) <= |items| + 1 && steps <= 2 * j + 2
    {
      ghost var n := |items|;
      var curr; ghost var j, k;
      curr, j, k := Climb();
      DeepAreLate(k, j);
      assert LinkedAt(k);
      steps := j;
      if curr.pnt != null {
        NextOnLevel(k, j);
        curr := curr.pnt;
        assert LinkedAt((k - 1) / 2);
        steps := steps + 1;
        if curr.rgt == null {
          assert j == 0;
          return curr, steps;
        }
        curr := curr.rgt;
        steps := steps + 1;
        ghost var down;
        p, down := Descend(curr, k + 1, j);
        steps := steps + down;
      } else {
        PerfectTree(j);
        ghost var down;
        p, down := Descend(curr, 0, j + 1);
        steps := steps + down;
      }
    }
  
    // The first loop: up from the last item as long as it is a right child.
    method Climb() returns (curr: Item, ghost j: nat, ghost k: nat)
      requires Valid() && items != []
      ensures Rightmost(k, j) == |items| - 1 && k < |items| && curr == items[k]
      ensures curr.pnt == null <==> k == 0
      ensures curr.pnt != null ==> k % 2 == 1
    {
      curr, j, k := lst, 0, |items| - 1;
      assert LinkedAt(k);
      while curr.pnt != null && curr.pnt.rgt == curr
        invariant k < |items| && curr == items[k] && LinkedAt(k) && Rightmost(k, j) == |items| - 1
        decreases k
      {
        assert LinkedAt((k - 1) / 2);
        RightmostFirst((k - 1) / 2, j);
        curr := curr.pnt;
        k, j := (k - 1) / 2, j + 1;
        assert LinkedAt(k);
      }
      if k > 0 { assert LinkedAt((k - 1) / 2); }
    }

    // The second loop: down to the left.
    method Descend(start: Item, ghost k: nat, ghost depth: nat) returns (curr: Item, ghost steps: nat)
      requires Valid() && depth > 0 && Leftmost(k, depth) == |items| && k < |items| && start == items[k]
      ensures curr == items[(|items| - 1) / 2] && steps == depth - 1
    {
      curr, steps := start, 0;
      ghost var i := k;
      LevelsGrow(k, 0, depth);
      assert LinkedAt(i);
      while curr.lft != null
        invariant steps < depth && i == Leftmost(k, steps) && i < |items| && curr == items[i] && LinkedAt(i)
        decreases depth - steps
      {
        LevelsGrow(k, steps + 1, depth);
        curr := curr.lft;
        i, steps := 2 * i + 1, steps + 1;
        assert LinkedAt(i);
      }
      LevelsGrow(k, steps + 1, depth);
    }

    // create_add_item
    method AddItem(itm: Item)
      requires Valid() && itm !in items && itm.lft == null && itm.rgt == null
      modifies this, items, itm
      ensures Valid() && items == old(items) + [itm]
    {
      ghost var n := |items|;
      if fst == null {
        fst := itm;
        lst := itm;
        itm.pnt := null;
        items := [itm];
        return;
      }
      var pnt, _ := ParentOfNext();
      ghost var q := (n - 1) / 2;
      assert forall k | 0 <= k < n :: LinkedAt(k);
      if pnt.lft == null {
        pnt.lft := itm;
      } else {
        pnt.rgt := itm;
      }
      itm.pnt := pnt;
      lst := itm;
      items := items + [itm];
      forall k | 0 <= k < |items| ensures LinkedAt(k) {
        if k < n { assert old(LinkedAt(k)); }
      }
    }
  }

  // bj_create_pgroup
  method CreateGroup(numItems: nat) returns (grp: Group)
    ensures fresh(grp) && grp.Valid() && |grp.items| == numItems
  {
    grp := new Group();
    for aa := 0 to numItems
      invariant fresh(grp) && grp.Valid() && |grp.items| == aa && fresh(set x | x in grp.items)
    {
      var itm := new Item();
      assert forall x | x in grp.items :: x in (set y | y in grp.items);
      grp.AddItem(itm);
    }
  }
}
