/** umm_malloc.c: malloc, free, realloc. */
module UmmHeap {
  import opened UmmBlocks
  import opened UmmShape
  import opened UmmFree

  // A pointer is the number of the block that holds it; block 0 is never given out and stands
  // for the null pointer.

  // Chunk `b` is free, and large enough for `k` blocks.
  ghost predicate Serves(m: Mem, sh: Shape, k: nat, b: nat) {
    b in sh.starts && b < |m| && Marked(m, b) && Nx(m, b) - b >= k
  }

  class Heap {
    var blocks: array<Block>
    ghost var sh: Shape
    ghost var ready: bool  // the first umm_malloc has set up the lists

    ghost predicate Valid()
      reads this, blocks
    {
      && 0 < blocks.Length <= MAX_BLOCKS
      && if ready then Inv(blocks[..], sh) else forall b | 0 <= b < blocks.Length :: blocks[b] == ZERO
    }

    // What the users own: the words of every live chunk.
    ghost function Live(): map<nat, seq<Word>>
      requires Valid()
      reads this, blocks
    {
      if ready then LiveMap(blocks[..], sh) else map[]
    }

    // A request of `k` blocks can be met from a free chunk, or from the end of the heap.
    ghost predicate CanServe(k: nat)
      requires Valid()
      reads this, blocks
    {
      if ready then
        (exists b :: Serves(blocks[..], sh, k, b)) || sh.wild + k + 1 < blocks.Length
      else k + 1 < blocks.Length
    }

    // umm_init, for a heap of `n` blocks.
    constructor (n: nat)
      requires 0 < n <= MAX_BLOCKS
      ensures Valid() && Live() == map[] && !ready && fresh(blocks) && blocks.Length == n
    {
      blocks := new Block[n](_ => ZERO);
      ready := false;
      sh := Shape({}, 0, []);
    }

    method MakeNewBlock(c: nat, k: nat, mask: bool)
      requires c + k < blocks.Length <= MAX_BLOCKS && Nx(blocks[..], c) < blocks.Length
      modifies blocks
      ensures blocks[..] == MakeNew(old(blocks[..]), c, k, mask)
    {
      blocks[c + k] := blocks[c + k].(next := blocks[c].next % FREE_MASK);
      blocks[c + k] := blocks[c + k].(prev := c);
      var y := blocks[c].next % FREE_MASK;
      blocks[y] := blocks[y].(prev := c + k);
      blocks[c] := blocks[c].(next := WithMask(c + k, mask));
    }

    method DisconnectFromFreeList(c: nat)
      requires c < blocks.Length && blocks[c].w0 < blocks.Length && blocks[c].w1 < blocks.Length
      modifies blocks
      ensures blocks[..] == Disconnect(old(blocks[..]), c)
    {
      var l := blocks[c].w1;
      blocks[l] := blocks[l].(w0 := blocks[c].w0);
      var r := blocks[c].w0;
      blocks[r] := blocks[r].(w1 := blocks[c].w1);
      blocks[c] := blocks[c].(next := blocks[c].next % FREE_MASK);
    }

    // umm_assimilate_up: swallows the chunk behind `c` if it is free.
    method AssimilateUp(c: nat)
      requires ready && Valid() && sh.Live(c)
      modifies blocks, `sh
      ensures Valid() && sh.wild == old(sh.wild) && SameUsers(old(sh), sh)
      ensures Keeps(old(blocks[..]), old(sh), blocks[..], sh, {c}) && Grew(old(blocks[..]), blocks[..], c)
      ensures Nx(blocks[..], c) < blocks.Length && !Marked(blocks[..], Nx(blocks[..], c))
      ensures SwallowedUp(old(blocks[..]), old(sh), blocks[..], sh, c)
    {
      ghost var m := blocks[..];
      LiveNeighbours(m, sh, c);
      var y := blocks[c].next;
      if blocks[y].next >= FREE_MASK {
        ghost var i := MarkedInside(m, sh, y);
        ghost var sh' := UpInv(m, sh, c, i);
        DisconnectFromFreeList(y);
        var z := blocks[y].next % FREE_MASK;
        blocks[z] := blocks[z].(prev := c);
        blocks[c] := blocks[c].(next := blocks[y].next % FREE_MASK);
        assert blocks[..] == Join(Disconnect(m, y), c);
        sh := sh';
      }
    }

    // umm_assimilate_down: the chunk before `c` swallows it.
    method AssimilateDown(c: nat, mask: bool) returns (d: nat)
      requires ready && Valid() && sh.Live(c)
      requires c < blocks.Length && blocks[c].prev < blocks.Length && mask == Marked(blocks[..], blocks[c].prev)
      modifies blocks
      ensures d == old(blocks[c].prev) < |old(blocks[..])| == blocks.Length
      ensures Nx(old(blocks[..]), d) == c && Nx(old(blocks[..]), c) < blocks.Length
      ensures blocks[..] == Join(old(blocks[..]), d)
    {
      LiveNeighbours(blocks[..], sh, c);
      DownIsJoin(blocks[..], sh, c);
      d := blocks[c].prev;
      blocks[d] := blocks[d].(next := WithMask(blocks[c].next, mask));
      blocks[blocks[c].next] := blocks[blocks[c].next].(prev := blocks[c].prev);
    }

    // umm_free
    method Free(p: nat)
      requires Valid() && (p == 0 || p in Live())
      modifies blocks, `sh
      ensures Valid() && blocks.Length == old(blocks.Length)
      ensures Live() == old(Live()) - {p}
    {
      if p == 0 {
        if ready { LiveKeys(blocks[..], sh); }
        return;
      }
      ghost var m0, sh0 := blocks[..], sh;
      LiveLength(m0, sh0, p);
      AssimilateUp(p);
      FreeTail(p);
      UsersMinus(m0, sh0, blocks[..], sh, p);
    }

    method FreeTail(c: nat)
      requires ready && Valid() && sh.Live(c)
      requires c < blocks.Length && Nx(blocks[..], c) < blocks.Length && !Marked(blocks[..], Nx(blocks[..], c))
      modifies blocks, `sh
      ensures Valid()
      ensures Keeps(old(blocks[..]), old(sh), blocks[..], sh, {c})
      ensures forall b: nat :: sh.Live(b) <==> old(sh).Live(b) && b != c
    {
      ghost var m := blocks[..];
      LiveNeighbours(m, sh, c);
      if blocks[blocks[c].prev].next >= FREE_MASK {
        ghost var sh' := DownInv(m, sh, c);
        var d := AssimilateDown(c, true);
        sh := sh';
      } else {
        PushInv(m, sh, c);
        var r := blocks[0].w0;
        blocks[r] := blocks[r].(w1 := c);
        blocks[c] := blocks[c].(w0 := blocks[0].w0);
        blocks[c] := blocks[c].(w1 := 0);
        blocks[0] := blocks[0].(w0 := c);
        blocks[c] := blocks[c].(next := WithMask(blocks[c].next, true));
        assert blocks[..] == PushHead(m, c);
        sh := sh.(frees := Pushed(sh.frees, c));
      }
    }
  
    // The scan of umm_malloc: a smallest free chunk that serves `k` blocks, or else the end of
    // the list.
    method Scan(k: nat) returns (cf: nat, size: nat)
      requires Valid()
      ensures cf < blocks.Length && (Nx(blocks[..], cf) != 0 ==> ready)
      ensures Nx(blocks[..], cf) != 0 ==> Best(blocks[..], sh, k, cf) && size == Nx(blocks[..], cf) - cf
      ensures Nx(blocks[..], cf) == 0 ==> cf == (if ready then sh.wild else 0)
      ensures ready && Nx(blocks[..], cf) == 0 ==> forall b :: !Serves(blocks[..], sh, k, b)
    {
      ghost var m, f := blocks[..], sh.frees;
      if ready { assert LinkAt(m, f, 0); }
      cf := blocks[0].w0;
      var best, bestSize := cf, MAX_BLOCKS;
      size := 0;
      ghost var i, j := 1, 0;
      while blocks[cf].w0 != 0
        invariant ready ==> 0 < i < |f| && cf == f[i]
        invariant !ready ==> cf == 0 && bestSize == MAX_BLOCKS
        invariant cf < blocks.Length
        invariant ready && bestSize != MAX_BLOCKS ==> 0 < j < i && best == f[j] && bestSize == SizeAt(m, f[j]) >= k
        invariant ready ==> bestSize <= MAX_BLOCKS && forall x | 0 < x < i :: SizeAt(m, f[x]) >= k ==> bestSize <= SizeAt(m, f[x])
        decreases if ready then |f| - i else 0
      {
        InsideList(m, sh, i);
        size := blocks[cf].next % FREE_MASK - cf;
        if size >= k && size < bestSize {
          best, bestSize := cf, size;
          j := i;
        }
        cf := blocks[cf].w0;
        i := i + 1;
      }
      if ready {
        EndOfList(m, sh, i);
        Scanned(m, sh, k, j, bestSize);
      }
      if bestSize != MAX_BLOCKS {
        cf, size := best, bestSize;
        ghost var _ := MarkedInside(m, sh, cf);
      }
    }
  
    // The chunk comes from the end of a smallest free chunk that serves, or from the wilderness
    // if there is none.
    ghost predicate TakenFrom(k: nat, p: nat)
      requires Valid()
      reads this, blocks
    {
      if ready && exists b :: Serves(blocks[..], sh, k, b) then
        exists b :: Best(blocks[..], sh, k, b) && p + k == Nx(blocks[..], b)
      else p == if ready then sh.wild else 1
    }

    // umm_malloc
    method Malloc(size: nat) returns (p: nat)
      requires Valid() && Blocks(size) > 0
      modifies blocks, `sh, `ready
      ensures Valid() && blocks.Length == old(blocks.Length)
      ensures p == 0 <==> size == 0 || !old(CanServe(Blocks(size)))
      ensures p == 0 ==> blocks[..] == old(blocks[..]) && Live() == old(Live())
      ensures p != 0 ==> LivePlus(old(Live()), Live(), p) && |Live()[p]| == 4 * Blocks(size) - 2
      ensures p != 0 ==> old(TakenFrom(Blocks(size), p))
    {
      if size == 0 { return 0; }
      var k := Blocks(size);
      var cf, chunk := Scan(k);
      if blocks[cf].next % FREE_MASK != 0 {
        p := TakeFree(cf, k, chunk);
      } else {
        if blocks.Length <= cf + k + 1 { return 0; }
        p := TakeEnd(cf, k);
      }
    }

    // umm_malloc in the middle of the heap: all of a free chunk, or its rear part.
    method TakeFree(cf: nat, k: nat, chunk: nat) returns (p: nat)
      requires Valid() && ready && k > 0 && Best(blocks[..], sh, k, cf) && chunk == Nx(blocks[..], cf) - cf
      modifies blocks, `sh
      ensures Valid() && p + k == old(Nx(blocks[..], cf)) && p != 0
      ensures LivePlus(old(Live()), Live(), p) && |Live()[p]| == 4 * k - 2
    {
      ghost var _ := MarkedInside(blocks[..], sh, cf);
      if chunk == k {
        TakeWhole(cf);
        p := cf;
      } else {
        TakeRear(cf, chunk - k);
        p := cf + (chunk - k);
      }
    }

    method TakeWhole(cf: nat)
      requires Valid() && ready && cf in sh.starts && cf < blocks.Length && Marked(blocks[..], cf)
      modifies blocks, `sh
      ensures Valid() && cf != 0 && cf < old(Nx(blocks[..], cf))
      ensures LivePlus(old(Live()), Live(), cf) && |Live()[cf]| == 4 * (old(Nx(blocks[..], cf)) - cf) - 2
    {
      ghost var m, sh0 := blocks[..], sh;
      ghost var i := MarkedInside(m, sh, cf);
      DisconnectInv(m, sh, i);
      DisconnectFromFreeList(cf);
      sh := sh.(frees := Without(sh.frees, i));
      UsersPlus(m, sh0, blocks[..], sh, cf, Nx(m, cf) - cf);
    }

    // The rear part of a free chunk, from its block `k` on, becomes a live chunk.
    method TakeRear(c: nat, k: nat)
      requires Valid() && ready && c in sh.starts && c < blocks.Length && Marked(blocks[..], c)
      requires c != sh.wild && 0 < k && c + k < Nx(blocks[..], c)
      modifies blocks, `sh
      ensures Valid() && LivePlus(old(Live()), Live(), c + k)
      ensures |Live()[c + k]| == 4 * (old(Nx(blocks[..], c)) - (c + k)) - 2
    {
      ghost var m, sh0 := blocks[..], sh;
      ghost var _ := MarkedInside(m, sh, c);
      SplitInv(m, sh, c, k);
      ghost var m' := SplitCells(m, sh, c, k, true);
      MakeNewBlock(c, k, true);
      sh := sh.(starts := sh.starts + {c + k});
      UsersPlus(m, sh0, m', sh, c + k, Nx(m, c) - (c + k));
    }

    // The rear part of a live chunk becomes a live chunk of its own.
    method CutChunk(c: nat, k: nat, ghost len: nat)
      requires Valid() && ready && sh.Live(c) && c < blocks.Length && 0 < k && c + k < Nx(blocks[..], c)
      requires 0 < len && c + len <= Nx(blocks[..], c)
      modifies blocks, `sh
      ensures Valid() && c + k in Live() && c != 0
      ensures Resized(old(Live()), Live() - {c + k}, c, c, 4 * len - 2, 4 * k - 2)
    {
      ghost var m, sh0 := blocks[..], sh;
      LiveNeighbours(m, sh, c);
      SplitInv(m, sh, c, k);
      ghost var m' := SplitCells(m, sh, c, k, false);
      MakeNewBlock(c, k, false);
      sh := sh.(starts := sh.starts + {c + k});
      UsersCut(m, sh0, m', sh, c, k, len);
    }

    // umm_malloc at the end of the heap; the first call sets up the lists.
    method TakeEnd(end: nat, k: nat) returns (p: nat)
      requires Valid() && k > 0 && end + k + 1 < blocks.Length && end == (if ready then sh.wild else 0)
      modifies blocks, `sh, `ready
      ensures Valid() && p == (if old(ready) then end else 1)
      ensures LivePlus(old(Live()), Live(), p) && |Live()[p]| == 4 * k - 2
    {
      var cf := end;
      if ready { assert MarkAt(blocks[..], sh, sh.wild); }
      if cf == 0 {
        FirstInv(blocks[..]);
        ghost var z := blocks[..];
        blocks[0] := blocks[0].(next := 1);
        blocks[0] := blocks[0].(w0 := 1);
        assert blocks[..] == SetNFree(SetNext(z, 0, 1), 0, 1);
        cf, sh, ready := 1, Shape({0, 1}, 1, [0, 1]), true;
      }
      ghost var m, sh0 := blocks[..], sh;
      TakeInv(m, sh, k);
      var l := blocks[cf].w1;
      blocks[l] := blocks[l].(w0 := cf + k);
      blocks[cf + k] := blocks[cf];
      blocks[cf] := blocks[cf].(next := cf + k);
      blocks[cf + k] := blocks[cf + k].(prev := cf);
      assert blocks[..] == TakeWild(m, cf, k);
      sh := Advanced(sh, k);
      p := cf;
      UsersPlus(m, sh0, blocks[..], sh, p, k);
      LiveKeys(m, sh0);
    }
  
    // umm_memmove or umm_memcpy between the words of two chunks.
    method MoveWords(d: nat, c: nat, len: nat)
      requires 0 < len && c + len <= blocks.Length && d + len <= blocks.Length && (d < c || c + len <= d)
      modifies blocks
      ensures blocks[..] == Copied(old(blocks[..]), d, c, len)
    {
      ghost var m := blocks[..];
      blocks[d] := blocks[d].(w0 := blocks[c].w0);
      blocks[d] := blocks[d].(w1 := blocks[c].w1);
      for i := 1 to len
        invariant blocks[d] == m[d].(w0 := m[c].w0, w1 := m[c].w1)
        invariant forall b | d < b < d + i :: blocks[b] == m[c + (b - d)]
        invariant forall b | 0 <= b < blocks.Length && !(d <= b < d + i) :: blocks[b] == m[b]
      {
        blocks[d + i] := blocks[c + i];
      }
    }

    // umm_realloc into the free chunk before `c`.
    method MoveDown(c: nat, len: nat, ghost before: map<nat, seq<Word>>) returns (d: nat)
      requires ready && Valid() && sh.Live(c) && c < blocks.Length && blocks[c].prev < blocks.Length
      requires Marked(blocks[..], blocks[c].prev) && 0 < len && c + len <= Nx(blocks[..], c) < blocks.Length
      requires LiveMoved(before, Live(), c, c, 4 * len - 2)
      modifies blocks, `sh
      ensures Valid() && sh.Live(d) && d == old(blocks[c].prev) < blocks.Length
      ensures Nx(blocks[..], d) == old(Nx(blocks[..], c))
      ensures LiveMoved(before, Live(), c, d, 4 * len - 2)
    {
      ghost var i, sh2 := DownMoves(blocks[..], sh, c, len, before);
      DisconnectFromFreeList(blocks[c].prev);
      sh := sh.(frees := Without(sh.frees, i));
      d := AssimilateDown(c, false);
      MoveWords(d, c, len);
      sh := sh2;
    }
  
    // What umm_realloc can reach by merging chunk `c` with its neighbours, in blocks.
    ghost function Merged(c: nat): int
      requires Valid()
      reads this, blocks
    {
      MergedAt(blocks[..], c)
    }

    // umm_realloc
    method Realloc(p: nat, size: nat) returns (r: nat)
      requires Valid() && Blocks(size) > 0 && (p == 0 || p in Live())
      modifies blocks, `sh, `ready
      ensures Valid() && blocks.Length == old(blocks.Length)
      ensures p == 0 ==> (r == 0 <==> size == 0 || !old(CanServe(Blocks(size))))
      ensures p == 0 ==> if r == 0 then Live() == old(Live())
                         else LivePlus(old(Live()), Live(), r) && |Live()[r]| == 4 * Blocks(size) - 2
      ensures p != 0 ==> (r == 0 <==> size == 0 || (old(Merged(p)) < Blocks(size) && !old(CanServe(Blocks(size)))))
      ensures p != 0 ==> Resized(old(Live()), Live(), p, r, |old(Live()[p])|, 4 * Blocks(size) - 2)
    {
      if p == 0 {
        r := Malloc(size);
        return;
      }
      if size == 0 {
        Free(p);
        return 0;
      }
      var k := Blocks(size);
      LiveLength(blocks[..], sh, p);
      LiveNeighbours(blocks[..], sh, p);
      var len := blocks[p].next - p;
      if len == k {
        MergedAtLeast(blocks[..], sh, p);
        SameSize(Live(), p, 4 * k - 2);
        r := p;
      } else {
        r := Resize(p, k, len, size);
      }
    }

    // umm_realloc to another number of blocks.
    method Resize(p: nat, k: nat, len: nat, size: nat) returns (r: nat)
      requires ready && Valid() && sh.Live(p) && p < blocks.Length && 0 < size && 0 < k == Blocks(size)
      requires 0 < len && Nx(blocks[..], p) == p + len
      modifies blocks, `sh, `ready
      ensures Valid() && blocks.Length == old(blocks.Length)
      ensures r == 0 <==> old(Merged(p)) < k && !old(CanServe(k))
      ensures Resized(old(Live()), Live(), p, r, 4 * len - 2, 4 * k - 2)
    {
      ghost var live0 := Live();
      var c := Absorb(p, k, len);
      ghost var live1 := Live();
      r := Fit(c, k, len, size);
      ResizedMoved(live0, live1, Live(), p, c, r, 4 * len - 2, 4 * k - 2);
    }

    // The chunk takes its free neighbours: the one behind always, the one before if that gives
    // enough room.
    method Absorb(p: nat, k: nat, len: nat) returns (c: nat)
      requires ready && Valid() && sh.Live(p) && p < blocks.Length && 0 < k
      requires 0 < len && Nx(blocks[..], p) == p + len
      modifies blocks, `sh
      ensures Valid() && blocks.Length == old(blocks.Length) && sh.Live(c) && c < blocks.Length
      ensures c + len <= Nx(blocks[..], c) && (Nx(blocks[..], c) - c < k <==> old(Merged(p)) < k)
      ensures old(Merged(p)) < k ==> (CanServe(k) <==> old(CanServe(k)))
      ensures LiveMoved(old(Live()), Live(), p, c, 4 * len - 2)
    {
      ghost var before := Live();
      AbsorbUp(p, k, len);
      LiveNeighbours(blocks[..], sh, p);
      if blocks[blocks[p].prev].next >= FREE_MASK && k <= blocks[p].next - blocks[p].prev {
        c := MoveDown(p, len, before);
      } else {
        c := p;
      }
    }

    method AbsorbUp(p: nat, k: nat, len: nat)
      requires ready && Valid() && sh.Live(p) && p < blocks.Length && 0 < k
      requires 0 < len && Nx(blocks[..], p) == p + len
      modifies blocks, `sh
      ensures Valid() && sh.Live(p) && p + len <= Nx(blocks[..], p) < blocks.Length && blocks[p].prev < p
      ensures old(Merged(p)) == Nx(blocks[..], p) - (if Marked(blocks[..], blocks[p].prev) then blocks[p].prev else p)
      ensures old(Merged(p)) < k ==> (CanServe(k) <==> old(CanServe(k)))
      ensures LiveMoved(old(Live()), Live(), p, p, 4 * len - 2)
    {
      ghost var m0, sh0 := blocks[..], sh;
      LiveNeighbours(m0, sh0, p);
      AssimilateUp(p);
      ghost var m1, sh1 := blocks[..], sh;
      UsersGrew(m0, sh0, m1, sh1, p);
      LiveNeighbours(m1, sh1, p);
      MergedEnough(m0, sh0, m1, sh1, p, k);
    }

    // The end of umm_realloc: the chunk is right, or is cut, or its words move to a new one.
    method Fit(c: nat, k: nat, len: nat, size: nat) returns (r: nat)
      requires ready && Valid() && sh.Live(c) && c < blocks.Length && 0 < size && 0 < k == Blocks(size)
      requires 0 < len && c + len <= Nx(blocks[..], c)
      modifies blocks, `sh, `ready
      ensures Valid() && blocks.Length == old(blocks.Length)
      ensures r == 0 <==> old(Nx(blocks[..], c)) - c < k && !old(CanServe(k))
      ensures Resized(old(Live()), Live(), c, r, 4 * len - 2, 4 * k - 2)
    {
      LiveLength(blocks[..], sh, c);
      LiveNeighbours(blocks[..], sh, c);
      var chunk := blocks[c].next - c;
      if chunk == k {
        r := c;
      } else if chunk > k {
        Shrink(c, k, len);
        r := c;
      } else {
        r := Grow(c, k, len, size);
      }
    }

    method Shrink(c: nat, k: nat, len: nat)
      requires ready && Valid() && sh.Live(c) && c < blocks.Length && 0 < k && c + k < Nx(blocks[..], c)
      requires 0 < len && c + len <= Nx(blocks[..], c)
      modifies blocks, `sh
      ensures Valid() && blocks.Length == old(blocks.Length) && c != 0
      ensures Resized(old(Live()), Live(), c, c, 4 * len - 2, 4 * k - 2)
    {
      CutChunk(c, k, len);
      Free(c + k);
    }

    method Grow(c: nat, k: nat, len: nat, size: nat) returns (r: nat)
      requires ready && Valid() && sh.Live(c) && c < blocks.Length && 0 < size && 0 < k == Blocks(size)
      requires 0 < len && c + len <= Nx(blocks[..], c) < c + k
      modifies blocks, `sh, `ready
      ensures Valid() && blocks.Length == old(blocks.Length)
      ensures r == 0 <==> !old(CanServe(k))
      ensures Resized(old(Live()), Live(), c, r, 4 * len - 2, 4 * k - 2)
    {
      LiveLength(blocks[..], sh, c);
      ghost var live0 := Live();
      r := Malloc(size);
      ghost var live1 := Live();
      if r != 0 {
        LiveLength(blocks[..], sh, r);
        LiveLength(blocks[..], sh, c);
        CopyWords(r, c, len);
        GrownCopied(live0, live1, Live(), c, r, 4 * len - 2, 4 * k - 2);
      }
      Free(c);
    }

    // The first `len` blocks of words of one live chunk go to another.
    method CopyWords(d: nat, c: nat, len: nat)
      requires ready && Valid() && sh.Live(c) && sh.Live(d) && c != d && c < blocks.Length && d < blocks.Length
      requires 0 < len && c + len <= Nx(blocks[..], c) && d + len <= Nx(blocks[..], d)
      modifies blocks
      ensures Valid() && c in old(Live()) && d in old(Live())
      ensures LivePlus(old(Live()) - {d}, Live(), d) && |Live()[d]| == |old(Live())[d]|
      ensures 4 * len - 2 <= |old(Live())[c]| && 4 * len - 2 <= |Live()[d]|
      ensures Live()[d][..4 * len - 2] == old(Live())[c][..4 * len - 2]
    {
      LiveNeighbours(blocks[..], sh, c);
      LiveNeighbours(blocks[..], sh, d);
      assert ApartAt(blocks[..], c, d);
      CopyInto(blocks[..], sh, d, c, len);
      MoveWords(d, c, len);
    }
  }

  lemma {:induction false} CopyInto(m: Mem, sh: Shape, d: nat, c: nat, len: nat)
    requires Inv(m, sh) && sh.Live(c) && sh.Live(d) && c != d && c < |m| && d < |m|
    requires 0 < len && c + len <= Nx(m, c) < |m| && d + len <= Nx(m, d) < |m|
    ensures var m' := Copied(m, d, c, len);
            && Inv(m', sh)
            && var a, b := LiveMap(m, sh), LiveMap(m', sh);
            && c in a && d in a && LivePlus(a - {d}, b, d) && |b[d]| == |a[d]|
            && 4 * len - 2 <= |a[c]| && 4 * len - 2 <= |b[d]| && b[d][..4 * len - 2] == a[c][..4 * len - 2]
  {
    var m' := Copied(m, d, c, len);
    UserWrites(m, m', sh, d);
    CopiedPayload(m, d, c, len);
    OthersKept(m, sh, m', sh, d, d);
    SameStart(m, sh, m', sh, c, d, len);
    LiveLength(m, sh, d);
    LiveLength(m', sh, d);
  }

  // What chunk `c` and its free neighbours have together, in blocks.
  ghost function MergedAt(m: Mem, c: nat): int {
    if c < |m| && Nx(m, c) < |m| && m[c].prev < |m| then
      (if Marked(m, Nx(m, c)) then Nx(m, Nx(m, c)) else Nx(m, c)) - (if Marked(m, m[c].prev) then m[c].prev else c)
    else 0
  }

  lemma {:induction false} MergedAtLeast(m: Mem, sh: Shape, c: nat)
    requires Inv(m, sh) && sh.Live(c)
    ensures c < |m| && MergedAt(m, c) >= Nx(m, c) - c
  {
    LiveNeighbours(m, sh, c);
    if Marked(m, Nx(m, c)) { ghost var _ := MarkedInside(m, sh, Nx(m, c)); }
  }

  // After umm_assimilate_up, the question whether `k` blocks are at hand next to `c` or
  // elsewhere is still what it was before.
  lemma {:induction false} MergedEnough(m: Mem, sh: Shape, m1: Mem, sh1: Shape, c: nat, k: nat)
    requires Inv(m, sh) && Inv(m1, sh1) && sh.Live(c) && sh1.Live(c) && sh1.wild == sh.wild
    requires SwallowedUp(m, sh, m1, sh1, c) && Grew(m, m1, c)
    ensures m1[c].prev == m[c].prev < |m| == |m1| && c < |m| && Marked(m1, m[c].prev) == Marked(m, m[c].prev)
    ensures MergedAt(m, c) == Nx(m1, c) - (if Marked(m1, m[c].prev) then m[c].prev else c)
    ensures MergedAt(m, c) < k ==> ((exists b :: Serves(m1, sh1, k, b)) <==> (exists b :: Serves(m, sh, k, b)))
  {
    LiveNeighbours(m, sh, c);
    LiveNeighbours(m1, sh1, c);
    if MergedAt(m, c) < k {
      forall b | Serves(m, sh, k, b) ensures Serves(m1, sh1, k, b) {}
      forall b | Serves(m1, sh1, k, b) ensures Serves(m, sh, k, b) {}
    }
  }

  // How umm_realloc leaves the users: chunk `p` is gone; chunk `r`, unless it is null, holds
  // `size` words that start with the first `kept` words of `p`.
  ghost predicate Resized(a: map<nat, seq<Word>>, b: map<nat, seq<Word>>, p: nat, r: nat, kept: nat, size: nat) {
    && p in a
    && if r == 0 then b == a - {p} else
         && LivePlus(a - {p}, b, r) && |b[r]| == size
         && forall i | 0 <= i < kept && i < size :: i < |a[p]| && b[r][i] == a[p][i]
  }

  lemma {:induction false} SameSize(a: map<nat, seq<Word>>, p: nat, size: nat)
    requires p in a && p != 0 && |a[p]| == size
    ensures Resized(a, a, p, p, size, size)
  {
  }

  // What the steps of MoveDown do to the blocks.
  lemma {:induction false} DownMoves(m: Mem, sh: Shape, c: nat, len: nat, before: map<nat, seq<Word>>)
    returns (i: nat, sh2: Shape)
    requires Inv(m, sh) && sh.Live(c) && c < |m| && m[c].prev < |m| && Marked(m, m[c].prev)
    requires 0 < len && c + len <= Nx(m, c) < |m| && LiveMoved(before, LiveMap(m, sh), c, c, 4 * len - 2)
    ensures var d := m[c].prev;
            && d < c && m[d].w0 < |m| && m[d].w1 < |m| && i < |sh.frees|
            && var m1, sh1 := Disconnect(m, d), sh.(frees := Without(sh.frees, i));
            && Inv(m1, sh1) && sh1.Live(c) && m1[c].prev == d && !Marked(m1, d) && Nx(m1, d) == c && Nx(m1, c) < |m|
            && var m3 := Copied(Join(m1, d), d, c, len);
            && Inv(m3, sh2) && sh2.Live(d) && Nx(m3, d) == Nx(m, c)
            && LiveMoved(before, LiveMap(m3, sh2), c, d, 4 * len - 2)
  {
    LiveNeighbours(m, sh, c);
    var d := m[c].prev;
    i := MarkedInside(m, sh, d);
    var m2: Mem;
    m2, sh2 := MergeDown(m, sh, c, i);
    MoveInv(m, sh, m2, sh2, c, d, len);
    MovedTwice(before, LiveMap(m, sh), LiveMap(Copied(m2, d, c, len), sh2), c, d, 4 * len - 2);
  }

  lemma {:induction false} MovedTwice(a: map<nat, seq<Word>>, b: map<nat, seq<Word>>, c: map<nat, seq<Word>>,
                                      p: nat, d: nat, n: nat)
    requires LiveMoved(a, b, p, p, n) && LiveMoved(b, c, p, d, n)
    ensures LiveMoved(a, c, p, d, n)
  {
    assert b - {p} == a - {p};
  }

  lemma {:induction false} ResizedMoved(a: map<nat, seq<Word>>, b: map<nat, seq<Word>>, c: map<nat, seq<Word>>,
                                        p: nat, d: nat, r: nat, kept: nat, size: nat)
    requires LiveMoved(a, b, p, d, kept) && Resized(b, c, d, r, kept, size)
    ensures Resized(a, c, p, r, kept, size)
  {
    assert b - {d} == a - {p};
    forall i | 0 <= i < kept && i < size && r != 0 ensures i < |a[p]| && c[r][i] == a[p][i] {
      assert b[d][..kept][i] == a[p][..kept][i];
    }
  }

  lemma {:induction false} CutThenFreed(a: map<nat, seq<Word>>, b: map<nat, seq<Word>>,
                                        c: nat, x: nat, kept: nat, size: nat)
    requires LiveCut(a, b, c, x, size) && c != 0 && kept <= |a[c]|
    ensures Resized(a, b - {x}, c, c, kept, size)
  {
  }

  lemma {:induction false} GrownCopied(a: map<nat, seq<Word>>, b: map<nat, seq<Word>>, d: map<nat, seq<Word>>,
                                       c: nat, r: nat, kept: nat, size: nat)
    requires r != 0 && c in a && LivePlus(a, b, r) && |b[r]| == size && LivePlus(b - {r}, d, r) && |d[r]| == size
    requires kept <= |b[c]| && kept <= |d[r]| && d[r][..kept] == b[c][..kept]
    ensures Resized(a, d - {c}, c, r, kept, size)
  {
    assert b - {r} == a;
    forall i | 0 <= i < kept && i < size ensures i < |a[c]| && d[r][i] == a[c][i] {
      assert d[r][..kept][i] == b[c][..kept][i];
    }
  }

  // What umm_assimilate_up takes: the chunk behind `c`, if it is free. The other free chunks
  // stay as they are.
  ghost predicate SwallowedUp(m: Mem, sh: Shape, m': Mem, sh': Shape, c: nat) {
    && |m'| == |m| && c < |m| && Nx(m, c) < |m|
    && (if Marked(m, Nx(m, c)) then
          sh'.starts == sh.starts - {Nx(m, c)} && Nx(m', c) == Nx(m, Nx(m, c))
        else sh'.starts == sh.starts && Nx(m', c) == Nx(m, c))
    && forall b | b in sh'.starts && b < |m| && b != c :: Nx(m', b) == Nx(m, b) && Marked(m', b) == Marked(m, b)
  }

  lemma {:induction false} CutWords(m: Mem, m': Mem, c: nat, k: nat, e: nat)
    requires |m'| == |m| && 0 < k && c + k < e < |m|
    requires m'[c].w0 == m[c].w0 && m'[c].w1 == m[c].w1 && forall b | c < b < c + k :: m'[b] == m[b]
    ensures Payload(m', c, c + k) == Payload(m, c, e)[..4 * k - 2]
  {
    SameWords(m, m', c, c + k);
    PayloadPrefix(m, c, c + k, e);
  }

  // Chunk `c` keeps its first `n` words, and chunk `x` is new.
  ghost predicate LiveCut(a: map<nat, seq<Word>>, b: map<nat, seq<Word>>, c: nat, x: nat, n: nat) {
    && c in a && x !in a && b.Keys == a.Keys + {x}
    && (forall q | q in a && q != c :: b[q] == a[q])
    && n <= |a[c]| && b[c] == a[c][..n]
  }

  lemma {:induction false} CutKeys(m: Mem, sh: Shape, m': Mem, sh': Shape, c: nat, x: nat)
    requires Inv(m, sh) && Inv(m', sh') && sh.Live(c) && Keeps(m, sh, m', sh', {c}) && !sh.Live(x)
    requires forall b: nat :: sh'.Live(b) <==> sh.Live(b) || b == x
    ensures x !in LiveMap(m, sh) && LiveMap(m', sh').Keys == LiveMap(m, sh).Keys + {x}
    ensures forall q | q in LiveMap(m, sh) && q != c :: LiveMap(m', sh')[q] == LiveMap(m, sh)[q]
  {
    LiveKeys(m, sh);
    LiveKeys(m', sh');
    KeptWords(m, sh, m', sh', {c});
  }

  lemma {:induction false} ChunkCut(m: Mem, sh: Shape, m': Mem, sh': Shape, c: nat, k: nat)
    requires Inv(m, sh) && Inv(m', sh') && sh.Live(c) && Keeps(m, sh, m', sh', {c}) && !sh.Live(c + k)
    requires forall b: nat :: sh'.Live(b) <==> sh.Live(b) || b == c + k
    requires |m'| == |m| && 0 < k && c + k < Nx(m, c) < |m| && Nx(m', c) == c + k
    requires m'[c].w0 == m[c].w0 && m'[c].w1 == m[c].w1 && forall b | c < b < c + k :: m'[b] == m[b]
    ensures LiveCut(LiveMap(m, sh), LiveMap(m', sh'), c, c + k, 4 * k - 2)
  {
    CutKeys(m, sh, m', sh', c, c + k);
    LiveLength(m, sh, c);
    LiveLength(m', sh', c);
    CutWords(m, m', c, k, Nx(m, c));
  }

  // A live chunk keeps its first `k` blocks, and the rest becomes a live chunk, to be freed.
  lemma {:induction false} UsersCut(m: Mem, sh: Shape, m': Mem, sh': Shape, c: nat, k: nat, len: nat)
    requires Inv(m, sh) && Inv(m', sh') && sh.Live(c) && Keeps(m, sh, m', sh', {c}) && !sh.Live(c + k)
    requires forall b: nat :: sh'.Live(b) <==> sh.Live(b) || b == c + k
    requires |m'| == |m| && 0 < k && c + k < Nx(m, c) < |m| && Nx(m', c) == c + k
    requires m'[c].w0 == m[c].w0 && m'[c].w1 == m[c].w1 && forall b | c < b < c + k :: m'[b] == m[b]
    requires 0 < len && c + len <= Nx(m, c)
    ensures c + k in LiveMap(m', sh')
    ensures Resized(LiveMap(m, sh), LiveMap(m', sh') - {c + k}, c, c, 4 * len - 2, 4 * k - 2)
  {
    ChunkCut(m, sh, m', sh', c, k);
    LiveLength(m, sh, c);
    CutThenFreed(LiveMap(m, sh), LiveMap(m', sh'), c, c + k, 4 * len - 2, 4 * k - 2);
  }

  // The size of a chunk, in blocks.
  ghost function SizeAt(m: Mem, b: nat): int {
    if b < |m| then Nx(m, b) - b else 0
  }

  ghost predicate Best(m: Mem, sh: Shape, k: nat, b: nat) {
    Serves(m, sh, k, b) && forall x :: Serves(m, sh, k, x) ==> SizeAt(m, b) <= SizeAt(m, x)
  }

  // A member of the free list with a successor is a free chunk.
  lemma {:induction false} InsideList(m: Mem, sh: Shape, i: nat)
    requires Inv(m, sh) && 0 < i < |sh.frees| && sh.frees[i] < |m| && m[sh.frees[i]].w0 != 0
    ensures i + 1 < |sh.frees| && m[sh.frees[i]].w0 == sh.frees[i + 1] < |m|
    ensures Marked(m, sh.frees[i]) && 0 < SizeAt(m, sh.frees[i]) < MAX_BLOCKS
  {
    var f := sh.frees;
    if i + 1 < |f| {
      assert LinkAt(m, f, i);
      assert f[i] in f && f[0] != f[i] && f[i] != f[|f| - 1];
      assert MarkAt(m, sh, f[i]) && ChunkAt(m, sh, f[i]);
    }
  }

  lemma {:induction false} EndOfList(m: Mem, sh: Shape, i: nat)
    requires Inv(m, sh) && 0 < i < |sh.frees| && sh.frees[i] < |m|
    ensures m[sh.frees[i]].w0 == 0 ==> i == |sh.frees| - 1
  {
    var f := sh.frees;
    if i + 1 < |f| { assert LinkAt(m, f, i) && f[0] != f[i + 1]; }
  }

  // All chunks that serve are on the free list, so the scan has seen them.
  lemma {:induction false} Scanned(m: Mem, sh: Shape, k: nat, j: nat, bestSize: nat)
    requires Inv(m, sh) && bestSize <= MAX_BLOCKS
    requires forall x | 0 < x < |sh.frees| - 1 :: SizeAt(m, sh.frees[x]) >= k ==> bestSize <= SizeAt(m, sh.frees[x])
    requires bestSize != MAX_BLOCKS ==> 0 < j < |sh.frees| - 1 && bestSize == SizeAt(m, sh.frees[j]) >= k
    ensures bestSize != MAX_BLOCKS ==> Best(m, sh, k, sh.frees[j])
    ensures bestSize == MAX_BLOCKS ==> forall b :: !Serves(m, sh, k, b)
  {
    forall b | Serves(m, sh, k, b) ensures bestSize <= SizeAt(m, b) < MAX_BLOCKS {
      var i := MarkedInside(m, sh, b);
      assert SizeAt(m, sh.frees[i]) >= k;
    }
    if bestSize != MAX_BLOCKS {
      assert LinkAt(m, sh.frees, j) && sh.frees[j] in sh.frees;
      InsideList(m, sh, j);
    }
  }

  // ---------------------------------------------------------------- a chunk that cannot grow

  // No heap can serve more blocks than it has.
  lemma {:induction false} TooMuch(m: Mem, sh: Shape, p: nat, k: nat)
    requires Inv(m, sh) && sh.Live(p) && k >= |m|
    ensures MergedAt(m, p) < k && forall b :: !Serves(m, sh, k, b)
  {
    LiveNeighbours(m, sh, p);
    if Marked(m, Nx(m, p)) { ghost var _ := MarkedInside(m, sh, Nx(m, p)); }
    forall b | b in sh.starts && b < |m| && Marked(m, b) ensures Nx(m, b) < |m| { ghost var _ := MarkedInside(m, sh, b); }
  }

  // In every heap: a chunk that is asked to grow beyond it is gone, although the answer is null.
  method LosesChunk(n: nat, size: nat) returns (h: Heap, p: nat, r: nat)
    requires 3 <= n <= MAX_BLOCKS && Blocks(size) >= n
    ensures h.Valid() && h.blocks.Length == n && p != 0 && r == 0 && h.Live() == map[]
  {
    h := new Heap(n);
    p := h.Malloc(1);
    assert h.Live().Keys == {p};
    LiveKeys(h.blocks[..], h.sh);
    TooMuch(h.blocks[..], h.sh, p, Blocks(size));
    r := h.Realloc(p, size);
  }
}
