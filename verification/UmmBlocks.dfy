/** The heap of umm_malloc.c. */
module UmmBlocks {
  // Two header words chain all blocks, and two body words chain the free ones and belong to
  // the user otherwise.

  const FREE_MASK: nat := 0x8000
  const MAX_BLOCKS: nat := 0x7FFF

  type Word = v: nat | v < 0x10000

  // Four 16-bit words. In a free block, `w0` and `w1` are body.free.next and body.free.prev.
  datatype Block = Block(next: Word, prev: Word, w0: Word, w1: Word) {
    function At(i: nat): Word
      requires i < 4
    {
      if i == 0 then next else if i == 1 then prev else if i == 2 then w0 else w1
    }
  }
  const ZERO := Block(0, 0, 0, 0)

  type Mem = seq<Block>

  function Nx(m: Mem, b: nat): nat
    requires b < |m|
  {
    m[b].next % FREE_MASK
  }

  predicate Marked(m: Mem, b: nat)
    requires b < |m|
  {
    m[b].next >= FREE_MASK
  }

  // `v | FREE_MASK`, for 16-bit values.
  function WithMask(v: Word, on: bool): Word { if on && v < FREE_MASK then v + FREE_MASK else v }

  function SetNext(m: Mem, b: nat, v: Word): Mem
    requires b < |m|
  {
    m[b := m[b].(next := v)]
  }

  function SetPrev(m: Mem, b: nat, v: Word): Mem
    requires b < |m|
  {
    m[b := m[b].(prev := v)]
  }

  function SetNFree(m: Mem, b: nat, v: Word): Mem
    requires b < |m|
  {
    m[b := m[b].(w0 := v)]
  }

  function SetPFree(m: Mem, b: nat, v: Word): Mem
    requires b < |m|
  {
    m[b := m[b].(w1 := v)]
  }

  // ---------------------------------------------------------------- sizes

  // umm_blocks: the header is 4 bytes, so a chain of k blocks holds 8k - 4 bytes. The
  // result is a 16-bit index.
  function Blocks(size: nat): nat {
    if size <= 4 then 1 else (2 + (size - 5) / 8) % 0x10000
  }

  const MAX_SIZE: nat := 8 * 0xFFFF - 4

  // The count is the smallest that holds the request, exactly as long as it fits the index.
  lemma BlocksTight(size: nat)
    requires size > 0
    ensures 8 * Blocks(size) - 4 >= size <==> size <= MAX_SIZE
    ensures size <= MAX_SIZE ==> forall k: nat :: 8 * k - 4 >= size ==> Blocks(size) <= k
    ensures size <= MAX_SIZE ==> Blocks(size) > 0
    ensures Blocks(size) == 0 <==> size >= 5 && 0x7FFF0 <= (size - 5) % 0x80000 < 0x7FFF8
  {
    if size > MAX_SIZE {
      var big := 2 + (size - 5) / 8;
      assert big >= 0x10000 && Blocks(size) == big % 0x10000 < 0x10000;
    }
  }

  // ---------------------------------------------------------------- shape

  // The starts of all chunks, the last of them (the wilderness), and the free list with
  // block 0 at its head and the wilderness at its end.
  datatype Shape = Shape(starts: set<nat>, wild: nat, frees: seq<nat>) {
    predicate Live(b: nat) { b in starts && b != 0 && b != wild && b !in frees }
  }

  // A chunk and the chunks next to it know each other.
  predicate ChunkAt(m: Mem, sh: Shape, b: nat) {
    && b < |m| && sh.wild < |m|
    && (b != sh.wild ==> b < Nx(m, b) <= sh.wild && Nx(m, b) in sh.starts && m[Nx(m, b)].prev == b)
    && (b != 0 ==> m[b].prev in sh.starts && m[b].prev < b && Nx(m, m[b].prev) == b)
  }

  // No chunk starts inside another.
  predicate ApartAt(m: Mem, b: nat, x: nat) {
    b < x < |m| ==> Nx(m, b) <= x
  }

  // The chunks tile the heap up to the wilderness.
  ghost predicate Chained(m: Mem, sh: Shape) {
    && 0 in sh.starts && 1 in sh.starts && sh.wild in sh.starts && 0 < sh.wild < |m| <= MAX_BLOCKS
    && (forall b | b in sh.starts :: b <= sh.wild)
    && (forall b {:trigger ChunkAt(m, sh, b)} | b in sh.starts :: ChunkAt(m, sh, b))
    && (forall b, x {:trigger ApartAt(m, b, x)} | b in sh.starts && x in sh.starts :: ApartAt(m, b, x))
    && Nx(m, 0) == 1 && m[0].prev == 0 && Nx(m, sh.wild) == 0
  }

  predicate LinkAt(m: Mem, f: seq<nat>, i: nat)
    requires i + 1 < |f|
  {
    && f[i] < |m| && f[i + 1] < |m|
    && m[f[i]].w0 == f[i + 1] && m[f[i + 1]].w1 == f[i]
  }

  predicate NoneTwice(f: seq<nat>) {
    forall i, j | 0 <= i < j < |f| :: f[i] != f[j]
  }

  // The free list is doubly linked and has no element twice.
  ghost predicate Listed(m: Mem, sh: Shape) {
    var f := sh.frees;
    && |f| >= 2 && f[0] == 0 && f[|f| - 1] == sh.wild < |m|
    && (forall x | x in f :: x in sh.starts)
    && NoneTwice(f)
    && (forall i {:trigger LinkAt(m, f, i)} | 0 <= i < |f| - 1 :: LinkAt(m, f, i))
    && m[sh.wild].w0 == 0 && m[0].w1 == 0
  }

  // A chunk carries the mask if and only if it is on the free list, the two ends apart; its
  // neighbour then does not.
  predicate MarkAt(m: Mem, sh: Shape, b: nat)
    requires b < |m|
  {
    && (Marked(m, b) <==> b in sh.frees && b != 0 && b != sh.wild)
    && (Marked(m, b) ==> Nx(m, b) < |m| && !Marked(m, Nx(m, b)))
  }

  ghost predicate MarkedOk(m: Mem, sh: Shape) {
    forall b {:trigger MarkAt(m, sh, b)} | b in sh.starts && b < |m| :: MarkAt(m, sh, b)
  }

  ghost predicate Inv(m: Mem, sh: Shape) {
    Chained(m, sh) && Listed(m, sh) && MarkedOk(m, sh)
  }

  // ---------------------------------------------------------------- operations

  // umm_make_new_block
  function MakeNew(m: Mem, c: nat, k: nat, mask: bool): Mem
    requires c + k < |m| <= MAX_BLOCKS && Nx(m, c) < |m|
  {
    var m1 := SetNext(m, c + k, Nx(m, c));
    var m2 := SetPrev(m1, c + k, c);
    var m3 := SetPrev(m2, Nx(m2, c), c + k);
    SetNext(m3, c, WithMask(c + k, mask))
  }

  // umm_disconnect_from_free_list
  function Disconnect(m: Mem, c: nat): Mem
    requires c < |m| && m[c].w0 < |m| && m[c].w1 < |m|
  {
    var m1 := SetNFree(m, m[c].w1, m[c].w0);
    var m2 := SetPFree(m1, m1[c].w0, m1[c].w1);
    SetNext(m2, c, Nx(m2, c))
  }

  // The second half of umm_assimilate_up: chunk `d` swallows the one behind it.
  function Join(m: Mem, d: nat): Mem
    requires d < |m| <= MAX_BLOCKS && Nx(m, d) < |m| && Nx(m, Nx(m, d)) < |m|
  {
    var m1 := SetPrev(m, Nx(m, Nx(m, d)), d);
    SetNext(m1, d, WithMask(Nx(m1, Nx(m1, d)), Marked(m, d)))
  }

  // The first part of umm_free: the chunk goes to the head of the free list.
  function PushHead(m: Mem, c: nat): Mem
    requires 0 < c < |m| <= MAX_BLOCKS && m[0].w0 < |m|
  {
    var m1 := SetPFree(m, m[0].w0, c);
    var m2 := SetNFree(m1, c, m1[0].w0);
    var m3 := SetPFree(m2, c, 0);
    var m4 := SetNFree(m3, 0, c);
    SetNext(m4, c, WithMask(m4[c].next, true))
  }

  // umm_malloc at the end of the heap: the wilderness moves up by `k` blocks.
  function TakeWild(m: Mem, w: nat, k: nat): Mem
    requires 0 < k && w + k < |m| <= MAX_BLOCKS && m[w].w1 < |m|
  {
    var m1 := SetNFree(m, m[w].w1, w + k);
    var m2 := m1[w + k := m1[w]];
    SetPrev(SetNext(m2, w, w + k), w + k, w)
  }
}
