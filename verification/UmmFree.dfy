/**
  The composed steps of umm_malloc.c on the blocks: merging a chunk with its neighbours and
  giving it back.
 */
module UmmFree {
  import opened UmmBlocks
  import opened UmmShape

  // The chunk kept its words and did not get shorter.
  ghost predicate Grew(m: Mem, m': Mem, c: nat) {
    && |m'| == |m| && c < |m| && Nx(m, c) <= Nx(m', c)
    && m'[c].w0 == m[c].w0 && m'[c].w1 == m[c].w1 && m'[c].prev == m[c].prev
    && forall k | c < k < Nx(m, c) && k < |m| :: m'[k] == m[k]
  }

  // Live chunks are live, apart from some, which change sides.
  ghost predicate SameUsers(sh: Shape, sh': Shape) {
    forall b: nat :: sh'.Live(b) <==> sh.Live(b)
  }

  function IndexOf(f: seq<nat>, x: nat): (i: nat)
    requires x in f
    ensures i < |f| && f[i] == x
  {
    if f[0] == x then 0 else 1 + IndexOf(f[1..], x)
  }

  lemma {:induction false} LiveNeighbours(m: Mem, sh: Shape, c: nat)
    requires Inv(m, sh) && sh.Live(c)
    ensures 0 < c < |m| && !Marked(m, c) && m[c].next == Nx(m, c) && c < Nx(m, c) < |m| && Nx(m, c) in sh.starts
    ensures m[Nx(m, c)].prev == c
    ensures m[c].prev in sh.starts && m[c].prev < c && m[c].prev != sh.wild && Nx(m, m[c].prev) == c
  {
    assert ChunkAt(m, sh, c) && MarkAt(m, sh, c);
  }

  // A marked chunk is somewhere inside the free list.
  lemma {:induction false} MarkedInside(m: Mem, sh: Shape, y: nat) returns (i: nat)
    requires Inv(m, sh) && y in sh.starts && Marked(m, y)
    ensures y in sh.frees && 0 < i < |sh.frees| - 1 && sh.frees[i] == y && 0 < y != sh.wild
    ensures y < Nx(m, y) < |m| && Nx(m, y) in sh.starts && !Marked(m, Nx(m, y)) && m[y].w0 < |m| && m[y].w1 < |m|
  {
    assert MarkAt(m, sh, y);
    i := IndexOf(sh.frees, y);
    DisconnectInv(m, sh, i);
    Interior(m, sh, y);
  }

  // umm_assimilate_up with a free chunk behind: first that chunk leaves the free list.
  lemma {:induction false} UpFirst(m: Mem, sh: Shape, c: nat, i: nat) returns (m1: Mem, sh1: Shape)
    requires Inv(m, sh) && sh.Live(c) && 0 < i < |sh.frees| - 1 && c < |m| && Nx(m, c) == sh.frees[i] < |m|
    requires Marked(m, sh.frees[i]) && m[sh.frees[i]].w0 < |m| && m[sh.frees[i]].w1 < |m|
    ensures m1 == Disconnect(m, sh.frees[i]) && |m1| == |m| && sh1 == sh.(frees := Without(sh.frees, i))
    ensures Inv(m1, sh1) && Keeps(m, sh, m1, sh1, {}) && forall b: nat :: sh1.Live(b) <==> sh.Live(b) || b == sh.frees[i]
    ensures Nx(m1, c) == sh.frees[i] && !Marked(m1, c) && !Marked(m1, sh.frees[i]) && sh.frees[i] != sh.wild && c != sh.wild
    ensures c in sh.starts && 0 < c && !sh.Live(sh.frees[i]) && m1[c] == m[c]
    ensures forall b | 0 <= b < |m| :: Nx(m1, b) == Nx(m, b) && m1[b].prev == m[b].prev
    ensures forall b | 0 <= b < |m| && b != sh.frees[i] :: Marked(m1, b) == Marked(m, b)
    ensures forall k | c < k < Nx(m, c) :: m1[k] == m[k]
  {
    LiveNeighbours(m, sh, c);
    var j := MarkedInside(m, sh, sh.frees[i]);
    sh1 := sh.(frees := Without(sh.frees, i));
    m1 := DisconnectCells(m, sh, i);
    DisconnectInv(m, sh, i);
    assert MarkAt(m1, sh1, c) && MarkAt(m1, sh1, sh.frees[i]);
    assert SameLive(m, m1, c);
  }

  // Then the chunk before it swallows it.
  lemma {:induction false} UpInv(m: Mem, sh: Shape, c: nat, i: nat) returns (sh': Shape)
    requires Inv(m, sh) && sh.Live(c) && 0 < i < |sh.frees| - 1 && c < |m| && Nx(m, c) == sh.frees[i] < |m|
    requires Marked(m, sh.frees[i]) && m[sh.frees[i]].w0 < |m| && m[sh.frees[i]].w1 < |m|
    ensures var m1 := Disconnect(m, sh.frees[i]);
            && Nx(m1, c) == sh.frees[i] && Nx(m1, Nx(m1, c)) < |m| && !Marked(m1, c)
            && Inv(Join(m1, c), sh') && Keeps(m, sh, Join(m1, c), sh', {c}) && SameUsers(sh, sh') && sh'.wild == sh.wild
            && Grew(m, Join(m1, c), c) && Nx(Join(m1, c), c) < |m| && !Marked(Join(m1, c), Nx(Join(m1, c), c))
            && Nx(Join(m1, c), c) == Nx(m, Nx(m, c)) && sh'.starts == sh.starts - {sh.frees[i]}
            && forall b | b in sh'.starts && b < |m| && b != c ::
                 Nx(Join(m1, c), b) == Nx(m, b) && Marked(Join(m1, c), b) == Marked(m, b)
  {
    var y := sh.frees[i];
    var j := MarkedInside(m, sh, y);
    var m1, sh1 := UpFirst(m, sh, c, i);
    JoinInv(m1, sh1, c);
    var m2, y', z := JoinCells(m1, sh1, c);
    sh' := sh1.(starts := sh1.starts - {y});
    KeepsTwice(m, sh, m1, sh1, m2, sh', y, c);
  }

  lemma {:induction false} KeepsTwice(m: Mem, sh: Shape, m1: Mem, sh1: Shape, m2: Mem, sh2: Shape, y: nat, c: nat)
    requires Keeps(m, sh, m1, sh1, {}) && Keeps(m1, sh1, m2, sh2, {c, y}) && !sh.Live(y)
    ensures Keeps(m, sh, m2, sh2, {c})
  {
  }

  // umm_assimilate_down is a join, seen from the rear chunk.
  lemma {:induction false} DownIsJoin(m: Mem, sh: Shape, c: nat)
    requires Inv(m, sh) && sh.Live(c) && c < |m| && m[c].next < |m| && m[c].prev < |m|
    ensures Nx(m, m[c].prev) == c && Nx(m, c) < |m|
    ensures SetPrev(SetNext(m, m[c].prev, WithMask(m[c].next, Marked(m, m[c].prev))), m[c].next, m[c].prev)
         == Join(m, m[c].prev)
  {
    LiveNeighbours(m, sh, c);
    assert m[c].prev != m[c].next;
  }

  // The end of umm_free: the chunk joins the free one before it, or goes to the free list.
  lemma {:induction false} DownInv(m: Mem, sh: Shape, c: nat) returns (sh': Shape)
    requires Inv(m, sh) && sh.Live(c) && c < |m| && Nx(m, c) < |m| && !Marked(m, Nx(m, c)) && m[c].prev < |m|
    requires Marked(m, m[c].prev)
    ensures Nx(m, m[c].prev) < |m| && Nx(m, Nx(m, m[c].prev)) < |m|
    ensures Inv(Join(m, m[c].prev), sh') && Keeps(m, sh, Join(m, m[c].prev), sh', {c}) && sh'.wild == sh.wild
    ensures forall b: nat :: sh'.Live(b) <==> sh.Live(b) && b != c
  {
    LiveNeighbours(m, sh, c);
    var d := m[c].prev;
    assert MarkAt(m, sh, d);
    JoinInv(m, sh, d);
    sh' := sh.(starts := sh.starts - {c});
    assert !sh.Live(d);
  }

  // ---------------------------------------------------------------- what users see

  // The words of every live chunk, by its first block.
  ghost function LiveMap(m: Mem, sh: Shape): map<nat, seq<Word>> { LiveBelow(m, sh, |m|) }

  ghost function LiveBelow(m: Mem, sh: Shape, n: nat): map<nat, seq<Word>>
    requires n <= |m|
  {
    if n == 0 then map[] else
      var front := LiveBelow(m, sh, n - 1);
      if sh.Live(n - 1) && n - 1 < Nx(m, n - 1) <= |m| then front[n - 1 := Payload(m, n - 1, Nx(m, n - 1))] else front
  }

  lemma {:induction false} LiveBelowKeys(m: Mem, sh: Shape, n: nat)
    requires n <= |m|
    ensures forall b: nat :: b in LiveBelow(m, sh, n) <==> b < n && sh.Live(b) && b < Nx(m, b) <= |m|
    ensures forall b | b in LiveBelow(m, sh, n) :: LiveBelow(m, sh, n)[b] == Payload(m, b, Nx(m, b))
  {
    if n > 0 { LiveBelowKeys(m, sh, n - 1); }
  }

  lemma {:induction false} LiveKeys(m: Mem, sh: Shape)
    requires Inv(m, sh)
    ensures forall b: nat :: b in LiveMap(m, sh) <==> sh.Live(b)
    ensures forall b | b in LiveMap(m, sh) :: b < |m| && b < Nx(m, b) < |m| && LiveMap(m, sh)[b] == Payload(m, b, Nx(m, b))
  {
    LiveBelowKeys(m, sh, |m|);
    forall b: nat | sh.Live(b) ensures b < Nx(m, b) < |m| { LiveNeighbours(m, sh, b); }
  }

  lemma {:induction false} LiveLength(m: Mem, sh: Shape, c: nat)
    requires Inv(m, sh) && (sh.Live(c) || c in LiveMap(m, sh))
    ensures sh.Live(c) && c < Nx(m, c) < |m| && c in LiveMap(m, sh)
    ensures LiveMap(m, sh)[c] == Payload(m, c, Nx(m, c)) && |LiveMap(m, sh)[c]| == 4 * (Nx(m, c) - c) - 2
  {
    LiveKeys(m, sh);
  }

  lemma {:induction false} KeptWords(m: Mem, sh: Shape, m': Mem, sh': Shape, except: set<nat>)
    requires Inv(m, sh) && Inv(m', sh') && Keeps(m, sh, m', sh', except)
    ensures forall b | b in LiveMap(m, sh) && b !in except ::
              b in LiveMap(m', sh') && LiveMap(m', sh')[b] == LiveMap(m, sh)[b]
  {
    LiveKeys(m, sh);
    LiveKeys(m', sh');
    forall b | b in LiveMap(m, sh) && b !in except
      ensures b in LiveMap(m', sh') && LiveMap(m', sh')[b] == LiveMap(m, sh)[b]
    {
      SameWords(m, m', b, Nx(m, b));
    }
  }

  // Only the words of live chunk `b` may differ.
  ghost predicate UserOnly(m: Mem, m': Mem, b: nat) {
    && |m'| == |m| && b < |m| && m'[b].next == m[b].next && m'[b].prev == m[b].prev
    && forall k | 0 <= k < |m| && !(b <= k < Nx(m, b)) :: m'[k] == m[k]
  }

  // A user that stays inside its chunk does not damage anything.
  lemma {:induction false} UserWrites(m: Mem, m': Mem, sh: Shape, b: nat)
    requires Inv(m, sh) && sh.Live(b) && UserOnly(m, m', b)
    ensures Inv(m', sh) && Keeps(m, sh, m', sh, {b}) && Nx(m', b) == Nx(m, b)
  {
    UserHeaders(m, m', sh, b);
    forall x | x in sh.starts ensures ChunkAt(m', sh, x) { assert ChunkAt(m, sh, x); }
    forall x, y | x in sh.starts && y in sh.starts ensures ApartAt(m', x, y) { assert ApartAt(m, x, y); }
    forall i | 0 <= i < |sh.frees| - 1 ensures LinkAt(m', sh.frees, i) {
      assert LinkAt(m, sh.frees, i) && sh.frees[i] in sh.frees && sh.frees[i + 1] in sh.frees;
    }
    forall x | x in sh.starts && x < |m'| ensures MarkAt(m', sh, x) {
      assert MarkAt(m, sh, x);
      if x != sh.wild { Interior(m, sh, x); }
    }
    forall x: nat | sh.Live(x) && x != b ensures SameLive(m, m', x) {
      Interior(m, sh, x);
      if x < b { assert ApartAt(m, x, b); } else { assert ApartAt(m, b, x); }
    }
  }

  lemma {:induction false} UserHeaders(m: Mem, m': Mem, sh: Shape, b: nat)
    requires Inv(m, sh) && sh.Live(b) && UserOnly(m, m', b)
    ensures forall x | x in sh.starts :: x < |m| && m'[x].next == m[x].next && m'[x].prev == m[x].prev
    ensures forall x | x in sh.starts && x != b :: m'[x] == m[x]
  {
    Interior(m, sh, b);
  }

  // `len` blocks of words move from chunk `c` to chunk `d`.
  function Copied(m: Mem, d: nat, c: nat, len: nat): Mem
    requires c + len <= |m| && d + len <= |m| && len > 0
  {
    seq(|m|, b requires 0 <= b < |m| =>
      if b == d then m[d].(w0 := m[c].w0, w1 := m[c].w1)
      else if d < b < d + len then m[c + (b - d)] else m[b])
  }

  lemma {:induction false} CopiedPayload(m: Mem, d: nat, c: nat, len: nat)
    requires c + len <= |m| && d + len <= |m| && len > 0
    ensures Payload(Copied(m, d, c, len), d, d + len) == Payload(m, c, c + len)
  {
    var m' := Copied(m, d, c, len);
    var to, from := Payload(m', d, d + len), Payload(m, c, c + len);
    forall i | 0 <= i < 4 * len - 2 ensures to[i] == from[i] {
      var k := (i + 2) / 4;
      assert 0 <= k < len;
      if k > 0 { assert m'[d + k] == m[c + k]; }
    }
  }

  // The first blocks of a chunk hold the first words.
  lemma {:induction false} PayloadPrefix(m: Mem, b: nat, e: nat, e': nat)
    requires b < e <= e' <= |m|
    ensures Payload(m, b, e) == Payload(m, b, e')[..4 * (e - b) - 2]
  {
  }

  // One more chunk is live, and the others are as before.
  ghost predicate LivePlus(a: map<nat, seq<Word>>, b: map<nat, seq<Word>>, p: nat) {
    p !in a && b.Keys == a.Keys + {p} && forall q | q in a :: b[q] == a[q]
  }

  lemma {:induction false} UsersPlus(m: Mem, sh: Shape, m': Mem, sh': Shape, p: nat, k: nat)
    requires Inv(m, sh) && Inv(m', sh') && !sh.Live(p) && k > 0
    requires Keeps(m, sh, m', sh', {}) || Keeps(m, sh, m', sh', {p})
    requires forall b: nat :: sh'.Live(b) <==> sh.Live(b) || b == p
    requires p < |m'| && Nx(m', p) == p + k
    ensures LivePlus(LiveMap(m, sh), LiveMap(m', sh'), p) && |LiveMap(m', sh')[p]| == 4 * k - 2
  {
    LiveKeys(m, sh);
    LiveKeys(m', sh');
    assert Keeps(m, sh, m', sh', {p});
    KeptWords(m, sh, m', sh', {p});
  }

  // Giving a chunk back takes it, and nothing else, from the users.
  lemma {:induction false} UsersMinus(m: Mem, sh: Shape, m': Mem, sh': Shape, p: nat)
    requires Inv(m, sh) && Inv(m', sh') && Keeps(m, sh, m', sh', {p})
    requires forall b: nat :: sh'.Live(b) <==> sh.Live(b) && b != p
    ensures LiveMap(m', sh') == LiveMap(m, sh) - {p}
  {
    LiveKeys(m, sh);
    LiveKeys(m', sh');
    KeptWords(m, sh, m', sh', {p});
  }

  // Chunk `c` became chunk `d`, and its first `n` words came along.
  ghost predicate LiveMoved(a: map<nat, seq<Word>>, b: map<nat, seq<Word>>, c: nat, d: nat, n: nat) {
    && c in a && LivePlus(a - {c}, b, d)
    && n <= |a[c]| && n <= |b[d]| && b[d][..n] == a[c][..n]
  }

  lemma {:induction false} OthersKept(m: Mem, sh: Shape, m': Mem, sh': Shape, c: nat, d: nat)
    requires Inv(m, sh) && Inv(m', sh') && sh.Live(c) && Keeps(m, sh, m', sh', {c}) && (d == c || !sh.Live(d))
    requires forall b: nat :: sh'.Live(b) <==> (sh.Live(b) && b != c) || b == d
    ensures LivePlus(LiveMap(m, sh) - {c}, LiveMap(m', sh'), d)
  {
    LiveKeys(m, sh);
    LiveKeys(m', sh');
    KeptWords(m, sh, m', sh', {c});
  }

  // Equal payloads are equal words at the start of two chunks.
  lemma {:induction false} SameStart(m: Mem, sh: Shape, m': Mem, sh': Shape, c: nat, d: nat, len: nat)
    requires Inv(m, sh) && Inv(m', sh') && sh.Live(c) && sh'.Live(d)
    requires 0 < len && c + len <= |m| && d + len <= |m'| && c + len <= Nx(m, c) && d + len <= Nx(m', d)
    requires Payload(m', d, d + len) == Payload(m, c, c + len)
    ensures c in LiveMap(m, sh) && d in LiveMap(m', sh')
    ensures 4 * len - 2 <= |LiveMap(m, sh)[c]| && 4 * len - 2 <= |LiveMap(m', sh')[d]|
    ensures LiveMap(m', sh')[d][..4 * len - 2] == LiveMap(m, sh)[c][..4 * len - 2]
  {
    LiveLength(m, sh, c);
    LiveLength(m', sh', d);
    PayloadPrefix(m, c, c + len, Nx(m, c));
    PayloadPrefix(m', d, d + len, Nx(m', d));
  }

  lemma {:induction false} UsersMoved(m: Mem, sh: Shape, m': Mem, sh': Shape, c: nat, d: nat, len: nat)
    requires Inv(m, sh) && Inv(m', sh') && sh.Live(c) && Keeps(m, sh, m', sh', {c}) && (d == c || !sh.Live(d))
    requires forall b: nat :: sh'.Live(b) <==> (sh.Live(b) && b != c) || b == d
    requires 0 < len && c + len <= |m| && d + len <= |m'| && c + len <= Nx(m, c) && d + len <= Nx(m', d)
    requires Payload(m', d, d + len) == Payload(m, c, c + len)
    ensures LiveMoved(LiveMap(m, sh), LiveMap(m', sh'), c, d, 4 * len - 2)
  {
    OthersKept(m, sh, m', sh', c, d);
    SameStart(m, sh, m', sh', c, d, len);
  }

  lemma {:induction false} UsersGrew(m: Mem, sh: Shape, m': Mem, sh': Shape, c: nat)
    requires Inv(m, sh) && Inv(m', sh') && sh.Live(c) && Keeps(m, sh, m', sh', {c}) && SameUsers(sh, sh')
    requires Grew(m, m', c)
    ensures c < Nx(m, c)
    ensures LiveMoved(LiveMap(m, sh), LiveMap(m', sh'), c, c, 4 * (Nx(m, c) - c) - 2)
  {
    LiveNeighbours(m, sh, c);
    LiveNeighbours(m', sh', c);
    SameWords(m, m', c, Nx(m, c));
    UsersMoved(m, sh, m', sh', c, c, Nx(m, c) - c);
  }

  // The free chunk before `c` leaves the free list and swallows `c`.
  lemma {:induction false} MergeDown(m: Mem, sh: Shape, c: nat, i: nat) returns (m2: Mem, sh2: Shape)
    requires Inv(m, sh) && sh.Live(c) && c < |m| && 0 < i < |sh.frees| - 1 && sh.frees[i] == m[c].prev < |m|
    requires Marked(m, m[c].prev) && m[m[c].prev].w0 < |m| && m[m[c].prev].w1 < |m|
    ensures var d := m[c].prev;
            var m1 := Disconnect(m, d);
            && d < c < Nx(m, c) < |m|
            && Inv(m1, sh.(frees := Without(sh.frees, i))) && sh.(frees := Without(sh.frees, i)).Live(c)
            && m1[c].prev == d && !Marked(m1, d) && Nx(m1, d) == c && Nx(m1, c) == Nx(m, c)
            && m2 == Join(m1, d) && Inv(m2, sh2) && Nx(m2, d) == Nx(m, c) && !sh.Live(d)
            && Keeps(m, sh, m2, sh2, {c}) && (forall b: nat :: sh2.Live(b) <==> (sh.Live(b) && b != c) || b == d)
            && m2[c].w0 == m[c].w0 && m2[c].w1 == m[c].w1 && (forall k | c < k < Nx(m, c) :: m2[k] == m[k])
  {
    var d := m[c].prev;
    LiveNeighbours(m, sh, c);
    var sh1 := sh.(frees := Without(sh.frees, i));
    var m1 := DisconnectCells(m, sh, i);
    DisconnectInv(m, sh, i);
    LiveNeighbours(m1, sh1, d);
    JoinInv(m1, sh1, d);
    var _, y, z := JoinCells(m1, sh1, d);
    m2, sh2 := Join(m1, d), sh1.(starts := sh1.starts - {c});
    Interior(m, sh, c);
  }

  // umm_realloc into the free chunk before `c`: the first `len` blocks of words move along.
  lemma {:induction false} MoveInv(m: Mem, sh: Shape, m2: Mem, sh2: Shape, c: nat, d: nat, len: nat)
    requires Inv(m, sh) && sh.Live(c) && Inv(m2, sh2) && d < c < Nx(m, c) < |m| == |m2|
    requires Nx(m2, d) == Nx(m, c) && !sh.Live(d) && 0 < len && c + len <= Nx(m, c)
    requires Keeps(m, sh, m2, sh2, {c}) && forall b: nat :: sh2.Live(b) <==> (sh.Live(b) && b != c) || b == d
    requires m2[c].w0 == m[c].w0 && m2[c].w1 == m[c].w1 && (forall k | c < k < Nx(m, c) :: m2[k] == m[k])
    ensures var m3 := Copied(m2, d, c, len);
            && Inv(m3, sh2) && Nx(m3, d) == Nx(m, c)
            && LiveMoved(LiveMap(m, sh), LiveMap(m3, sh2), c, d, 4 * len - 2)
  {
    var m3 := Copied(m2, d, c, len);
    UserWrites(m2, m3, sh2, d);
    SameWords(m, m2, c, c + len);
    CopiedPayload(m2, d, c, len);
    forall b: nat | sh.Live(b) && b != c ensures sh2.Live(b) && SameLive(m, m3, b) {
      assert SameLive(m, m2, b) && SameLive(m2, m3, b);
    }
    UsersMoved(m, sh, m3, sh2, c, d, len);
  }

  // ---------------------------------------------------------------- consequences

  // Live chunks lie inside the heap and do not overlap, headers included.
  lemma {:induction false} LiveDisjoint(m: Mem, sh: Shape, p: nat, q: nat)
    requires Inv(m, sh) && sh.Live(p) && sh.Live(q) && p < q
    ensures q < |m| && 0 < p < Nx(m, p) <= q < Nx(m, q) <= sh.wild < |m|
  {
    LiveNeighbours(m, sh, p);
    LiveNeighbours(m, sh, q);
    assert ApartAt(m, p, q);
  }

  // When everything has been given back, there is at most one free chunk, and it reaches from
  // the first block to the wilderness.
  lemma {:induction false} AllGivenBack(m: Mem, sh: Shape)
    requires Inv(m, sh) && forall b: nat :: !sh.Live(b)
    ensures sh.starts == {0, 1, sh.wild} && |sh.frees| <= 3
    ensures sh.wild != 1 ==> Nx(m, 1) == sh.wild && Marked(m, 1)
  {
    if sh.wild != 1 {
      assert !sh.Live(1) && MarkAt(m, sh, 1) && ChunkAt(m, sh, 1);
      var y := Nx(m, 1);
      assert !sh.Live(y) && MarkAt(m, sh, y);
    }
    forall x | x in sh.starts ensures x in {0, 1, sh.wild} {
      if x > 1 && sh.wild != 1 { assert ApartAt(m, 1, x); }
    }
    var f := sh.frees;
    forall i | 0 < i < |f| - 1 ensures f[i] == 1 {
      assert f[i] in f && f[0] != f[i] && f[i] != f[|f| - 1];
    }
    var last := |f| - 2;
    assert |f| > 2 ==> f[last] == f[1];
    assert |f| > 2 ==> last == 1;
  }
}
