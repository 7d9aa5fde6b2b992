/**
  What each step of the allocator does to the shape of the heap, and that it leaves the
  chunks of the users alone.
 */
module UmmShape {
  import opened UmmBlocks

  // ---------------------------------------------------------------- payloads

  // The user's words in the chunk from `b` up to block `e`.
  function Payload(m: Mem, b: nat, e: nat): (r: seq<Word>)
    requires b < e <= |m|
    ensures |r| == 4 * (e - b) - 2
  {
    seq(4 * (e - b) - 2, i requires 0 <= i < 4 * (e - b) - 2 => m[b + (i + 2) / 4].At((i + 2) % 4))
  }

  // Chunk `b` belongs to a user before and after, with the same contents.
  ghost predicate SameLive(m: Mem, m': Mem, b: nat) {
    && |m'| == |m| && b < |m|
    && m'[b].next == m[b].next && m'[b].w0 == m[b].w0 && m'[b].w1 == m[b].w1
    && forall k | b < k < Nx(m, b) && k < |m| :: m'[k] == m[k]
  }

  lemma {:induction false} SameWords(m: Mem, m': Mem, b: nat, e: nat)
    requires b < e <= |m| && |m'| == |m| && m'[b].w0 == m[b].w0 && m'[b].w1 == m[b].w1
    requires forall k | b < k < e :: m'[k] == m[k]
    ensures Payload(m', b, e) == Payload(m, b, e)
  {
    forall i | 0 <= i < 4 * (e - b) - 2 ensures Payload(m', b, e)[i] == Payload(m, b, e)[i] {
      if i >= 2 { assert m'[b + (i + 2) / 4] == m[b + (i + 2) / 4]; }
    }
  }

  // The live chunks, except some, stay as they are.
  ghost predicate Keeps(m: Mem, sh: Shape, m': Mem, sh': Shape, except: set<nat>) {
    forall b: nat | sh.Live(b) && b !in except :: sh'.Live(b) && SameLive(m, m', b)
  }

  // ---------------------------------------------------------------- frames

  // The chain is in the headers, whatever the masks.
  lemma {:induction false} ChainFrame(m: Mem, m': Mem, sh: Shape, f: seq<nat>)
    requires Chained(m, sh) && |m'| == |m|
    requires forall b | 0 <= b < |m| :: Nx(m', b) == Nx(m, b) && m'[b].prev == m[b].prev
    ensures Chained(m', sh.(frees := f))
  {
    var sh' := sh.(frees := f);
    forall b | b in sh'.starts ensures ChunkAt(m', sh', b) { assert ChunkAt(m, sh, b); }
    forall b, x | b in sh'.starts && x in sh'.starts ensures ApartAt(m', b, x) { assert ApartAt(m, b, x); }
  }

  function Without(f: seq<nat>, i: nat): seq<nat>
    requires i < |f|
  {
    f[..i] + f[i + 1..]
  }

  lemma {:induction false} Interior(m: Mem, sh: Shape, b: nat)
    requires Chained(m, sh) && b in sh.starts
    ensures b < |m| && forall k: nat | b < k < Nx(m, b) :: k !in sh.starts
    ensures b != sh.wild ==> b < Nx(m, b) < |m| && Nx(m, b) in sh.starts
  {
    assert ChunkAt(m, sh, b);
    forall k | k in sh.starts ensures !(b < k < Nx(m, b)) { assert ApartAt(m, b, k); }
  }

  // ---------------------------------------------------------------- taking from the free list

  // The cells that umm_disconnect_from_free_list changes.
  lemma {:induction false} DisconnectCells(m: Mem, sh: Shape, i: nat) returns (m': Mem)
    requires Listed(m, sh) && 0 < i < |sh.frees| - 1
    ensures var c, l, r := sh.frees[i], sh.frees[i - 1], sh.frees[i + 1];
            && c < |m| && m[c].w0 == r < |m| && m[c].w1 == l < |m| && m' == Disconnect(m, c) && |m'| == |m|
            && (forall b | 0 <= b < |m| && b != l && b != r && b != c :: m'[b] == m[b])
            && m'[l] == m[l].(w0 := r) && m'[r] == m[r].(w1 := l) && m'[c] == m[c].(next := Nx(m, c))
            && c != l && c != r && l != r && c in sh.starts && l in sh.starts && r in sh.starts
            && c in sh.frees && l in sh.frees && r in sh.frees
  {
    assert LinkAt(m, sh.frees, i - 1) && LinkAt(m, sh.frees, i);
    m' := Disconnect(m, sh.frees[i]);
  }

  lemma {:induction false} DisconnectListed(m: Mem, sh: Shape, i: nat, m': Mem)
    requires Listed(m, sh) && 0 < i < |sh.frees| - 1
    requires var c := sh.frees[i];
             c < |m| && m[c].w0 < |m| && m[c].w1 < |m| && m' == Disconnect(m, c)
    ensures Listed(m', sh.(frees := Without(sh.frees, i)))
  {
    var m'' := DisconnectCells(m, sh, i);
    var f, g := sh.frees, Without(sh.frees, i);
    WithoutMembers(f, i);
    forall j | 0 <= j < |g| - 1 ensures LinkAt(m', g, j) {
      var k := if j < i then j else j + 1;
      assert g[j] == f[k] && g[j + 1] == f[if j + 1 < i then j + 1 else j + 2];
      assert LinkAt(m, f, k);
    }
    assert f[0] != f[|f| - 1];
  }

  lemma {:induction false} DisconnectInv(m: Mem, sh: Shape, i: nat)
    requires Inv(m, sh) && 0 < i < |sh.frees| - 1
    ensures var c := sh.frees[i];
            && c < |m| && m[c].w0 < |m| && m[c].w1 < |m|
            && Inv(Disconnect(m, c), sh.(frees := Without(sh.frees, i)))
            && Keeps(m, sh, Disconnect(m, c), sh.(frees := Without(sh.frees, i)), {})
    ensures forall b: nat :: sh.(frees := Without(sh.frees, i)).Live(b) <==> sh.Live(b) || b == sh.frees[i]
  {
    var m' := DisconnectCells(m, sh, i);
    DisconnectListed(m, sh, i, m');
    var sh' := sh.(frees := Without(sh.frees, i));
    assert sh.frees[0] != sh.frees[i] && sh.frees[i] != sh.frees[|sh.frees| - 1];
    ChainFrame(m, m', sh, sh'.frees);
    WithoutMembers(sh.frees, i);
    DisconnectMarked(m, sh, i, m');
    DisconnectKeeps(m, sh, i, m');
  }

  lemma {:induction false} DisconnectMarked(m: Mem, sh: Shape, i: nat, m': Mem)
    requires Inv(m, sh) && 0 < i < |sh.frees| - 1
    requires var c := sh.frees[i];
             c < |m| && m[c].w0 < |m| && m[c].w1 < |m| && m' == Disconnect(m, c)
    ensures MarkedOk(m', sh.(frees := Without(sh.frees, i)))
  {
    var sh' := sh.(frees := Without(sh.frees, i));
    var m'' := DisconnectCells(m, sh, i);
    WithoutMembers(sh.frees, i);
    forall b | b in sh'.starts && b < |m'| ensures MarkAt(m', sh', b) { assert MarkAt(m, sh, b); }
  }

  lemma {:induction false} DisconnectKeeps(m: Mem, sh: Shape, i: nat, m': Mem)
    requires Inv(m, sh) && 0 < i < |sh.frees| - 1
    requires var c := sh.frees[i];
             c < |m| && m[c].w0 < |m| && m[c].w1 < |m| && m' == Disconnect(m, c)
    ensures Keeps(m, sh, m', sh.(frees := Without(sh.frees, i)), {})
    ensures sh.(frees := Without(sh.frees, i)).Live(sh.frees[i])
  {
    var f, sh' := sh.frees, sh.(frees := Without(sh.frees, i));
    var m'' := DisconnectCells(m, sh, i);
    WithoutMembers(f, i);
    assert f[0] != f[i] && f[i] != f[|f| - 1];
    forall b: nat | sh.Live(b) ensures sh'.Live(b) && SameLive(m, m', b) {
      Interior(m, sh, b);
    }
  }

  lemma {:induction false} WithoutMembers(f: seq<nat>, i: nat)
    requires i < |f| && NoneTwice(f)
    ensures forall x :: x in Without(f, i) <==> x in f && x != f[i]
    ensures NoneTwice(Without(f, i))
  {
    var g := Without(f, i);
    forall x | x in f && x != f[i] ensures x in g {
      var j :| 0 <= j < |f| && f[j] == x;
      assert g[if j < i then j else j - 1] == x;
    }
    forall x | x in g ensures x in f && x != f[i] {
      var j :| 0 <= j < |g| && g[j] == x;
      assert x == f[if j < i then j else j + 1];
    }
  }

  // ---------------------------------------------------------------- splitting and joining

  lemma {:induction false} SplitCells(m: Mem, sh: Shape, c: nat, k: nat, mask: bool) returns (m': Mem)
    requires Chained(m, sh) && c in sh.starts && c != sh.wild && 0 < k && c + k < Nx(m, c)
    ensures Nx(m, c) < |m| && m' == MakeNew(m, c, k, mask) && |m'| == |m| && c + k !in sh.starts
    ensures forall b | 0 <= b < |m| && b != c && b != c + k && b != Nx(m, c) :: m'[b] == m[b]
    ensures m'[c] == m[c].(next := WithMask(c + k, mask)) && m'[c + k] == m[c + k].(next := Nx(m, c), prev := c)
    ensures m'[Nx(m, c)] == m[Nx(m, c)].(prev := c + k)
    ensures forall b | 0 <= b < |m| && b != c && b != c + k :: Nx(m', b) == Nx(m, b) && Marked(m', b) == Marked(m, b)
    ensures Nx(m', c) == c + k && Nx(m', c + k) == Nx(m, c) && !Marked(m', c + k) && Marked(m', c) == mask
  {
    Interior(m, sh, c);
    m' := MakeNew(m, c, k, mask);
  }

  lemma {:induction false} SplitChunks(m: Mem, sh: Shape, c: nat, k: nat, mask: bool, b: nat)
    requires Chained(m, sh) && c in sh.starts && c != sh.wild && 0 < k && c + k < Nx(m, c) < |m|
    requires b in sh.starts || b == c + k
    ensures ChunkAt(MakeNew(m, c, k, mask), sh.(starts := sh.starts + {c + k}), b)
  {
    var m' := SplitCells(m, sh, c, k, mask);
    assert ChunkAt(m, sh, c);
    if b != c + k { assert ChunkAt(m, sh, b); }
  }

  lemma {:induction false} SplitApart(m: Mem, sh: Shape, c: nat, k: nat, mask: bool, b: nat, y: nat)
    requires Chained(m, sh) && c in sh.starts && c != sh.wild && 0 < k && c + k < Nx(m, c) < |m|
    requires (b in sh.starts || b == c + k) && (y in sh.starts || y == c + k)
    ensures ApartAt(MakeNew(m, c, k, mask), b, y)
  {
    var x := c + k;
    var m' := SplitCells(m, sh, c, k, mask);
    assert ApartAt(m, if b == x then c else b, if y == x then c else y);
    if y == x && b > c && b != x { assert ApartAt(m, c, b); }
  }

  lemma {:induction false} SplitChained(m: Mem, sh: Shape, c: nat, k: nat, mask: bool)
    requires Chained(m, sh) && c in sh.starts && c != sh.wild && 0 < k && c + k < Nx(m, c) < |m|
    ensures Chained(MakeNew(m, c, k, mask), sh.(starts := sh.starts + {c + k}))
  {
    var m' := SplitCells(m, sh, c, k, mask);
    var sh' := sh.(starts := sh.starts + {c + k});
    Interior(m, sh, c);
    forall b | b in sh'.starts ensures ChunkAt(m', sh', b) { SplitChunks(m, sh, c, k, mask, b); }
    forall b, y | b in sh'.starts && y in sh'.starts ensures ApartAt(m', b, y) { SplitApart(m, sh, c, k, mask, b, y); }
    assert ApartAt(m, c, 1) && ChunkAt(m, sh, 0);
  }

  lemma {:induction false} SplitMarked(m: Mem, sh: Shape, c: nat, k: nat)
    requires Inv(m, sh) && c in sh.starts && c != sh.wild && 0 < k && c + k < Nx(m, c) < |m|
    ensures MarkedOk(MakeNew(m, c, k, Marked(m, c)), sh.(starts := sh.starts + {c + k}))
  {
    var m' := SplitCells(m, sh, c, k, Marked(m, c));
    var x, sh' := c + k, sh.(starts := sh.starts + {c + k});
    assert x !in sh.frees;
    assert MarkAt(m, sh, c);
    forall b | b in sh'.starts && b < |m'| ensures MarkAt(m', sh', b) {
      if b != x { assert MarkAt(m, sh, b); }
      if b != x && b != sh.wild { Interior(m, sh, b); }
    }
  }

  // umm_make_new_block cuts a chunk in two; the rear part carries no mask.
  lemma {:induction false} SplitInv(m: Mem, sh: Shape, c: nat, k: nat)
    requires Inv(m, sh) && c in sh.starts && c != sh.wild && 0 < k && c + k < Nx(m, c)
    ensures Nx(m, c) < |m|
    ensures Inv(MakeNew(m, c, k, Marked(m, c)), sh.(starts := sh.starts + {c + k}))
    ensures Keeps(m, sh, MakeNew(m, c, k, Marked(m, c)), sh.(starts := sh.starts + {c + k}), {c})
    ensures forall b: nat :: sh.(starts := sh.starts + {c + k}).Live(b) <==> sh.Live(b) || b == c + k
  {
    var m' := SplitCells(m, sh, c, k, Marked(m, c));
    var sh' := sh.(starts := sh.starts + {c + k});
    SplitChained(m, sh, c, k, Marked(m, c));
    SplitMarked(m, sh, c, k);
    forall i | 0 <= i < |sh.frees| - 1 ensures LinkAt(m', sh'.frees, i) { assert LinkAt(m, sh.frees, i); }
    assert Listed(m', sh');
    SplitKeeps(m, sh, c, k);
  }

  lemma {:induction false} SplitKeeps(m: Mem, sh: Shape, c: nat, k: nat)
    requires Inv(m, sh) && c in sh.starts && c != sh.wild && 0 < k && c + k < Nx(m, c) < |m|
    ensures Keeps(m, sh, MakeNew(m, c, k, Marked(m, c)), sh.(starts := sh.starts + {c + k}), {c})
  {
    var m' := SplitCells(m, sh, c, k, Marked(m, c));
    var sh' := sh.(starts := sh.starts + {c + k});
    Interior(m, sh, c);
    forall b: nat | sh.Live(b) && b != c ensures sh'.Live(b) && SameLive(m, m', b) {
      Interior(m, sh, b);
      if b < c { assert ApartAt(m, b, c); } else { assert ApartAt(m, c, b); }
    }
  }

  lemma {:induction false} JoinCells(m: Mem, sh: Shape, d: nat) returns (m': Mem, y: nat, z: nat)
    requires Chained(m, sh) && d in sh.starts && d != sh.wild && Nx(m, d) != sh.wild
    ensures d < y < z < |m| && Nx(m, d) == y && Nx(m, y) == z && y in sh.starts && z in sh.starts
    ensures m' == Join(m, d) && |m'| == |m|
    ensures forall b | 0 <= b < |m| && b != d && b != z :: m'[b] == m[b]
    ensures m'[d] == m[d].(next := WithMask(z, Marked(m, d))) && m'[z] == m[z].(prev := d)
    ensures forall b | 0 <= b < |m| && b != d :: Nx(m', b) == Nx(m, b)
    ensures Nx(m', d) == z && forall b | 0 <= b < |m| :: Marked(m', b) == Marked(m, b)
  {
    Interior(m, sh, d);
    y := Nx(m, d);
    Interior(m, sh, y);
    z := Nx(m, y);
    m' := Join(m, d);
  }

  lemma {:induction false} JoinChunks(m: Mem, sh: Shape, d: nat, b: nat)
    requires Chained(m, sh) && 0 < d && d in sh.starts && d != sh.wild && Nx(m, d) != sh.wild && Nx(m, d) < |m|
    requires b in sh.starts && b != Nx(m, d) && Nx(m, Nx(m, d)) < |m|
    ensures ChunkAt(Join(m, d), sh.(starts := sh.starts - {Nx(m, d)}), b)
  {
    var m', y, z := JoinCells(m, sh, d);
    assert ChunkAt(m, sh, d) && ChunkAt(m, sh, y) && ChunkAt(m, sh, b);
  }

  lemma {:induction false} JoinApart(m: Mem, sh: Shape, d: nat, b: nat, x: nat)
    requires Chained(m, sh) && 0 < d && d in sh.starts && d != sh.wild && Nx(m, d) != sh.wild && Nx(m, d) < |m|
    requires b in sh.starts && x in sh.starts && b != Nx(m, d) && x != Nx(m, d) && Nx(m, Nx(m, d)) < |m|
    ensures ApartAt(Join(m, d), b, x)
  {
    var m', y, z := JoinCells(m, sh, d);
    assert ApartAt(m, b, x) && ApartAt(m, y, x);
  }

  lemma {:induction false} JoinChained(m: Mem, sh: Shape, d: nat)
    requires Chained(m, sh) && 0 < d && d in sh.starts && d != sh.wild && Nx(m, d) != sh.wild
    ensures Nx(m, d) < |m| && Nx(m, Nx(m, d)) < |m|
    ensures Chained(Join(m, d), sh.(starts := sh.starts - {Nx(m, d)}))
  {
    var m', y, z := JoinCells(m, sh, d);
    var sh' := sh.(starts := sh.starts - {y});
    forall b | b in sh'.starts ensures ChunkAt(m', sh', b) { JoinChunks(m, sh, d, b); }
    forall b, x | b in sh'.starts && x in sh'.starts ensures ApartAt(m', b, x) { JoinApart(m, sh, d, b, x); }
    assert ChunkAt(m, sh, 0);
  }

  // A chunk swallows the unmarked chunk behind it.
  lemma {:induction false} JoinInv(m: Mem, sh: Shape, d: nat)
    requires Inv(m, sh) && 0 < d && d in sh.starts && d != sh.wild && Nx(m, d) != sh.wild && Nx(m, d) < |m|
    requires !Marked(m, Nx(m, d)) && Nx(m, Nx(m, d)) < |m|
    requires Marked(m, d) ==> !Marked(m, Nx(m, Nx(m, d)))
    ensures Inv(Join(m, d), sh.(starts := sh.starts - {Nx(m, d)}))
    ensures Keeps(m, sh, Join(m, d), sh.(starts := sh.starts - {Nx(m, d)}), {d, Nx(m, d)})
    ensures forall b: nat :: sh.(starts := sh.starts - {Nx(m, d)}).Live(b) <==> sh.Live(b) && b != Nx(m, d)
  {
    var m', y, z := JoinCells(m, sh, d);
    var sh' := sh.(starts := sh.starts - {y});
    JoinChained(m, sh, d);
    assert MarkAt(m, sh, y) && MarkAt(m, sh, d);
    forall i | 0 <= i < |sh.frees| - 1 ensures LinkAt(m', sh'.frees, i) { assert LinkAt(m, sh.frees, i); }
    assert Listed(m', sh');
    forall b | b in sh'.starts && b < |m'| ensures MarkAt(m', sh', b) {
      assert MarkAt(m, sh, b);
      if b != sh.wild { Interior(m, sh, b); }
    }
    forall b: nat | sh.Live(b) && b != d && b != y ensures sh'.Live(b) && SameLive(m, m', b) { Interior(m, sh, b); }
  }

  // ---------------------------------------------------------------- giving back

  lemma {:induction false} PushCells(m: Mem, sh: Shape, c: nat) returns (m': Mem, r: nat)
    requires Inv(m, sh) && sh.Live(c)
    ensures r == sh.frees[1] == m[0].w0 && r < |m| && 0 < c < |m| && r in sh.frees && r != 0 && c != r && !Marked(m, c)
    ensures m' == PushHead(m, c) && |m'| == |m|
    ensures forall b | 0 <= b < |m| && b != 0 && b != c && b != r :: m'[b] == m[b]
    ensures m'[0] == m[0].(w0 := c) && m'[r] == m[r].(w1 := c)
    ensures m'[c] == m[c].(w0 := r, w1 := 0, next := m[c].next + FREE_MASK)
  {
    assert LinkAt(m, sh.frees, 0);
    assert ChunkAt(m, sh, c) && MarkAt(m, sh, c);
    r := sh.frees[1];
    m' := PushHead(m, c);
  }

  function Pushed(f: seq<nat>, c: nat): seq<nat>
    requires |f| > 0
  {
    [f[0], c] + f[1..]
  }

  lemma {:induction false} PushListed(m: Mem, sh: Shape, c: nat, m': Mem)
    requires Inv(m, sh) && sh.Live(c) && c < |m| && m[0].w0 < |m| && m' == PushHead(m, c)
    ensures Listed(m', sh.(frees := Pushed(sh.frees, c)))
  {
    var m'', r := PushCells(m, sh, c);
    var f, g := sh.frees, Pushed(sh.frees, c);
    forall j | 0 <= j < |g| - 1 ensures LinkAt(m', g, j) {
      if j >= 2 {
        assert g[j] == f[j - 1] && g[j + 1] == f[j];
        assert LinkAt(m, f, j - 1);
        assert f[0] != f[j - 1] && f[1] != f[j];
        assert f[j - 1] in f && f[j] in f;
      }
    }
    forall i, j | 0 <= i < j < |g| ensures g[i] != g[j] {
      assert j >= 2 ==> g[j] == f[j - 1] && g[j] in f;
      assert i >= 2 ==> g[i] == f[i - 1];
    }
    assert g[|g| - 1] == f[|f| - 1];
  }

  lemma {:induction false} PushMarked(m: Mem, sh: Shape, c: nat)
    requires Inv(m, sh) && sh.Live(c) && c < |m| && Nx(m, c) < |m| && m[c].prev < |m|
    requires !Marked(m, Nx(m, c)) && !Marked(m, m[c].prev) && m[0].w0 < |m|
    ensures MarkedOk(PushHead(m, c), sh.(frees := Pushed(sh.frees, c)))
    ensures forall x :: x in Pushed(sh.frees, c) <==> x in sh.frees || x == c
  {
    var m', r := PushCells(m, sh, c);
    var sh' := sh.(frees := Pushed(sh.frees, c));
    assert forall x :: x in sh'.frees <==> x in sh.frees || x == c;
    assert ChunkAt(m, sh, c) && MarkAt(m, sh, c);
    forall b | b in sh'.starts && b < |m'| ensures MarkAt(m', sh', b) {
      assert MarkAt(m, sh, b);
      assert ChunkAt(m, sh, b);
    }
  }

  // A chunk without free neighbours goes to the free list.
  lemma {:induction false} PushInv(m: Mem, sh: Shape, c: nat)
    requires Inv(m, sh) && sh.Live(c) && c < |m| && Nx(m, c) < |m| && m[c].prev < |m|
    requires !Marked(m, Nx(m, c)) && !Marked(m, m[c].prev)
    ensures m[0].w0 < |m| && Inv(PushHead(m, c), sh.(frees := Pushed(sh.frees, c)))
    ensures Keeps(m, sh, PushHead(m, c), sh.(frees := Pushed(sh.frees, c)), {c})
    ensures forall b: nat :: sh.(frees := Pushed(sh.frees, c)).Live(b) <==> sh.Live(b) && b != c
  {
    var m', r := PushCells(m, sh, c);
    var sh' := sh.(frees := Pushed(sh.frees, c));
    PushListed(m, sh, c, m');
    ChainFrame(m, m', sh, sh'.frees);
    PushMarked(m, sh, c);
    forall b: nat | sh.Live(b) && b != c ensures sh'.Live(b) && SameLive(m, m', b) { Interior(m, sh, b); }
  }

  // ---------------------------------------------------------------- the end of the heap

  function Advanced(sh: Shape, k: nat): Shape
    requires |sh.frees| > 0
  {
    Shape(sh.starts + {sh.wild + k}, sh.wild + k, sh.frees[|sh.frees| - 1 := sh.wild + k])
  }

  lemma {:induction false} TakeCells(m: Mem, sh: Shape, k: nat) returns (m': Mem, l: nat)
    requires Inv(m, sh) && 0 < k && sh.wild + k < |m|
    ensures var w := sh.wild;
            && l == sh.frees[|sh.frees| - 2] == m[w].w1 && l < |m| && l != w && l in sh.frees && l in sh.starts
            && m' == TakeWild(m, w, k) && |m'| == |m| && w + k !in sh.starts
            && (forall b | 0 <= b < |m| && b != w && b != l && b != w + k :: m'[b] == m[b])
            && m'[l] == m[l].(w0 := w + k) && m'[w] == m[w].(next := w + k) && m'[w + k] == Block(0, w, 0, l)
            && Nx(m', w) == w + k
  {
    var f, w := sh.frees, sh.wild;
    l := f[|f| - 2];
    assert LinkAt(m, f, |f| - 2);
    assert f[|f| - 2] != f[|f| - 1] && f[|f| - 1] in f && f[|f| - 2] in f;
    assert MarkAt(m, sh, w);
    m' := TakeWild(m, w, k);
  }

  lemma {:induction false} TakeChunk(m: Mem, sh: Shape, k: nat, m': Mem, b: nat)
    requires Inv(m, sh) && 0 < k && sh.wild + k < |m| && m[sh.wild].w1 < |m| && m' == TakeWild(m, sh.wild, k)
    requires b in sh.starts || b == sh.wild + k
    ensures ChunkAt(m', Advanced(sh, k), b)
  {
    var m'', l := TakeCells(m, sh, k);
    if b in sh.starts { assert ChunkAt(m, sh, b); }
  }

  lemma {:induction false} TakeApart(m: Mem, sh: Shape, k: nat, m': Mem, b: nat, x: nat)
    requires Inv(m, sh) && 0 < k && sh.wild + k < |m| && m[sh.wild].w1 < |m| && m' == TakeWild(m, sh.wild, k)
    requires (b in sh.starts || b == sh.wild + k) && (x in sh.starts || x == sh.wild + k)
    ensures ApartAt(m', b, x)
  {
    var m'', l := TakeCells(m, sh, k);
    if b in sh.starts {
      if x in sh.starts { assert ApartAt(m, b, x); }
      assert ChunkAt(m, sh, b);
    }
  }

  lemma {:induction false} TakeChained(m: Mem, sh: Shape, k: nat, m': Mem)
    requires Inv(m, sh) && 0 < k && sh.wild + k < |m| && m[sh.wild].w1 < |m| && m' == TakeWild(m, sh.wild, k)
    ensures Chained(m', Advanced(sh, k))
  {
    var sh' := Advanced(sh, k);
    forall b | b in sh'.starts ensures ChunkAt(m', sh', b) { TakeChunk(m, sh, k, m', b); }
    forall b, x | b in sh'.starts && x in sh'.starts ensures ApartAt(m', b, x) { TakeApart(m, sh, k, m', b, x); }
    var m'', l := TakeCells(m, sh, k);
    assert ChunkAt(m, sh, 0);
  }

  lemma {:induction false} TakeListed(m: Mem, sh: Shape, k: nat, m': Mem)
    requires Inv(m, sh) && 0 < k && sh.wild + k < |m| && m[sh.wild].w1 < |m| && m' == TakeWild(m, sh.wild, k)
    ensures Listed(m', Advanced(sh, k))
  {
    var m'', l := TakeCells(m, sh, k);
    var f, g := sh.frees, Advanced(sh, k).frees;
    forall i | 0 <= i < |f| ensures f[i] in sh.starts && f[i] != sh.wild + k { assert f[i] in f; }
    forall i | 0 <= i < |g| - 1 ensures LinkAt(m', g, i) { assert LinkAt(m, f, i); }
  }

  lemma {:induction false} AdvancedMembers(m: Mem, sh: Shape, k: nat)
    requires Listed(m, sh) && k > 0
    ensures forall x :: x in Advanced(sh, k).frees && x != sh.wild + k <==> x in sh.frees && x != sh.wild && x != sh.wild + k
  {
    var f, g := sh.frees, Advanced(sh, k).frees;
    forall x | x in f && x != sh.wild ensures x in g {
      var i :| 0 <= i < |f| && f[i] == x;
      assert g[i] == x;
    }
    forall x | x in g && x != sh.wild + k ensures x in f && x != sh.wild {
      var i :| 0 <= i < |g| && g[i] == x;
      assert f[i] == x && f[i] != f[|f| - 1];
    }
  }

  // The wilderness gives a chunk of `k` blocks and starts behind it.
  lemma {:induction false} TakeInv(m: Mem, sh: Shape, k: nat)
    requires Inv(m, sh) && 0 < k && sh.wild + k < |m|
    ensures m[sh.wild].w1 < |m| && Inv(TakeWild(m, sh.wild, k), Advanced(sh, k))
    ensures Keeps(m, sh, TakeWild(m, sh.wild, k), Advanced(sh, k), {})
    ensures forall b: nat :: Advanced(sh, k).Live(b) <==> sh.Live(b) || b == sh.wild
    ensures Nx(TakeWild(m, sh.wild, k), sh.wild) == sh.wild + k
  {
    var m', l := TakeCells(m, sh, k);
    var sh' := Advanced(sh, k);
    TakeChained(m, sh, k, m');
    TakeListed(m, sh, k, m');
    AdvancedMembers(m, sh, k);
    forall b | b in sh'.starts && b < |m'| ensures MarkAt(m', sh', b) {
      if b in sh.starts {
        assert MarkAt(m, sh, b);
        Interior(m, sh, b);
      }
    }
    forall b: nat | sh.Live(b) ensures sh'.Live(b) && SameLive(m, m', b) { Interior(m, sh, b); }
  }

  // The lists of an untouched heap.
  lemma {:induction false} FirstInv(m: Mem)
    requires 2 <= |m| <= MAX_BLOCKS && m[0] == ZERO && m[1] == ZERO
    ensures Inv(SetNFree(SetNext(m, 0, 1), 0, 1), Shape({0, 1}, 1, [0, 1]))
  {
    var m', sh := SetNFree(SetNext(m, 0, 1), 0, 1), Shape({0, 1}, 1, [0, 1]);
    assert LinkAt(m', sh.frees, 0);
  }
}
