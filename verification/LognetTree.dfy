/** The routing trees of a lognet. */
module LognetTree {
  import opened LognetPowers
  import opened LognetSlices

  // gh_get_binnet_sm_to_bm with one input builds a balanced tree of 1-to-2 nodes level by level,
  // and init_sm_to_bm_edges gives the nodes their selectors.

  // A free output, by number, or a 1-to-2 node.
  datatype Tree = Leaf(id: nat) | Node(out0: Tree, out1: Tree)

  function Leaves(t: Tree): (r: seq<nat>)
    ensures |r| > 0
  {
    match t case Leaf(id) => [id] case Node(l, r) => Leaves(l) + Leaves(r)
  }

  // A node takes the place of a free output; its own outputs are free.
  function Split(t: Tree, id: nat, l: nat, r: nat): Tree {
    match t
    case Leaf(x) => if x == id then Node(Leaf(l), Leaf(r)) else t
    case Node(a, b) => Node(Split(a, id, l, r), Split(b, id, l, r))
  }

  function Replace(s: seq<nat>, id: nat, l: nat, r: nat): seq<nat> {
    if s == [] then [] else (if s[0] == id then [l, r] else [s[0]]) + Replace(s[1..], id, l, r)
  }

  lemma {:induction false} ReplaceAppend(s: seq<nat>, u: seq<nat>, id: nat, l: nat, r: nat)
    ensures Replace(s + u, id, l, r) == Replace(s, id, l, r) + Replace(u, id, l, r)
  {
    if s == [] {
      assert s + u == u;
    } else {
      assert (s + u)[1..] == s[1..] + u;
      ReplaceAppend(s[1..], u, id, l, r);
    }
  }

  lemma {:induction false} ReplaceNothing(s: seq<nat>, id: nat, l: nat, r: nat)
    requires id !in s
    ensures Replace(s, id, l, r) == s
  {
    if s != [] { ReplaceNothing(s[1..], id, l, r); }
  }

  lemma {:induction false} SplitLeaves(t: Tree, id: nat, l: nat, r: nat)
    ensures Leaves(Split(t, id, l, r)) == Replace(Leaves(t), id, l, r)
    decreases t
  {
    if t.Node? {
      SplitLeaves(t.out0, id, l, r);
      SplitLeaves(t.out1, id, l, r);
      ReplaceAppend(Leaves(t.out0), Leaves(t.out1), id, l, r);
    }
  }

  // One output in the middle.
  lemma ReplaceFront(front: seq<nat>, id: nat, back: seq<nat>, l: nat, r: nat)
    requires id !in front && id !in back
    ensures Replace(front + ([id] + back), id, l, r) == (front + [l, r]) + back
  {
    ReplaceAppend(front, [id] + back, id, l, r);
    ReplaceNothing(front, id, l, r);
    ReplaceNothing(back, id, l, r);
    assert ([id] + back)[1..] == back;
  }

  predicate AllBelow(s: seq<nat>, n: nat) { forall i | 0 <= i < |s| :: s[i] < n }

  predicate NoneTwice(s: seq<nat>) { forall i, j | 0 <= i < j < |s| :: s[i] != s[j] }

  // ---------------------------------------------------------------- depth

  // How many nodes an address passes on its way to each output, if the tree stands at depth `d`.
  function Depths(t: Tree, d: nat): (r: seq<nat>)
    ensures |r| == |Leaves(t)|
  {
    match t case Leaf(_) => [d] case Node(l, r) => Depths(l, d + 1) + Depths(r, d + 1)
  }

  function Rep(x: nat, n: nat): (r: seq<nat>)
    ensures |r| == n && forall i | 0 <= i < n :: r[i] == x
  {
    seq(n, _ => x)
  }

  lemma {:induction false} SplitNothing(t: Tree, id: nat, l: nat, r: nat)
    requires id !in Leaves(t)
    ensures Split(t, id, l, r) == t
    decreases t
  {
    if t.Node? {
      SplitNothing(t.out0, id, l, r);
      SplitNothing(t.out1, id, l, r);
    }
  }

  // Depth `i` gives way to two that are one deeper.
  function Doubled(ds: seq<nat>, i: nat): seq<nat>
    requires i < |ds|
  {
    ds[..i] + [ds[i] + 1, ds[i] + 1] + ds[i + 1..]
  }

  lemma {:induction false} DoubledLeft(x: seq<nat>, y: seq<nat>, i: nat)
    requires i < |x|
    ensures Doubled(x + y, i) == Doubled(x, i) + y
  {
    assert (x + y)[i + 1..] == x[i + 1..] + y && (x + y)[..i] == x[..i];
  }

  lemma {:induction false} DoubledRight(x: seq<nat>, y: seq<nat>, i: nat)
    requires i < |y|
    ensures Doubled(x + y, |x| + i) == x + Doubled(y, i)
  {
    assert (x + y)[|x| + i + 1..] == y[i + 1..] && (x + y)[..|x| + i] == x + y[..i];
  }

  lemma {:induction false} PartsApart(a: seq<nat>, b: seq<nat>)
    requires NoneTwice(a + b)
    ensures NoneTwice(a) && NoneTwice(b) && forall i, j | 0 <= i < |a| && 0 <= j < |b| :: a[i] != b[j]
  {
    var s := a + b;
    forall i, j | 0 <= i < j < |b| ensures b[i] != b[j] { assert s[|a| + i] != s[|a| + j]; }
    forall i, j | 0 <= i < |a| && 0 <= j < |b| ensures a[i] != b[j] { assert s[i] != s[|a| + j]; }
    forall i, j | 0 <= i < j < |a| ensures a[i] != a[j] { assert s[i] != s[j]; }
  }

  // Where output `i` was, there are two that are one deeper.
  lemma {:induction false} SplitDepths(t: Tree, i: nat, l: nat, r: nat, d: nat)
    requires i < |Leaves(t)| && NoneTwice(Leaves(t))
    ensures Depths(Split(t, Leaves(t)[i], l, r), d) == Doubled(Depths(t, d), i)
    decreases t
  {
    if t.Node? {
      var a, b, id := Leaves(t.out0), Leaves(t.out1), Leaves(t)[i];
      PartsApart(a, b);
      var x, y := Depths(t.out0, d + 1), Depths(t.out1, d + 1);
      if i < |a| {
        SplitDepths(t.out0, i, l, r, d + 1);
        SplitNothing(t.out1, id, l, r);
        DoubledLeft(x, y, i);
      } else {
        SplitNothing(t.out0, id, l, r);
        SplitDepths(t.out1, i - |a|, l, r, d + 1);
        DoubledRight(x, y, i - |a|);
      }
    }
  }

  // No output is deeper than it must be: floor(log2 n) nodes, or one more where `n` is no power
  // of two.
  ghost predicate Balanced(t: Tree) {
    var n := |Leaves(t)|;
    var l := Log(2, n);
    forall i | 0 <= i < n :: Depths(t, 0)[i] == l || (Depths(t, 0)[i] == l + 1 && n != Pow(2, l))
  }

  // `a` outputs are at depth `lo + 1` and `b` at depth `lo`, and they fill their levels.
  ghost predicate Filled(t: Tree, lo: nat, a: nat, b: nat) {
    Depths(t, 0) == Rep(lo + 1, a) + Rep(lo, b) && a % 2 == 0 && b + a / 2 == Pow(2, lo)
  }

  lemma {:induction false} FillNext(t: Tree, lo: nat, a: nat, b: nat, l: nat, r: nat)
    requires Filled(t, lo, a, b) && b > 0 && NoneTwice(Leaves(t)) && a < |Leaves(t)|
    ensures Filled(Split(t, Leaves(t)[a], l, r), lo, a + 2, b - 1)
  {
    SplitDepths(t, a, l, r, 0);
    var ds := Depths(t, 0);
    assert ds[..a] == Rep(lo + 1, a) && ds[a + 1..] == Rep(lo, b - 1);
    assert Rep(lo + 1, a) + [lo + 1, lo + 1] == Rep(lo + 1, a + 2);
  }

  lemma {:induction false} FilledBalanced(t: Tree, lo: nat, a: nat, b: nat)
    requires Filled(t, lo, a, b)
    ensures Balanced(t)
  {
    var n := |Leaves(t)|;
    var l := Log(2, n);
    assert n == a + b && Pow(2, lo) <= n <= Pow(2, lo + 1);
    if l > lo { PowGrows(2, lo + 1, l); }
    if l < lo { PowGrows(2, l + 1, lo); }
  }

  // One round: the first output that has not been reached becomes a node with two outputs.
  lemma {:induction false} Extended(t: Tree, lo: nat, front: seq<nat>, id: nat, back: seq<nat>, unused: nat)
    requires Leaves(t) == front + ([id] + back) && NoneTwice(Leaves(t)) && AllBelow(Leaves(t), unused)
    requires Filled(t, lo, |front|, |back| + 1)
    ensures var u := Split(t, id, unused, unused + 1);
      && Leaves(u) == front + [unused, unused + 1] + back && NoneTwice(Leaves(u)) && AllBelow(Leaves(u), unused + 2)
      && Filled(u, lo, |front| + 2, |back|)
  {
    FrontApart(front, id, back);
    SplitLeaves(t, id, unused, unused + 1);
    ReplaceFront(front, id, back, unused, unused + 1);
    FillNext(t, lo, |front|, |back| + 1, unused, unused + 1);
    FreshApart(front, id, back, unused);
  }

  // gh_get_binnet_sm_to_bm for one input. The outputs of the level that is being extended come
  // before those that have not been reached, so that in the end they stand from left to right, and
  // no level is begun before the one above it is full.
  method BuildTree(numOut: nat) returns (t: Tree, outputs: seq<nat>)
    requires numOut > 1
    ensures Leaves(t) == outputs && |outputs| == numOut && NoneTwice(outputs) && Balanced(t)
  {
    var nextLevel: seq<nat>;
    t, nextLevel, outputs := Node(Leaf(0), Leaf(1)), [0, 1], [];
    var unused := 2;
    ghost var lo := 0;
    assert Depths(t, 0) == [1, 1] == Rep(1, 2) + Rep(0, 0);
    for aa := 1 to numOut - 1
      invariant Leaves(t) == nextLevel + outputs && |nextLevel| + |outputs| == aa + 1
      invariant AllBelow(Leaves(t), unused) && NoneTwice(Leaves(t))
      invariant Filled(t, lo, |nextLevel|, |outputs|)
    {
      if outputs == [] {
        assert Rep(lo + 1, |nextLevel|) + Rep(lo, 0) == Rep(lo + 2, 0) + Rep(lo + 1, |nextLevel|);
        outputs := nextLevel;
        nextLevel := [];
        lo := lo + 1;
      }
      assert outputs == [outputs[0]] + outputs[1..];
      Extended(t, lo, nextLevel, outputs[0], outputs[1..], unused);
      t := Split(t, outputs[0], unused, unused + 1);
      nextLevel := nextLevel + [unused, unused + 1];
      outputs := outputs[1..];
      unused := unused + 2;
    }
    FilledBalanced(t, lo, |nextLevel|, |outputs|);
    outputs := nextLevel + outputs;
  }

  lemma FrontApart(front: seq<nat>, id: nat, back: seq<nat>)
    requires NoneTwice(front + ([id] + back))
    ensures id !in front && id !in back
  {
    var s := front + ([id] + back);
    assert s[|front|] == id;
    forall i | 0 <= i < |front| ensures front[i] != id { assert s[i] == front[i]; }
    forall i | 0 <= i < |back| ensures back[i] != id { assert s[|front| + 1 + i] == back[i]; }
  }

  lemma FreshApart(front: seq<nat>, id: nat, back: seq<nat>, unused: nat)
    requires NoneTwice(front + ([id] + back)) && AllBelow(front + ([id] + back), unused)
    ensures NoneTwice(front + [unused, unused + 1] + back) && AllBelow(front + [unused, unused + 1] + back, unused + 2)
  {
    var s, u, n := front + ([id] + back), front + [unused, unused + 1] + back, |front|;
    forall i | 0 <= i < |u|
      ensures if n <= i < n + 2 then u[i] == unused + (i - n) else u[i] == s[if i < n then i else i - 1] < unused
    {
      assert i < n ==> u[i] == s[i];
      assert i >= n + 2 ==> u[i] == s[i - 1];
    }
  }

  // ---------------------------------------------------------------- selectors

  // A 1-to-2 node with its selector; a free output with the edge that it got.
  datatype Net = Out(edge: Edge) | Sel(selector: Edge, out0: Net, out1: Net)

  // The edges o_eg0 and o_eg1 of the outputs, from left to right.
  function Edged(t: Tree, v: SliceVec, i: nat): Net
    requires i + |Leaves(t)| <= |v|
  {
    match t
    case Leaf(_) => Out(v[i])
    case Node(l, r) => Sel(Undef, Edged(l, v, i), Edged(r, v, i + |Leaves(l)|))
  }

  // get_out0_biggest_idx and get_biggest_idx: the edge of the rightmost output.
  function Biggest(n: Net): Edge { match n case Out(e) => e case Sel(_, _, r) => Biggest(r) }

  // set_outs_biggest_idx: every node is given the edge of the rightmost output of its out0.
  function SetBiggest(n: Net): Net {
    match n
    case Out(_) => n
    case Sel(_, l, r) => Sel(Biggest(l), SetBiggest(l), SetBiggest(r))
  }

  // The number of the output at which an address leaves the tree.
  function RouteNet(n: Net, a: int): nat {
    match n
    case Out(_) => 0
    case Sel(sel, l, r) => if sel.In(a) then RouteNet(l, a) else Size(l) + RouteNet(r, a)
  }

  function Size(n: Net): nat { match n case Out(_) => 1 case Sel(_, l, r) => Size(l) + Size(r) }

  lemma {:induction false} EdgedMeans(t: Tree, v: SliceVec, i: nat)
    requires i + |Leaves(t)| <= |v|
    ensures Size(SetBiggest(Edged(t, v, i))) == Size(Edged(t, v, i)) == |Leaves(t)|
    ensures Biggest(Edged(t, v, i)) == v[i + |Leaves(t)| - 1]
    decreases t
  {
    if t.Node? {
      EdgedMeans(t.out0, v, i);
      EdgedMeans(t.out1, v, i + |Leaves(t.out0)|);
    }
  }

  lemma {:induction false} RouteFrom(t: Tree, v: SliceVec, i: nat, a: int)
    requires Sliced(v) && i + |Leaves(t)| <= |v| && i <= SliceOf(v, a) < i + |Leaves(t)|
    ensures i + RouteNet(SetBiggest(Edged(t, v, i)), a) == SliceOf(v, a)
    decreases t
  {
    if t.Node? {
      var k := |Leaves(t.out0)|;
      EdgedMeans(t.out0, v, i);
      SliceMeans(v, a, i + k - 1);
      if SliceOf(v, a) < i + k { RouteFrom(t.out0, v, i, a); } else { RouteFrom(t.out1, v, i + k, a); }
    }
  }

  // Any address leaves the tree at the output whose interval it is in, and at no other.
  lemma TreeRoutesByInterval(t: Tree, v: SliceVec, a: int, i: nat)
    requires Sliced(v) && |Leaves(t)| == |v| && i < |v|
    ensures RouteNet(SetBiggest(Edged(t, v, 0)), a) == i <==> GetInterval(v, i).In(a)
  {
    RouteFrom(t, v, 0, a);
    Partition(v, a, i);
  }
}
