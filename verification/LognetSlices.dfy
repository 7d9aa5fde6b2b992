/** Edges, intervals and slice vectors. */
module LognetSlices {
  import opened LognetPowers

  // How a target box of a lognet divides the addresses among its outputs, at the top and inside
  // a slice of another vector.

  // class edge: a comparison with an address, or no condition.
  datatype Edge = Undef | Edge(gt: bool, eq: bool, at: int) {
    // in_edge
    predicate In(a: int) {
      if Undef? then true
      else if gt then (if eq then a >= at else a > at)
      else (if eq then a <= at else a < at)
    }

    // get_compl. For an undefined edge the flag is set on the wrong edge, and what comes back
    // is a comparison with zero.
    function Compl(): Edge { if Undef? then Edge(false, false, 0) else Edge(!gt, !eq, at) }
  }

  // The complement is the negation for all addresses exactly if the edge is defined.
  lemma ComplNegates(e: Edge)
    ensures (forall a: int :: e.Compl().In(a) <==> !e.In(a)) <==> !e.Undef?
    ensures !e.Undef? ==> e.Compl().Compl() == e
  {
    if e.Undef? { assert e.Compl().In(-1) && e.In(-1); }
  }

  datatype Interval = Interval(lft: Edge, rgt: Edge) {
    // in_interval
    predicate In(a: int) { lft.In(a) && rgt.In(a) }
  }

  type SliceVec = seq<Edge>

  // slice_vec::get_interval
  function GetInterval(v: SliceVec, i: nat): Interval
    requires |v| > 1 && i < |v|
  {
    if i == 0 then Interval(Undef, v[0])
    else if i == |v| - 1 then Interval(v[i], Undef)
    else Interval(v[i - 1].Compl(), v[i])
  }

  // get_top_interval: the interval of target `i` of `n`, where there is no vector.
  function TopInterval(i: nat, n: nat): Interval
    requires i < n
  {
    if i == 0 then Interval(Undef, Edge(false, true, i))
    else if i == n - 1 then Interval(Edge(true, true, i), Undef)
    else Interval(Edge(true, false, i - 1), Edge(false, true, i))
  }

  // Each slice ends behind the one before it, and the last starts where the one before it
  // ends.
  ghost predicate Nested(v: SliceVec, i: nat, j: nat)
    requires i < |v| && j < |v|
  {
    forall a: int :: v[i].In(a) ==> v[j].In(a)
  }

  ghost predicate Sliced(v: SliceVec) {
    && |v| > 1
    && (forall i | 0 <= i < |v| :: !v[i].Undef?)
    && v[|v| - 1] == v[|v| - 2].Compl()
    && forall i, j {:trigger Nested(v, i, j)} | 0 <= i < j < |v| - 1 :: Nested(v, i, j)
  }

  // The slice of an address: the first edge that it is in.
  function SliceFrom(v: SliceVec, a: int, i: nat): (j: nat)
    requires |v| > 1 && i < |v|
    ensures i <= j < |v| && (j < |v| - 1 ==> v[j].In(a)) && forall k | i <= k < j :: !v[k].In(a)
    decreases |v| - i
  {
    if i == |v| - 1 || v[i].In(a) then i else SliceFrom(v, a, i + 1)
  }

  function SliceOf(v: SliceVec, a: int): (j: nat)
    requires |v| > 1
    ensures j < |v|
  {
    SliceFrom(v, a, 0)
  }

  // An address is in the edges from its slice on, and in no earlier one.
  lemma SliceMeans(v: SliceVec, a: int, i: nat)
    requires Sliced(v) && i < |v| - 1
    ensures v[i].In(a) <==> SliceOf(v, a) <= i
  {
    var j := SliceOf(v, a);
    if j < i { assert Nested(v, j, i); }
  }

  // Every address is in exactly one interval of the vector.
  lemma Partition(v: SliceVec, a: int, i: nat)
    requires Sliced(v) && i < |v|
    ensures GetInterval(v, i).In(a) <==> i == SliceOf(v, a)
  {
    if i < |v| - 1 { SliceMeans(v, a, i); }
    if i > 0 {
      SliceMeans(v, a, i - 1);
      ComplNegates(v[i - 1]);
    }
  }

  // The targets of a network divide its addresses.
  lemma TopPartition(n: nat, a: nat, i: nat)
    requires i < n && a < n
    ensures TopInterval(i, n).In(a) <==> a == i
  {
  }

  // ---------------------------------------------------------------- making vectors

  datatype Side = LeftSide | RightSide

  // gh_init_rel_pos in base two
  function RelPos(size: nat, sd: Side, hasZ: bool): (r: seq<int>)
    ensures |r| == size
  {
    seq(size, k requires 0 <= k < size => RelAt(k, sd, hasZ))
  }

  function RelAt(k: nat, sd: Side, hasZ: bool): int {
    if hasZ && k == 0 then 0
    else
      var p: int := Pow(2, if hasZ then k - 1 else k);
      if sd == LeftSide then p else -p
  }

  method InitRelPos(size: nat, sd: Side, hasZ: bool) returns (all: seq<int>)
    requires size > 0
    ensures all == RelPos(size, sd, hasZ)
  {
    all := [];
    var minIi := 0;
    if hasZ { all, minIi := [0], 1; }
    var pw := 1;
    for aa := minIi to size
      invariant |all| == aa && pw == Pow(2, aa - minIi)
      invariant forall k | 0 <= k < aa :: all[k] == RelAt(k, sd, hasZ)
    {
      var vv := pw;
      if sd == RightSide { vv := -vv; }
      all := all + [vv];
      pw := 2 * pw;
    }
  }

  // Positions go strictly up, or strictly down, from the second on.
  predicate Ordered(rel: seq<int>, dec: bool) {
    && |rel| > 1
    && (rel[|rel| - 1] < 0 <==> dec)
    && forall i, j | 0 < i < j < |rel| :: if dec then rel[j] < rel[i] else rel[i] < rel[j]
  }

  lemma RelPosOrdered(size: nat, sd: Side, hasZ: bool)
    requires size > 1
    ensures Ordered(RelPos(size, sd, hasZ), sd == RightSide)
    ensures forall k | 0 < k < size :: if sd == LeftSide then RelPos(size, sd, hasZ)[k] > 0 else RelPos(size, sd, hasZ)[k] < 0
  {
    var rel := RelPos(size, sd, hasZ);
    forall i, j | 0 < i < j < size ensures if sd == RightSide then rel[j] < rel[i] else rel[i] < rel[j] {
      PowGrows(2, if hasZ then i - 1 else i, if hasZ then j - 1 else j);
    }
  }

  // Where slice `j` lies, in terms of a position `key`: between the positions of the vector.
  predicate Lies(slc: int, rel: seq<int>, dec: bool, key: int, j: nat) {
    && j < |rel|
    && (j > 0 ==> if dec then key <= slc + rel[j] else slc + rel[j] <= key)
    && (j + 1 < |rel| ==> if dec then slc + rel[j + 1] < key else key < slc + rel[j + 1])
  }

  lemma LiesOnce(slc: int, rel: seq<int>, dec: bool, key: int, i: nat, j: nat)
    requires Ordered(rel, dec) && Lies(slc, rel, dec, key, i) && Lies(slc, rel, dec, key, j)
    ensures i == j
  {
  }

  // init_slice_vec_with: the vector of a target of the whole network.
  function TopEdge(slc: int, rel: seq<int>, dec: bool, j: nat): Edge
    requires j < |rel|
  {
    if j + 1 < |rel| then Edge(dec, false, slc + rel[j + 1])
    else Edge(!dec, true, slc + rel[j])
  }

  method InitSliceVecWith(slc: int, rel: seq<int>) returns (v: SliceVec)
    requires |rel| > 1
    ensures |v| == |rel| && forall j | 0 <= j < |v| :: v[j] == TopEdge(slc, rel, rel[|rel| - 1] < 0, j)
  {
    var rDec := rel[|rel| - 1] < 0;
    var pos := 0;
    v := [];
    for aa := 1 to |rel|
      invariant |v| == aa - 1 && forall j | 0 <= j < aa - 1 :: v[j] == TopEdge(slc, rel, rDec, j)
      invariant aa > 1 ==> pos == slc + rel[aa - 1]
    {
      pos := slc + rel[aa];
      v := v + [Edge(rDec, false, pos)];
    }
    v := v + [Edge(!rDec, true, pos)];
  }

  // A vector whose edges divide the keys of the addresses at its positions.
  ghost predicate Divides(v: SliceVec, slc: int, rel: seq<int>, dec: bool, key: int -> int) {
    && |v| == |rel| > 1
    && (forall i | 0 <= i < |v| :: !v[i].Undef?)
    && v[|v| - 1] == v[|v| - 2].Compl()
    && forall j, a: int {:trigger v[j].In(a)} | 0 <= j < |v| - 1 ::
         v[j].In(a) <==> if dec then key(a) > slc + rel[j + 1] else key(a) < slc + rel[j + 1]
  }

  // Such a vector is well made, and the slice of an address is where its key lies.
  lemma DividesSlices(v: SliceVec, slc: int, rel: seq<int>, dec: bool, key: int -> int)
    requires Divides(v, slc, rel, dec, key) && Ordered(rel, dec)
    ensures Sliced(v)
    ensures forall a: int :: Lies(slc, rel, dec, key(a), SliceOf(v, a))
  {
    forall i, j | 0 <= i < j < |v| - 1 ensures Nested(v, i, j) {
      forall a: int | v[i].In(a) ensures v[j].In(a) {}
    }
    forall a: int ensures Lies(slc, rel, dec, key(a), SliceOf(v, a)) {
      var j := SliceOf(v, a);
      if j > 0 {
        SliceMeans(v, a, j - 1);
        assert !v[j - 1].In(a);
      }
      if j + 1 < |v| {
        SliceMeans(v, a, j);
        assert v[j].In(a);
      }
    }
  }

  lemma TopDivides(slc: int, rel: seq<int>, v: SliceVec)
    requires |rel| > 1 && Ordered(rel, rel[|rel| - 1] < 0)
    requires |v| == |rel| && forall j | 0 <= j < |v| :: v[j] == TopEdge(slc, rel, rel[|rel| - 1] < 0, j)
    ensures Divides(v, slc, rel, rel[|rel| - 1] < 0, a => a)
  {
  }

  // init_sub_slices_with: the vector of a target that stands for a slice of `all`.
  function SubEdge(slc: int, all: SliceVec, rel: seq<int>, dec: bool, j: nat): Edge
    requires |all| > 1 && 0 < |rel| && j < |rel| && forall k | 0 < k < |rel| :: 0 <= slc + rel[k] < |all|
    requires |rel| > 1
  {
    if j + 1 < |rel| then
      var itv := GetInterval(all, slc + rel[j + 1]);
      (if dec then itv.rgt else itv.lft).Compl()
    else
      var itv := GetInterval(all, slc + rel[j]);
      if dec then itv.rgt else itv.lft
  }

  method InitSubSlicesWith(slc: int, all: SliceVec, rel: seq<int>) returns (v: SliceVec)
    requires |all| > 1 && |rel| > 1 && forall k | 0 < k < |rel| :: 0 <= slc + rel[k] < |all|
    ensures |v| == |rel| && forall j | 0 <= j < |v| :: v[j] == SubEdge(slc, all, rel, rel[|rel| - 1] < 0, j)
  {
    var rDec := rel[|rel| - 1] < 0;
    v := [];
    var nxtItv := GetInterval(all, slc + rel[1]);
    for aa := 1 to |rel|
      invariant |v| == aa - 1 && forall j | 0 <= j < aa - 1 :: v[j] == SubEdge(slc, all, rel, rDec, j)
      invariant aa > 1 ==> nxtItv == GetInterval(all, slc + rel[aa - 1])
    {
      nxtItv := GetInterval(all, slc + rel[aa]);
      var eg := if rDec then nxtItv.rgt.Compl() else nxtItv.lft.Compl();
      v := v + [eg];
    }
    v := v + [if rDec then nxtItv.rgt else nxtItv.lft];
  }

  // The slices of a well-made vector are divided by their number, just as the whole network
  // is divided by address: each new slice is a run of old ones.
  lemma SubDivides(slc: int, all: SliceVec, rel: seq<int>, v: SliceVec)
    requires Sliced(all) && |rel| > 1 && Ordered(rel, rel[|rel| - 1] < 0)
    requires forall k | 0 < k < |rel| :: 0 <= slc + rel[k] < |all|
    requires forall k | 0 < k < |rel| :: if rel[|rel| - 1] < 0 then slc + rel[k] < |all| - 1 else 0 < slc + rel[k]
    requires |v| == |rel| && forall j | 0 <= j < |v| :: v[j] == SubEdge(slc, all, rel, rel[|rel| - 1] < 0, j)
    ensures Divides(v, slc, rel, rel[|rel| - 1] < 0, a => SliceOf(all, a))
  {
    var dec := rel[|rel| - 1] < 0;
    forall k | 0 < k < |rel|
      ensures var itv := GetInterval(all, slc + rel[k]);
              var e := if dec then itv.rgt else itv.lft;
              !e.Undef? && e.Compl().Compl() == e && !e.Compl().Undef?
    {
      ComplNegates(all[slc + rel[k]]);
      if !dec { ComplNegates(all[slc + rel[k] - 1]); }
    }
    forall j, a: int | 0 <= j < |v| - 1
      ensures v[j].In(a) <==> if dec then SliceOf(all, a) > slc + rel[j + 1] else SliceOf(all, a) < slc + rel[j + 1]
    {
      var pos := slc + rel[j + 1];
      if dec {
        SliceMeans(all, a, pos);
        ComplNegates(all[pos]);
      } else {
        SliceMeans(all, a, pos - 1);
        ComplNegates(all[pos - 1]);
        ComplNegates(all[|all| - 2]);
      }
    }
  }
}
