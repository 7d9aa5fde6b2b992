/**
  The links of a lognet: how many wires each target box has at each side, and that they fit
  between neighbours. The wire at level `a` joins neighbouring multiples of base^a.
 */
module LognetLinks {
  import opened LognetPowers

  // max_hh of gh_calc_num_io
  function MaxLevel(b: nat, len: nat): nat
    requires b > 1 && len > 1
  {
    Log(b, len - 1) + 1
  }

  // Box `idx` has a wire of level `a` that comes from the left, or one that goes to the right.
  predicate Takes(b: nat, len: nat, idx: nat, a: nat)
    requires b > 1 && len > 1
  {
    idx > 0 && a < MaxLevel(b, len) && idx % Pow(b, a) == 0
  }

  predicate Sends(b: nat, len: nat, idx: nat, a: nat)
    requires b > 1 && len > 1
  {
    a < MaxLevel(b, len) && idx % Pow(b, a) == 0 && idx + Pow(b, a) < len
  }

  // The loop of gh_calc_num_io, from level `a` on.
  function CountIn(b: nat, len: nat, idx: nat, a: nat): nat
    requires b > 1 && len > 1 && a <= MaxLevel(b, len)
    decreases MaxLevel(b, len) - a
  {
    if a == MaxLevel(b, len) || idx % Pow(b, a) != 0 then 0
    else (if idx > 0 then 1 else 0) + CountIn(b, len, idx, a + 1)
  }

  function CountOut(b: nat, len: nat, idx: nat, a: nat): nat
    requires b > 1 && len > 1 && a <= MaxLevel(b, len)
    decreases MaxLevel(b, len) - a
  {
    if a == MaxLevel(b, len) || idx % Pow(b, a) != 0 then 0
    else (if idx + Pow(b, a) < len then 1 else 0) + CountOut(b, len, idx, a + 1)
  }

  function NumIn(b: nat, len: nat, idx: nat): nat
    requires b > 1 && len > 1
  {
    CountIn(b, len, idx, 0)
  }

  function NumOut(b: nat, len: nat, idx: nat): nat
    requires b > 1 && len > 1
  {
    CountOut(b, len, idx, 0)
  }

  method CalcNumIo(b: nat, len: nat, idx: nat) returns (numIn: nat, numOut: nat)
    requires b > 1 && len > 1 && idx < len
    ensures numIn == NumIn(b, len, idx) && numOut == NumOut(b, len, idx)
  {
    var maxHh := Log(b, len - 1) + 1;
    numIn, numOut := 0, 0;
    var pw := 1;
    for aa := 0 to maxHh
      invariant pw == Pow(b, aa)
      invariant numIn + CountIn(b, len, idx, aa) == NumIn(b, len, idx)
      invariant numOut + CountOut(b, len, idx, aa) == NumOut(b, len, idx)
    {
      if idx % pw != 0 { break; }
      if idx > 0 { numIn := numIn + 1; }
      if idx + pw < len { numOut := numOut + 1; }
      pw := b * pw;
    }
  }

  // ---------------------------------------------------------------- what the counts mean

  lemma LowerLevel(b: nat, idx: nat, a: nat, c: nat)
    requires b > 1 && a <= c && idx % Pow(b, c) == 0
    ensures idx % Pow(b, a) == 0 && Pow(b, a) <= Pow(b, c)
  {
    MultMod(idx, Pow(b, c));
    MultDown(idx, b, a, c);
    MultMod(idx, Pow(b, a));
    PowGrows(b, a, c);
  }

  lemma {:induction false} CountInMeans(b: nat, len: nat, idx: nat, a: nat, c: nat)
    requires b > 1 && len > 1 && a <= MaxLevel(b, len) && a <= c
    ensures c < a + CountIn(b, len, idx, a) <==> Takes(b, len, idx, c)
    decreases MaxLevel(b, len) - a
  {
    if a < MaxLevel(b, len) && idx % Pow(b, a) == 0 {
      CountInMeans(b, len, idx, a + 1, if c == a then a + 1 else c);
      if idx == 0 { NoneFromNothing(b, len, a + 1); }
    } else if idx % Pow(b, c) == 0 {
      LowerLevel(b, idx, a, c);
    }
  }

  lemma {:induction false} NoneFromNothing(b: nat, len: nat, a: nat)
    requires b > 1 && len > 1 && a <= MaxLevel(b, len)
    ensures CountIn(b, len, 0, a) == 0
    decreases MaxLevel(b, len) - a
  {
    if a < MaxLevel(b, len) { NoneFromNothing(b, len, a + 1); }
  }

  lemma {:induction false} CountOutMeans(b: nat, len: nat, idx: nat, a: nat, c: nat)
    requires b > 1 && len > 1 && a <= MaxLevel(b, len) && a <= c
    ensures c < a + CountOut(b, len, idx, a) <==> Sends(b, len, idx, c)
    decreases MaxLevel(b, len) - a
  {
    if a < MaxLevel(b, len) && idx % Pow(b, a) == 0 {
      CountOutMeans(b, len, idx, a + 1, if c == a then a + 1 else c);
      if idx + Pow(b, a) >= len { NoneTooFar(b, len, idx, a + 1); PowGrows(b, a, c); }
    } else if idx % Pow(b, c) == 0 {
      LowerLevel(b, idx, a, c);
    }
  }

  lemma {:induction false} NoneTooFar(b: nat, len: nat, idx: nat, a: nat)
    requires b > 1 && len > 1 && 0 < a <= MaxLevel(b, len) && idx + Pow(b, a - 1) >= len
    ensures CountOut(b, len, idx, a) == 0
    decreases MaxLevel(b, len) - a
  {
    PowGrows(b, a - 1, a);
    if a < MaxLevel(b, len) { NoneTooFar(b, len, idx, a + 1); }
  }

  // The levels of the wires at a box are those below its counts.
  lemma LevelsOf(b: nat, len: nat, idx: nat, c: nat)
    requires b > 1 && len > 1
    ensures c < NumIn(b, len, idx) <==> Takes(b, len, idx, c)
    ensures c < NumOut(b, len, idx) <==> Sends(b, len, idx, c)
  {
    CountInMeans(b, len, idx, 0, c);
    CountOutMeans(b, len, idx, 0, c);
  }

  // ---------------------------------------------------------------- wires between neighbours

  // The first multiple of `p` behind `i`.
  function NextMult(i: nat, p: nat): nat
    requires p > 0
  {
    i - i % p + p
  }

  lemma NextMultIs(i: nat, p: nat)
    requires p > 0
    ensures i < NextMult(i, p) <= i + p && NextMult(i, p) % p == 0
    ensures i % p == 0 ==> NextMult(i, p) == i + p
    ensures NextMult(i, p) >= p
  {
    var m := i - i % p;
    assert m == (i / p) * p;
    assert Mult(m, p);
    MultSelf(p);
    MultAdd(m, p, p);
    MultMod(m + p, p);
  }

  lemma NextMultLeast(i: nat, p: nat, m: nat)
    requires p > 0 && i < m && m % p == 0
    ensures NextMult(i, p) <= m
  {
    NextMultIs(i, p);
    MultMod(NextMult(i, p), p);
    MultMod(m, p);
    if m < NextMult(i, p) { MultGap(m, NextMult(i, p), p); }
  }

  // The next multiple is still ahead at the next box, unless that is it.
  lemma NextMultStep(i: nat, p: nat)
    requires p > 0 && (i + 1) % p != 0
    ensures NextMult(i + 1, p) == NextMult(i, p)
  {
    NextMultIs(i, p);
    NextMultIs(i + 1, p);
    NextMultLeast(i + 1, p, NextMult(i, p));
    NextMultLeast(i, p, NextMult(i + 1, p));
  }

  // A wire of level `a` runs between box `i` and box `i + 1`.
  predicate Crosses(b: nat, len: nat, i: nat, a: nat)
    requires b > 1
  {
    NextMult(i, Pow(b, a)) < len
  }

  // Of the levels `m` says just those below it are meant.
  ghost predicate Levels(b: nat, len: nat, i: nat, m: nat)
    requires b > 1
  {
    forall a: nat :: a < m <==> Crosses(b, len, i, a)
  }

  lemma CrossesLevel(b: nat, len: nat, i: nat, a: nat)
    requires b > 1 && len > 1 && Crosses(b, len, i, a)
    ensures a < MaxLevel(b, len)
  {
    NextMultIs(i, Pow(b, a));
    if a >= MaxLevel(b, len) { PowGrows(b, MaxLevel(b, len), a); }
  }

  // From one side of box `i` to the other: the wires that end there are replaced by those
  // that start there, and the others pass.
  lemma SameLevels(b: nat, len: nat, i: nat, a: nat)
    requires b > 1 && len > 1 && 0 < i < len
    ensures Takes(b, len, i, a) ==> Crosses(b, len, i - 1, a) && (Sends(b, len, i, a) <==> Crosses(b, len, i, a))
    ensures !Takes(b, len, i, a) ==> !Sends(b, len, i, a) && (Crosses(b, len, i - 1, a) <==> Crosses(b, len, i, a))
  {
    var p := Pow(b, a);
    NextMultIs(i - 1, p);
    NextMultIs(i, p);
    if i % p == 0 {
      NextMultLeast(i - 1, p, i);
      if Crosses(b, len, i, a) { CrossesLevel(b, len, i, a); }
      if Crosses(b, len, i - 1, a) { CrossesLevel(b, len, i - 1, a); }
    } else {
      NextMultStep(i - 1, p);
    }
  }

  // Wires of lower levels are there whenever one of a higher level is.
  lemma CrossesDown(b: nat, len: nat, i: nat, a: nat, c: nat)
    requires b > 1 && a <= c && Crosses(b, len, i, c)
    ensures Crosses(b, len, i, a)
  {
    NextMultIs(i, Pow(b, c));
    LowerLevel(b, NextMult(i, Pow(b, c)), a, c);
    NextMultLeast(i, Pow(b, a), NextMult(i, Pow(b, c)));
  }

  // One level at box `i`: it ends there, or it passes.
  lemma OneLevel(b: nat, len: nat, i: nat, w: nat, a: nat)
    requires b > 1 && len > 1 && 0 < i < len && Levels(b, len, i - 1, w)
    ensures a < NumOut(b, len, i) ==> a < NumIn(b, len, i)
    ensures a < NumIn(b, len, i) ==> a < w && (a < NumOut(b, len, i) <==> Crosses(b, len, i, a))
    ensures a >= NumIn(b, len, i) ==> (a < w <==> Crosses(b, len, i, a))
  {
    LevelsOf(b, len, i, a);
    SameLevels(b, len, i, a);
    assert a < w <==> Crosses(b, len, i - 1, a);
  }

  // How the number of wires changes at box `i`: either all that arrive end there, or those of
  // some levels do and as many start, and then the box passes the others on.
  lemma WiresChange(b: nat, len: nat, i: nat, w: nat)
    requires b > 1 && len > 1 && 0 < i < len && Levels(b, len, i - 1, w)
    ensures NumOut(b, len, i) <= NumIn(b, len, i) <= w
    ensures w == NumIn(b, len, i) ==> Levels(b, len, i, NumOut(b, len, i))
    ensures w > NumIn(b, len, i) ==> NumIn(b, len, i) == NumOut(b, len, i) && Levels(b, len, i, w)
  {
    var m, n := NumIn(b, len, i), NumOut(b, len, i);
    if n > 0 { OneLevel(b, len, i, w, n - 1); }
    if m > 0 { OneLevel(b, len, i, w, m - 1); }
    if w == m {
      forall a: nat ensures a < n <==> Crosses(b, len, i, a) { OneLevel(b, len, i, w, a); }
    } else {
      OneLevel(b, len, i, w, m);
      if m > 0 { CrossesDown(b, len, i, m - 1, m); }
      forall a: nat ensures a < w <==> Crosses(b, len, i, a) {
        OneLevel(b, len, i, w, a);
        if a < m { CrossesDown(b, len, i, a, m); }
      }
    }
  }

  // At the first box, wires only start.
  lemma FirstWires(b: nat, len: nat)
    requires b > 1 && len > 1
    ensures NumIn(b, len, 0) == 0 && Levels(b, len, 0, NumOut(b, len, 0))
  {
    NoneFromNothing(b, len, 0);
    forall a: nat ensures a < NumOut(b, len, 0) <==> Crosses(b, len, 0, a) {
      LevelsOf(b, len, 0, a);
      NextMultIs(0, Pow(b, a));
      if Crosses(b, len, 0, a) { CrossesLevel(b, len, 0, a); }
    }
  }

  // No wire leads behind the last box.
  lemma LastWires(b: nat, len: nat, w: nat)
    requires b > 1 && len > 1 && Levels(b, len, len - 1, w)
    ensures w == 0
  {
    NextMultIs(len - 1, Pow(b, 0));
    assert 0 < w <==> Crosses(b, len, len - 1, 0);
  }

  // ---------------------------------------------------------------- the boxes

  // The ends of an htarget_box, by side and direction.
  class TargetBox {
    var lftIn: nat
    var lftOut: nat
    var rgtIn: nat
    var rgtOut: nat

    // get_target_box
    constructor (lftHt: nat, rgtHt: nat)
      ensures lftIn == lftHt && lftOut == rgtHt && rgtIn == rgtHt && rgtOut == lftHt
    {
      lftIn, lftOut, rgtIn, rgtOut := lftHt, rgtHt, rgtHt, lftHt;
    }

    // resize_with_directs, with the checks of the source
    method ResizeWithDirects(size: nat)
      requires size > lftIn && size > rgtIn && lftIn == lftOut && rgtIn == rgtOut
      modifies this
      ensures lftIn == size && lftOut == size && rgtIn == size && rgtOut == size
    {
      lftIn, lftOut, rgtIn, rgtOut := size, size, size, size;
    }
  }

  // The loop of init_lognet_box, with the checks of the source: the ends of neighbours fit,
  // and none is left over. The wires between boxes `i` and `i + 1` are those that cross there.
  method InitLognetBox(b: nat, len: nat) returns (wires: seq<nat>)
    requires b > 1 && len > 1
    ensures |wires| == len - 1 && forall i | 0 <= i < len - 1 :: Levels(b, len, i, wires[i])
  {
    var numIn, numOut := CalcNumIo(b, len, 0);
    var prv := new TargetBox(numIn, numOut);
    FirstWires(b, len);
    wires := [];
    for aa := 1 to len
      invariant |wires| == aa - 1 && forall i | 0 <= i < aa - 1 :: Levels(b, len, i, wires[i])
      invariant prv.lftOut == prv.rgtIn && Levels(b, len, aa - 1, prv.lftOut)
    {
      numIn, numOut := CalcNumIo(b, len, aa);
      var bx := new TargetBox(numIn, numOut);
      WiresChange(b, len, aa, prv.lftOut);
      assert bx.lftIn >= bx.lftOut && bx.rgtOut == bx.lftIn;
      if prv.lftOut > bx.lftIn { bx.ResizeWithDirects(prv.lftOut); }
      assert prv.lftOut == bx.lftIn && bx.rgtOut == prv.rgtIn;
      wires := wires + [prv.lftOut];
      prv := bx;
    }
    LastWires(b, len, prv.lftOut);
    assert prv.lftOut == 0 && prv.rgtIn == 0;
  }

  // ---------------------------------------------------------------- where a wire leads

  // The box at which the wire of level `a` that leaves box `i` to the right ends.
  function Follow(b: nat, len: nat, i: nat, a: nat): nat
    requires b > 1 && len > 1
    decreases len - i
  {
    if i + 1 >= len || a < NumIn(b, len, i + 1) then i + 1 else Follow(b, len, i + 1, a)
  }

  // It is the next multiple of base^a.
  lemma {:induction false} FollowTo(b: nat, len: nat, i: nat, j: nat, a: nat)
    requires b > 1 && len > 1 && Sends(b, len, i, a) && i <= j < i + Pow(b, a)
    ensures Follow(b, len, j, a) == i + Pow(b, a)
    decreases i + Pow(b, a) - j
  {
    var p := Pow(b, a);
    LevelsOf(b, len, j + 1, a);
    MultMod(i, p);
    MultSelf(p);
    MultAdd(i, p, p);
    MultMod(i + p, p);
    MultMod(j + 1, p);
    if j + 1 < i + p {
      if Mult(j + 1, p) { MultGap(i, j + 1, p); }
      FollowTo(b, len, i, j + 1, a);
    }
  }

  lemma WireLeadsToNextMultiple(b: nat, len: nat, i: nat, a: nat)
    requires b > 1 && len > 1 && a < NumOut(b, len, i)
    ensures i % Pow(b, a) == 0 && i + Pow(b, a) < len && Follow(b, len, i, a) == i + Pow(b, a)
  {
    LevelsOf(b, len, i, a);
    FollowTo(b, len, i, i, a);
  }

  // The box at which the wire of level `a` that leaves box `i` to the left ends.
  function FollowLeft(b: nat, len: nat, i: nat, a: nat): nat
    requires b > 1 && len > 1
    decreases i
  {
    if i == 0 then 0 else if i == 1 || a < NumOut(b, len, i - 1) then i - 1 else FollowLeft(b, len, i - 1, a)
  }

  lemma {:induction false} FollowLeftTo(b: nat, len: nat, i: nat, j: nat, a: nat)
    requires b > 1 && len > 1 && i < len && Takes(b, len, i, a) && Pow(b, a) <= i && i - Pow(b, a) < j <= i
    ensures FollowLeft(b, len, j, a) == i - Pow(b, a)
    decreases j
  {
    var p := Pow(b, a);
    LevelsOf(b, len, j - 1, a);
    MultMod(i, p);
    MultSelf(p);
    MultAdd(i, p, p);
    MultMod(i - p, p);
    MultMod(j - 1, p);
    if j - 1 > i - p {
      if Mult(j - 1, p) { MultGap(i - p, j - 1, p); }
      FollowLeftTo(b, len, i, j - 1, a);
    }
  }

  lemma WireLeadsToLastMultiple(b: nat, len: nat, i: nat, a: nat)
    requires b > 1 && len > 1 && i < len && a < NumIn(b, len, i)
    ensures i % Pow(b, a) == 0 && Pow(b, a) <= i && FollowLeft(b, len, i, a) == i - Pow(b, a)
  {
    LevelsOf(b, len, i, a);
    var p := Pow(b, a);
    MultMod(i, p);
    MultSelf(p);
    MultGap(0, i, p);
    FollowLeftTo(b, len, i, i, a);
  }
}
