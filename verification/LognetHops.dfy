/** Routing in a lognet of base two. */
module LognetHops {
  import opened LognetPowers
  import opened LognetLinks
  import opened LognetSlices

  // Each target box sends a message by its slice vectors along one of its wires, and the message
  // reaches its target in a logarithmic number of hops.

  // Where a message comes from when it enters a target box, and where it goes.
  datatype Port = FromTarget | FromLeft | FromRight
  datatype Move = Deliver | GoRight(level: nat) | GoLeft(level: nat)

  function TopVec(slc: int, rel: seq<int>): (v: SliceVec)
    requires |rel| > 1
    ensures |v| == |rel|
  {
    seq(|rel|, j requires 0 <= j < |rel| => TopEdge(slc, rel, rel[|rel| - 1] < 0, j))
  }

  // The wire on one side, out of `h`, by the vector without the own address.
  function Level(idx: nat, h: nat, sd: Side, key: nat): nat {
    if h <= 1 then 0 else SliceOf(TopVec(idx, RelPos(h, sd, false)), key)
  }

  // The same with the own address as the first slice.
  function LevelOrOwn(idx: nat, h: nat, sd: Side, key: nat): nat
    requires h > 0
  {
    SliceOf(TopVec(idx, RelPos(h + 1, sd, true)), key)
  }

  // init_target_box and init_basic_target_box
  function Route(len: nat, idx: nat, port: Port, key: nat): Move
    requires len > 1 && idx < len
  {
    var lft, rgt := NumIn(2, len, idx), NumOut(2, len, idx);
    var itv := TopInterval(idx, len);
    match port
    case FromTarget =>
      if lft == 0 then GoRight(Level(idx, rgt, LeftSide, key))
      else if rgt == 0 || itv.lft.Compl().In(key) then GoLeft(Level(idx, lft, RightSide, key))
      else GoRight(Level(idx, rgt, LeftSide, key))
    case FromLeft =>
      if rgt == 0 || (lft == 1 && rgt == 1) then Deliver
      else if lft == 1 then
        (if itv.In(key) then Deliver else GoRight(Level(idx, rgt, LeftSide, key)))
      else
        var j := LevelOrOwn(idx, rgt, LeftSide, key);
        if j == 0 then Deliver else GoRight(j - 1)
    case FromRight =>
      if lft == 0 || (lft == 1 && rgt == 1) then Deliver
      else if rgt == 1 then
        (if itv.In(key) then Deliver else GoLeft(Level(idx, lft, RightSide, key)))
      else
        var j := LevelOrOwn(idx, lft, RightSide, key);
        if j == 0 then Deliver else GoLeft(j - 1)
  }

  // ---------------------------------------------------------------- what the vectors choose

  lemma TopVecLies(slc: int, rel: seq<int>, dec: bool, key: int)
    requires Ordered(rel, dec)
    ensures Lies(slc, rel, dec, key, SliceOf(TopVec(slc, rel), key))
  {
    TopDivides(slc, rel, TopVec(slc, rel));
    DividesSlices(TopVec(slc, rel), slc, rel, dec, a => a);
  }

  // Level `a` is the largest below `h` whose wire does not go too far for distance `d`.
  predicate Largest(h: nat, d: nat, a: nat) {
    a < h && Pow(2, a) <= d && (a + 1 < h ==> d < Pow(2, a + 1))
  }

  lemma LevelIsLargest(idx: nat, h: nat, sd: Side, key: nat)
    requires h > 0 && if sd == LeftSide then idx < key else key < idx
    ensures Largest(h, if sd == LeftSide then key - idx else idx - key, Level(idx, h, sd, key))
  {
    if h > 1 {
      RelPosOrdered(h, sd, false);
      TopVecLies(idx, RelPos(h, sd, false), sd == RightSide, key);
    }
  }

  lemma LevelOrOwnIsLargest(idx: nat, h: nat, sd: Side, key: nat)
    requires h > 0 && if sd == LeftSide then idx <= key else key <= idx
    ensures LevelOrOwn(idx, h, sd, key) == 0 <==> key == idx
    ensures key != idx ==>
      Largest(h, if sd == LeftSide then key - idx else idx - key, LevelOrOwn(idx, h, sd, key) - 1)
  {
    RelPosOrdered(h + 1, sd, true);
    TopVecLies(idx, RelPos(h + 1, sd, true), sd == RightSide, key);
    assert RelPos(h + 1, sd, true)[1] == if sd == LeftSide then 1 else -1;
  }

  // ---------------------------------------------------------------- the levels of a box

  // Level `a` is the largest by which position `i` can come closer by `d`.
  ghost predicate Best(i: nat, d: nat, a: nat) {
    Mult(i, Pow(2, a)) && Pow(2, a) <= d && !(Mult(i, Pow(2, a + 1)) && Pow(2, a + 1) <= d)
  }

  lemma ShortLevel(len: nat, a: nat)
    requires len > 1 && Pow(2, a) < len
    ensures a < MaxLevel(2, len)
  {
    if a >= MaxLevel(2, len) { PowGrows(2, MaxLevel(2, len), a); }
  }

  lemma UpIsBest(len: nat, i: nat, key: nat, a: nat)
    requires len > 1 && i < key < len && Largest(NumOut(2, len, i), key - i, a)
    ensures Best(i, key - i, a)
  {
    LevelsOf(2, len, i, a);
    LevelsOf(2, len, i, a + 1);
    MultMod(i, Pow(2, a));
    MultMod(i, Pow(2, a + 1));
    if Pow(2, a + 1) <= key - i { ShortLevel(len, a + 1); }
  }

  lemma DownIsBest(len: nat, i: nat, key: nat, a: nat)
    requires len > 1 && key < i < len && Largest(NumIn(2, len, i), i - key, a)
    ensures Best(i, i - key, a)
  {
    LevelsOf(2, len, i, a);
    LevelsOf(2, len, i, a + 1);
    MultMod(i, Pow(2, a));
    MultMod(i, Pow(2, a + 1));
    if Pow(2, a + 1) <= i - key { ShortLevel(len, a + 1); }
  }

  // There is a wire for every target that is not here; even boxes have more than one on the
  // left, and odd boxes have no more than one on either side.
  lemma Sides(len: nat, i: nat)
    requires len > 1 && i < len
    ensures i + 1 < len ==> NumOut(2, len, i) > 0
    ensures i > 0 ==> NumIn(2, len, i) > 0
    ensures i == 0 ==> NumIn(2, len, i) == 0
    ensures i > 0 && i % 2 == 0 ==> NumIn(2, len, i) > 1
    ensures i % 2 == 1 ==> NumIn(2, len, i) <= 1 && NumOut(2, len, i) <= 1
    ensures i + 1 == len ==> NumOut(2, len, i) == 0
  {
    assert Pow(2, 0) == 1 && Pow(2, 1) == 2;
    LevelsOf(2, len, i, 0);
    LevelsOf(2, len, i, 1);
    ShortLevel(len, 0);
    if len > 2 { ShortLevel(len, 1); }
  }

  // A message that comes to an odd box has arrived.
  predicate Came(i: nat, key: nat) { i % 2 == 0 || key == i }

  lemma UpRoute(len: nat, i: nat, port: Port, key: nat)
    requires len > 1 && i <= key < len
    requires (port == FromTarget && i < key) || (port == FromLeft && i > 0 && Came(i, key))
    ensures i == key ==> Route(len, i, port, key) == Deliver
    ensures i < key ==>
      var m := Route(len, i, port, key);
      m.GoRight? && m.level < NumOut(2, len, i) && Best(i, key - i, m.level)
  {
    Sides(len, i);
    var rgt := NumOut(2, len, i);
    if i < key { LevelIsLargest(i, rgt, LeftSide, key); }
    if rgt > 0 { LevelOrOwnIsLargest(i, rgt, LeftSide, key); }
    if i < key { UpIsBest(len, i, key, Route(len, i, port, key).level); }
  }

  lemma DownRoute(len: nat, i: nat, port: Port, key: nat)
    requires len > 1 && key <= i < len
    requires (port == FromTarget && key < i) || (port == FromRight && i + 1 < len && Came(i, key))
    ensures i == key ==> Route(len, i, port, key) == Deliver
    ensures key < i ==>
      var m := Route(len, i, port, key);
      m.GoLeft? && m.level < NumIn(2, len, i) && Best(i, i - key, m.level)
  {
    Sides(len, i);
    var lft := NumIn(2, len, i);
    if key < i { LevelIsLargest(i, lft, RightSide, key); }
    if lft > 0 { LevelOrOwnIsLargest(i, lft, RightSide, key); }
    if key < i { DownIsBest(len, i, key, Route(len, i, port, key).level); }
  }

  // ---------------------------------------------------------------- whole trips

  datatype Trip = Arrived(path: seq<nat>) | Lost

  function Dist(i: nat, j: nat): nat { if i < j then j - i else i - j }

  // The boxes that a message visits after box `i`, until a box keeps it. A hop that does not
  // come closer counts as lost.
  function Travel(len: nat, i: nat, port: Port, key: nat): Trip
    requires len > 1 && i < len
    decreases Dist(i, key)
  {
    match Route(len, i, port, key)
    case Deliver => Arrived([])
    case GoRight(a) =>
      var nx := Follow(2, len, i, a);
      if nx < len && Dist(nx, key) < Dist(i, key) then Onward(nx, Travel(len, nx, FromLeft, key)) else Lost
    case GoLeft(a) =>
      var nx := FollowLeft(2, len, i, a);
      if nx < len && Dist(nx, key) < Dist(i, key) then Onward(nx, Travel(len, nx, FromRight, key)) else Lost
  }

  function Onward(nx: nat, t: Trip): Trip {
    match t case Lost => Lost case Arrived(p) => Arrived([nx] + p)
  }

  // The message comes to `key` in at most `n` hops, and every box on the way lies between.
  ghost predicate GoodTrip(t: Trip, i: nat, key: nat, n: nat) {
    && t.Arrived? && |t.path| <= n
    && (if t.path == [] then i == key else t.path[|t.path| - 1] == key)
    && forall k | 0 <= k < |t.path| :: (if i <= key then i < t.path[k] <= key else key <= t.path[k] < i)
  }

  lemma OnwardGood(t: Trip, i: nat, nx: nat, key: nat, n: nat)
    requires GoodTrip(t, nx, key, n) && (i < nx <= key || key <= nx < i)
    requires i < key ==> nx <= key
    ensures GoodTrip(Onward(nx, t), i, key, n + 1)
  {
    var p := [nx] + t.path;
    forall k | 0 <= k < |p| ensures if i <= key then i < p[k] <= key else key <= p[k] < i {
      if k > 0 { assert p[k] == t.path[k - 1]; }
    }
  }

  // The message is on its way up, or down, or starts.
  predicate OnTheWay(len: nat, i: nat, port: Port, key: nat) {
    && i < len && key < len && len > 1
    && match port
       case FromTarget => i != key
       case FromLeft => 0 < i <= key && Came(i, key)
       case FromRight => key <= i && i + 1 < len && Came(i, key)
  }

  // The next box that the message comes to; it lies between.
  ghost predicate Leads(len: nat, i: nat, port: Port, key: nat, nx: nat, next: Port) {
    && OnTheWay(len, i, port, key) && OnTheWay(len, nx, next, key)
    && (if i < key then i < nx <= key else key <= nx < i)
    && Travel(len, i, port, key) == Onward(nx, Travel(len, nx, next, key))
  }

  // One step of Travel.
  lemma TravelRight(len: nat, i: nat, port: Port, key: nat, a: nat, nx: nat)
    requires len > 1 && i < len && Route(len, i, port, key) == GoRight(a) && Follow(2, len, i, a) == nx
    requires nx < len && Dist(nx, key) < Dist(i, key)
    ensures Travel(len, i, port, key) == Onward(nx, Travel(len, nx, FromLeft, key))
  {
  }

  lemma TravelLeft(len: nat, i: nat, port: Port, key: nat, a: nat, nx: nat)
    requires len > 1 && i < len && Route(len, i, port, key) == GoLeft(a) && FollowLeft(2, len, i, a) == nx
    requires nx < len && Dist(nx, key) < Dist(i, key)
    ensures Travel(len, i, port, key) == Onward(nx, Travel(len, nx, FromRight, key))
  {
  }

  lemma UpHop(len: nat, i: nat, port: Port, key: nat) returns (a: nat)
    requires OnTheWay(len, i, port, key) && i < key
    ensures Best(i, key - i, a) && Leads(len, i, port, key, i + Pow(2, a), FromLeft)
  {
    UpRoute(len, i, port, key);
    a := Route(len, i, port, key).level;
    WireLeadsToNextMultiple(2, len, i, a);
    CameNext(i, key - i, a, i + Pow(2, a));
    TravelRight(len, i, port, key, a, i + Pow(2, a));
  }

  lemma DownHop(len: nat, i: nat, port: Port, key: nat) returns (a: nat)
    requires OnTheWay(len, i, port, key) && key < i
    ensures Best(i, i - key, a) && Pow(2, a) <= i && Leads(len, i, port, key, i - Pow(2, a), FromRight)
  {
    DownRoute(len, i, port, key);
    a := Route(len, i, port, key).level;
    WireLeadsToLastMultiple(2, len, i, a);
    CameNext(i, i - key, a, i - Pow(2, a));
    TravelLeft(len, i, port, key, a, i - Pow(2, a));
  }

  // One hop by the best level.
  lemma OneHop(len: nat, i: nat, port: Port, key: nat) returns (a: nat, nx: nat, next: Port)
    requires OnTheWay(len, i, port, key) && i != key
    ensures Best(i, Dist(i, key), a) && Leads(len, i, port, key, nx, next)
    ensures nx == if i < key then i + Pow(2, a) else i - Pow(2, a)
  {
    if i < key {
      a := UpHop(len, i, port, key);
      nx, next := i + Pow(2, a), FromLeft;
    } else {
      a := DownHop(len, i, port, key);
      nx, next := i - Pow(2, a), FromRight;
    }
  }

  // After a hop of one the distance is nothing, or the box is even.
  lemma CameNext(i: nat, d: nat, a: nat, nx: nat)
    requires Best(i, d, a) && (nx == i + Pow(2, a) || nx == i - Pow(2, a))
    ensures nx % 2 == 0 || d == Pow(2, a)
  {
    assert Pow(2, 0) == 1 && Pow(2, 1) == 2;
    MultMod(i, Pow(2, 1));
    if a > 0 {
      MultDown(i, 2, 1, a);
      MultSelf(Pow(2, a));
      MultDown(Pow(2, a), 2, 1, a);
      MultAdd(i, Pow(2, a), 2);
      MultMod(nx, 2);
    }
  }

  lemma AtTarget(len: nat, i: nat, port: Port, key: nat)
    requires OnTheWay(len, i, port, key) && i == key
    ensures Travel(len, i, port, key) == Arrived([])
  {
    if port == FromLeft { UpRoute(len, i, port, key); } else { DownRoute(len, i, port, key); }
  }

  // With a multiple of 2^n and a distance below it, a hop takes the highest bit of the distance.
  lemma DescendingHop(len: nat, i: nat, port: Port, key: nat, n: nat) returns (a: nat, nx: nat, next: Port)
    requires OnTheWay(len, i, port, key) && i != key && Mult(i, Pow(2, n)) && Dist(i, key) < Pow(2, n)
    ensures a < n && Mult(nx, Pow(2, a)) && Dist(nx, key) < Pow(2, a) && Leads(len, i, port, key, nx, next)
  {
    a, nx, next := OneHop(len, i, port, key);
    if a >= n { PowGrows(2, n, a); }
    MultDown(i, 2, a + 1, n);
    MultSelf(Pow(2, a));
    MultAdd(i, Pow(2, a), Pow(2, a));
  }

  // The whole trip from box `i` takes at most `n` hops.
  ghost predicate Arrives(len: nat, i: nat, port: Port, key: nat, n: nat) {
    len > 1 && i < len && GoodTrip(Travel(len, i, port, key), i, key, n)
  }

  lemma OneMoreHop(len: nat, i: nat, port: Port, key: nat, nx: nat, next: Port, n: nat)
    requires Leads(len, i, port, key, nx, next) && Arrives(len, nx, next, key, n)
    ensures Arrives(len, i, port, key, n + 1)
  {
    OnwardGood(Travel(len, nx, next, key), i, nx, key, n);
  }

  lemma FewerHops(len: nat, i: nat, port: Port, key: nat, n: nat, m: nat)
    requires Arrives(len, i, port, key, n) && n <= m
    ensures Arrives(len, i, port, key, m)
  {
  }

  lemma {:induction false} Descending(len: nat, i: nat, port: Port, key: nat, n: nat)
    requires OnTheWay(len, i, port, key) && Mult(i, Pow(2, n)) && Dist(i, key) < Pow(2, n)
    ensures Arrives(len, i, port, key, n)
    decreases n
  {
    if i == key {
      AtTarget(len, i, port, key);
    } else {
      var a, nx, next := DescendingHop(len, i, port, key, n);
      Descending(len, nx, next, key, a);
      OneMoreHop(len, i, port, key, nx, next, a);
      FewerHops(len, i, port, key, a + 1, n);
    }
  }

  // From an exact multiple of 2^v, a hop of that length leads to a multiple of the next power.
  lemma AscendingHop(len: nat, i: nat, port: Port, key: nat, v: nat) returns (nx: nat, next: Port)
    requires OnTheWay(len, i, port, key) && Mult(i, Pow(2, v)) && !Mult(i, Pow(2, v + 1)) && Pow(2, v) <= Dist(i, key)
    ensures Mult(nx, Pow(2, v + 1)) && Dist(nx, key) < Dist(i, key) && Leads(len, i, port, key, nx, next)
  {
    var a;
    a, nx, next := OneHop(len, i, port, key);
    BestIsExact(i, Dist(i, key), v, a);
    MultTwo(i, v);
  }

  // Every hop leads to a multiple of a higher power, up to 2^top, which is above all distances.
  lemma {:induction false} Ascending(len: nat, i: nat, port: Port, key: nat, v: nat, top: nat)
    requires OnTheWay(len, i, port, key) && Mult(i, Pow(2, v)) && v <= top && Dist(i, key) < Pow(2, top)
    ensures Arrives(len, i, port, key, 2 * top - v)
    decreases top - v
  {
    if Dist(i, key) < Pow(2, v) {
      Descending(len, i, port, key, v);
      FewerHops(len, i, port, key, v, 2 * top - v);
    } else if Mult(i, Pow(2, v + 1)) {
      Ascending(len, i, port, key, v + 1, top);
      FewerHops(len, i, port, key, 2 * top - (v + 1), 2 * top - v);
    } else {
      var nx, next := AscendingHop(len, i, port, key, v);
      Ascending(len, nx, next, key, v + 1, top);
      OneMoreHop(len, i, port, key, nx, next, 2 * top - (v + 1));
    }
  }

  lemma BestIsExact(i: nat, d: nat, v: nat, a: nat)
    requires Best(i, d, a) && Mult(i, Pow(2, v)) && !Mult(i, Pow(2, v + 1)) && Pow(2, v) <= d
    ensures a == v
  {
    if a > v { MultDown(i, 2, v + 1, a); }
    if a < v {
      MultDown(i, 2, a + 1, v);
      PowGrows(2, a + 1, v);
    }
  }

  // From any target to any other, the message arrives, never passes its target, and takes at
  // most twice as many hops as the network has levels.
  lemma EveryMessageArrives(len: nat, src: nat, dst: nat)
    requires len > 1 && src < len && dst < len && src != dst
    ensures GoodTrip(Travel(len, src, FromTarget, dst), src, dst, 2 * (Log(2, len - 1) + 1))
  {
    MultSelf(1);
    assert Pow(2, 0) == 1;
    assert src == src * 1;
    Ascending(len, src, FromTarget, dst, 0, Log(2, len - 1) + 1);
  }
}
