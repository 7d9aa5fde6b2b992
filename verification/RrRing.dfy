/**
  The bytes of a ring buffer in the order in which a pointer meets them. A pointer may stand
  at the end of the data, which means the same byte as the start.
 */
module RrRing {
  import opened RrCrc

  // Where a pointer reads.
  function Ix(cap: nat, p: nat): nat { if p == cap then 0 else p }

  // The pointer after `k` bytes.
  function Adv(cap: nat, p: nat, k: nat): (q: nat)
    requires p <= cap && k <= 3 * cap
    ensures q <= cap
  {
    var q := Ix(cap, p) + k;
    if k == 0 then p else if q <= cap then q else if q <= 2 * cap then q - cap else if q <= 3 * cap then q - 2 * cap
    else q - 3 * cap
  }

  // The index of byte `k` behind a pointer.
  function Place(cap: nat, p: nat, k: nat): (i: nat)
    requires p <= cap && k < 3 * cap
    ensures i < cap
  {
    var q := Ix(cap, p) + k;
    if q < cap then q else if q < 2 * cap then q - cap else if q < 3 * cap then q - 2 * cap else q - 3 * cap
  }

  // All bytes, from a pointer on.
  function Ring(b: seq<Byte>, p: nat): (r: seq<Byte>)
    requires p <= |b|
    ensures |r| == |b| && forall i | 0 <= i < |b| :: r[i] == b[Place(|b|, p, i)]
  {
    seq(|b|, i requires 0 <= i < |b| => b[Place(|b|, p, i)])
  }

  // Byte `i` after a pointer; the ring may be passed twice.
  function RingAt(ring: seq<Byte>, i: nat): Byte
    requires i < 3 * |ring|
  {
    if i < |ring| then ring[i] else if i < 2 * |ring| then ring[i - |ring|] else ring[i - 2 * |ring|]
  }

  lemma AdvStep(cap: nat, p: nat, k: nat)
    requires p <= cap && k < 3 * cap
    ensures Ix(cap, Adv(cap, p, k)) == Place(cap, p, k) && Adv(cap, p, k + 1) == Place(cap, p, k) + 1
  {
  }

  lemma AdvTwice(cap: nat, p: nat, k: nat, n: nat)
    requires p <= cap && k + n <= cap
    ensures Adv(cap, Adv(cap, p, k), n) == Adv(cap, p, k + n)
  {
  }

  lemma RingRead(b: seq<Byte>, p: nat, k: nat)
    requires p <= |b| && k < 3 * |b|
    ensures b[Place(|b|, p, k)] == RingAt(Ring(b, p), k)
  {
    if k >= 2 * |b| {
      assert Place(|b|, p, k) == Place(|b|, p, k - 2 * |b|);
    } else if k >= |b| {
      assert Place(|b|, p, k) == Place(|b|, p, k - |b|);
    }
  }

  lemma RingWrite(b: seq<Byte>, p: nat, k: nat, v: Byte, b': seq<Byte>)
    requires p <= |b| && k < |b| && b' == b[Place(|b|, p, k) := v]
    ensures forall i | 0 <= i < |b| :: Ring(b', p)[i] == if i == k then v else Ring(b, p)[i]
  {
  }

  // The ring from a pointer further on.
  lemma RingShift(b: seq<Byte>, p: nat, n: nat, i: nat)
    requires p <= |b| && n <= |b| && i < |b|
    ensures Ring(b, Adv(|b|, p, n))[i] == RingAt(Ring(b, p), n + i)
  {
    RingRead(b, p, n + i);
    PlaceShift(|b|, p, n, i);
  }

  lemma PlaceShift(cap: nat, p: nat, n: nat, i: nat)
    requires p <= cap && n <= cap && i < cap
    ensures Place(cap, Adv(cap, p, n), i) == Place(cap, p, n + i)
  {
  }

  // One byte is read, and the pointer goes on.
  lemma ReadStep(b: seq<Byte>, p: nat, k: nat, dat: nat)
    requires p <= |b| && k < 3 * |b| && dat == Adv(|b|, p, k)
    ensures Ix(|b|, dat) < |b| && b[Ix(|b|, dat)] == RingAt(Ring(b, p), k)
    ensures Adv(|b|, p, k + 1) == Ix(|b|, dat) + 1
  {
    AdvStep(|b|, p, k);
    RingRead(b, p, k);
  }
}
