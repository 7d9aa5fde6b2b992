/**
  mc_crc16 of rr_array.c: the frame check sequence of RFC 1662, appendix C.2, with its two
  bytes swapped.
 */
module RrCrc {
  type Byte = b: nat | b < 0x100
  type Word = w: nat | w < 0x10000

  // ---------------------------------------------------------------- numbers and their bits

  function LowBit(n: nat): bv16 { if n % 2 == 1 then 1 else 0 }

  // The low `k` bits of a number.
  function Bits(n: nat, k: nat): bv16
    decreases k
  {
    if k == 0 then 0 else (Bits(n / 2, k - 1) << 1) | LowBit(n)
  }

  function Number(v: bv16, k: nat): (n: nat)
    decreases k
  {
    if k == 0 then 0 else 2 * Number(v >> 1, k - 1) + (if v & 1 == 1 then 1 else 0)
  }

  function Pow2(k: nat): (p: nat)
    ensures p > 0
  {
    if k == 0 then 1 else 2 * Pow2(k - 1)
  }

  lemma {:induction false} NumberBound(v: bv16, k: nat)
    ensures Number(v, k) < Pow2(k)
    decreases k
  {
    if k > 0 { NumberBound(v >> 1, k - 1); }
  }

  lemma BitShifted(x: bv16, y: bv16, b: bv16, c: bv16)
    requires x < 0x8000 && y < 0x8000 && (b == 0 || b == 1) && (c == 0 || c == 1)
    requires (x << 1) | b == (y << 1) | c
    ensures x == y && b == c
  {
  }

  lemma {:induction false} BitsBound(n: nat, k: nat)
    requires k <= 8
    ensures Bits(n, k) < [1, 2, 4, 8, 16, 32, 64, 128, 256][k]
    decreases k
  {
    if k > 0 {
      BitsBound(n / 2, k - 1);
      var x := Bits(n / 2, k - 1);
      BitBound(x, LowBit(n));
    }
  }

  lemma BitBound(x: bv16, b: bv16)
    requires b == 0 || b == 1
    ensures x < 1 ==> (x << 1) | b < 2
    ensures x < 2 ==> (x << 1) | b < 4
    ensures x < 4 ==> (x << 1) | b < 8
    ensures x < 8 ==> (x << 1) | b < 16
    ensures x < 16 ==> (x << 1) | b < 32
    ensures x < 32 ==> (x << 1) | b < 64
    ensures x < 64 ==> (x << 1) | b < 128
    ensures x < 128 ==> (x << 1) | b < 256
  {
  }

  lemma {:induction false} BitsOneToOne(a: nat, b: nat, k: nat)
    requires k <= 8 && a < Pow2(k) && b < Pow2(k) && Bits(a, k) == Bits(b, k)
    ensures a == b
    decreases k
  {
    if k > 0 {
      BitsBound(a / 2, k - 1);
      BitsBound(b / 2, k - 1);
      BitShifted(Bits(a / 2, k - 1), Bits(b / 2, k - 1), LowBit(a), LowBit(b));
      BitsOneToOne(a / 2, b / 2, k - 1);
    }
  }

  // Numbers of `k` bits: the rest of the word is gone.
  lemma {:induction false} NumberOneToOne(v: bv16, w: bv16, k: nat)
    requires Rest(v, k) == 0 && Rest(w, k) == 0 && Number(v, k) == Number(w, k)
    ensures v == w
    decreases k
  {
    if k > 0 {
      NumberOneToOne(v >> 1, w >> 1, k - 1);
      HalvesEqual(v, w);
    }
  }

  lemma HalvesEqual(v: bv16, w: bv16)
    requires v >> 1 == w >> 1 && (v & 1 == 1 <==> w & 1 == 1)
    ensures v == w
  {
  }

  // What is left of a word when `n` bits are shifted out.
  function Rest(data: bv16, n: nat): bv16
    decreases n
  {
    if n == 0 then data else Rest(data >> 1, n - 1)
  }

  // ---------------------------------------------------------------- the check
  // One bit of the data, from its low end.
  function BitStep(crc: bv16, data: bv16): bv16 {
    if (crc & 1) ^ (data & 1) != 0 then (crc >> 1) ^ 0x8408 else crc >> 1
  }

  function BitSteps(crc: bv16, data: bv16, n: nat): bv16
    decreases n
  {
    if n == 0 then crc else BitSteps(BitStep(crc, data), data >> 1, n - 1)
  }

  // All bits of a byte of width `n`.
  function ByteStep(crc: bv16, b: nat, n: nat): bv16 { BitSteps(crc, Bits(b, n), n) }

  function CrcFrom(crc: bv16, data: seq<nat>, n: nat): bv16
    decreases |data|
  {
    if data == [] then crc else CrcFrom(ByteStep(crc, data[0], n), data[1..], n)
  }

  function Swapped(v: bv16): bv16 { (v << 8) | (v >> 8) }

  // The complement; its bytes change places if there was any data.
  function CrcBits(data: seq<Byte>): bv16 {
    if data == [] then !0xffff else Swapped(!CrcFrom(0xffff, data, 8))
  }

  function Crc(data: seq<Byte>): Word {
    NumberBound(CrcBits(data), 16);
    PowersOfTwo();
    Number(CrcBits(data), 16)
  }

  method Crc16(data: seq<Byte>) returns (r: nat)
    ensures r == Crc(data)
  {
    var crc: bv16 := 0xffff;
    if |data| == 0 { return Number(!crc, 16); }
    var i := 0;
    while i < |data|
      invariant 0 <= i <= |data| && CrcFrom(crc, data[i..], 8) == CrcFrom(0xffff, data, 8)
    {
      assert data[i..][1..] == data[i + 1..];
      crc := Crc16Byte(crc, data[i]);
      i := i + 1;
    }
    crc := Swapped(!crc);
    return Number(crc, 16);
  }

  // The inner loop of mc_crc16.
  method Crc16Byte(before: bv16, b: Byte) returns (crc: bv16)
    ensures crc == ByteStep(before, b, 8)
  {
    crc := before;
    var data: bv16 := Bits(b, 8);
    for ii := 0 to 8
      invariant BitSteps(crc, data, 8 - ii) == ByteStep(before, b, 8)
    {
      if (crc & 1) ^ (data & 1) != 0 { crc := (crc >> 1) ^ 0x8408; } else { crc := crc >> 1; }
      data := data >> 1;
    }
  }

  // ---------------------------------------------------------------- one wrong byte is seen

  // Register and data enter a step together: it shifts their exclusive or.
  function Shift(x: bv16): bv16 { if x & 1 == 1 then (x >> 1) ^ 0x8408 else x >> 1 }

  function Shifts(x: bv16, n: nat): bv16
    decreases n
  {
    if n == 0 then x else Shifts(Shift(x), n - 1)
  }

  lemma ShiftOneToOne(x: bv16, y: bv16)
    requires Shift(x) == Shift(y)
    ensures x == y
  {
  }

  lemma {:induction false} ShiftsOneToOne(x: bv16, y: bv16, n: nat)
    requires Shifts(x, n) == Shifts(y, n)
    ensures x == y
    decreases n
  {
    if n > 0 {
      ShiftsOneToOne(Shift(x), Shift(y), n - 1);
      ShiftOneToOne(x, y);
    }
  }

  lemma SameBits(c: bv16, d: bv16)
    requires c & 1 == d & 1
    ensures BitStep(c, d) == c >> 1 && Shift(c ^ d) == (c ^ d) >> 1
  {
  }

  lemma DifferentBits(c: bv16, d: bv16)
    requires c & 1 != d & 1
    ensures BitStep(c, d) == (c >> 1) ^ 0x8408 && Shift(c ^ d) == ((c ^ d) >> 1) ^ 0x8408
  {
  }

  lemma HalvesOfXor(c: bv16, d: bv16)
    ensures (c >> 1) ^ (d >> 1) == (c ^ d) >> 1
    ensures ((c >> 1) ^ 0x8408) ^ (d >> 1) == ((c ^ d) >> 1) ^ 0x8408
  {
  }

  lemma NextXor(c: bv16, d: bv16, x: bv16)
    requires c ^ d == x
    ensures BitStep(c, d) ^ (d >> 1) == Shift(x)
  {
    HalvesOfXor(c, d);
    if c & 1 == d & 1 { SameBits(c, d); } else { DifferentBits(c, d); }
  }

  lemma {:induction false} BitsAreShifts(crc: bv16, data: bv16, n: nat, x: bv16)
    requires crc ^ data == x
    ensures BitSteps(crc, data, n) ^ Rest(data, n) == Shifts(x, n)
    decreases n
  {
    if n > 0 {
      NextXor(crc, data, x);
      BitsAreShifts(BitStep(crc, data), data >> 1, n - 1, Shift(x));
      BitsUnfold(crc, data, n, x);
    }
  }

  lemma BitsUnfold(crc: bv16, data: bv16, n: nat, x: bv16)
    requires n > 0
    ensures BitSteps(crc, data, n) == BitSteps(BitStep(crc, data), data >> 1, n - 1)
    ensures Rest(data, n) == Rest(data >> 1, n - 1) && Shifts(x, n) == Shifts(Shift(x), n - 1)
  {
  }

  lemma {:induction false} ByteGone(d: bv16, n: nat)
    requires n <= 8 && d < 0x100 && (n == 8 || d < [1, 2, 4, 8, 16, 32, 64, 128][n])
    ensures Rest(d, n) == 0
    decreases n
  {
    if n > 0 {
      assert n == 8 ==> d >> 1 < 128;
      assert n == 7 ==> d >> 1 < 64;
      assert n == 6 ==> d >> 1 < 32;
      assert n == 5 ==> d >> 1 < 16;
      assert n == 4 ==> d >> 1 < 8;
      assert n == 3 ==> d >> 1 < 4;
      assert n == 2 ==> d >> 1 < 2;
      assert n == 1 ==> d >> 1 < 1;
      ByteGone(d >> 1, n - 1);
    }
  }

  lemma XorZero(x: bv16, zero: bv16, y: bv16)
    requires x ^ zero == y && zero == 0
    ensures x == y
  {
  }

  lemma StepsAreShifts(crc: bv16, d: bv16, n: nat, x: bv16)
    requires x == crc ^ d && Rest(d, n) == 0
    ensures BitSteps(crc, d, n) == Shifts(x, n)
  {
    BitsAreShifts(crc, d, n, x);
    XorZero(BitSteps(crc, d, n), Rest(d, n), Shifts(x, n));
  }

  lemma StepsOneToOne(c1: bv16, d1: bv16, c2: bv16, d2: bv16, n: nat)
    requires BitSteps(c1, d1, n) == BitSteps(c2, d2, n) && Rest(d1, n) == 0 && Rest(d2, n) == 0
    ensures c1 ^ d1 == c2 ^ d2
  {
    var x1, x2 := c1 ^ d1, c2 ^ d2;
    StepsAreShifts(c1, d1, n, x1);
    StepsAreShifts(c2, d2, n, x2);
    ShiftsOneToOne(x1, x2, n);
  }

  lemma XorCancels(c: bv16, d: bv16, e: bv16)
    ensures c ^ d == c ^ e ==> d == e
    ensures d ^ c == e ^ c ==> d == e
  {
  }

  lemma BitsGone(b: nat, n: nat)
    requires n <= 8
    ensures Rest(Bits(b, n), n) == 0
  {
    BitsBound(b, n);
    ByteGone(Bits(b, n), n);
  }

  lemma ByteStepsShift(c1: bv16, b1: nat, c2: bv16, b2: nat, n: nat)
    requires n <= 8 && ByteStep(c1, b1, n) == ByteStep(c2, b2, n)
    ensures c1 ^ Bits(b1, n) == c2 ^ Bits(b2, n)
  {
    BitsGone(b1, n);
    BitsGone(b2, n);
    StepsOneToOne(c1, Bits(b1, n), c2, Bits(b2, n), n);
  }

  // A byte step loses nothing: it tells registers apart,
  lemma RegistersApart(c1: bv16, c2: bv16, b: nat, n: nat)
    requires n <= 8 && ByteStep(c1, b, n) == ByteStep(c2, b, n)
    ensures c1 == c2
  {
    ByteStepsShift(c1, b, c2, b, n);
    XorCancels(Bits(b, n), c1, c2);
  }

  // and it tells bytes apart.
  lemma BytesApart(c: bv16, b1: nat, b2: nat, n: nat)
    requires n <= 8 && b1 < Pow2(n) && b2 < Pow2(n) && ByteStep(c, b1, n) == ByteStep(c, b2, n)
    ensures b1 == b2
  {
    ByteStepsShift(c, b1, c, b2, n);
    XorCancels(c, Bits(b1, n), Bits(b2, n));
    BitsOneToOne(b1, b2, n);
  }

  lemma PowersOfTwo()
    ensures Pow2(8) == 0x100 && Pow2(16) == 0x10000
  {
    assert Pow2(4) == 16 && Pow2(8) == 256 && Pow2(12) == 4096;
  }

  lemma {:induction false} CrcFromOneToOne(c1: bv16, c2: bv16, data: seq<nat>, n: nat)
    requires n <= 8 && CrcFrom(c1, data, n) == CrcFrom(c2, data, n)
    ensures c1 == c2
    decreases |data|
  {
    if data != [] {
      CrcFromOneToOne(ByteStep(c1, data[0], n), ByteStep(c2, data[0], n), data[1..], n);
      RegistersApart(c1, c2, data[0], n);
    }
  }

  // Same length, and just byte `k` is different.
  predicate OneByteOff(a: seq<nat>, b: seq<nat>, k: nat) {
    |a| == |b| && k < |a| && a[k] != b[k] && forall i | 0 <= i < |a| && i != k :: a[i] == b[i]
  }

  lemma {:induction false} OneByteOffFrom(crc: bv16, a: seq<nat>, b: seq<nat>, k: nat, n: nat)
    requires n <= 8 && OneByteOff(a, b, k) && a[k] < Pow2(n) && b[k] < Pow2(n)
    ensures CrcFrom(crc, a, n) != CrcFrom(crc, b, n)
    decreases |a|
  {
    if k == 0 {
      assert a[1..] == b[1..];
      if CrcFrom(crc, a, n) == CrcFrom(crc, b, n) {
        CrcFromOneToOne(ByteStep(crc, a[0], n), ByteStep(crc, b[0], n), a[1..], n);
        BytesApart(crc, a[0], b[0], n);
      }
    } else {
      OneByteOffFrom(ByteStep(crc, a[0], n), a[1..], b[1..], k - 1, n);
    }
  }

  lemma SwappedOneToOne(x: bv16, y: bv16)
    requires Swapped(!x) == Swapped(!y)
    ensures x == y
  {
  }

  // Data of any length that differ in exactly one byte have different checks.
  lemma OneByteOffIsSeen(a: seq<Byte>, b: seq<Byte>, k: nat)
    requires OneByteOff(a, b, k)
    ensures Crc(a) != Crc(b)
  {
    PowersOfTwo();
    OneByteOffFrom(0xffff, a, b, k, 8);
    WordGone(CrcBits(a));
    WordGone(CrcBits(b));
    if Crc(a) == Crc(b) {
      NumberOneToOne(CrcBits(a), CrcBits(b), 16);
      SwappedOneToOne(CrcFrom(0xffff, a, 8), CrcFrom(0xffff, b, 8));
    }
  }

  lemma WordGone(v: bv16)
    ensures Rest(v, 16) == 0
  {
    var x := Rest(v, 8);
    RestTwice(v, 8, 8);
    HighByte(v);
    ByteGone(v >> 8, 8);
  }

  lemma {:induction false} RestTwice(v: bv16, n: nat, k: nat)
    ensures Rest(v, n + k) == Rest(Rest(v, n), k)
    decreases n
  {
    if n > 0 { RestTwice(v >> 1, n - 1, k); }
  }

  lemma HighByte(v: bv16)
    ensures Rest(v, 8) == v >> 8 && v >> 8 < 0x100
  {
    RestTwice(v, 4, 4);
    assert Rest(v, 4) == v >> 4;
    assert Rest(v >> 4, 4) == v >> 8;
  }
}
