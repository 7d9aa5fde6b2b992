/**
  The good-frame residue of the check. Data that are followed by their check, high byte first,
  leave the register at 0xF0B8, and data followed by any other two bytes do not: the test of
  appendix C.2 of RFC 1662 for a good frame. It ties the start value, the polynomial, the
  complement and the order of the bytes together.
 */
module RrResidue {
  import opened RrCrc

  // ---------------------------------------------------------------- low bits

  // The low `k` bits of a word.
  function Low(v: bv16, k: nat): bv16
    decreases k
  {
    if k == 0 then 0 else (Low(v >> 1, k - 1) << 1) | (v & 1)
  }

  lemma LowUnfold(v: bv16, k: nat)
    requires k > 0
    ensures Low(v, k) == (Low(v >> 1, k - 1) << 1) | (v & 1)
  {
  }

  function MaskOf(k: nat): bv16
    requires k <= 8
  {
    [0, 1, 3, 7, 0xf, 0x1f, 0x3f, 0x7f, 0xff][k]
  }

  lemma Masks(k: nat)
    requires 0 < k <= 8
    ensures MaskOf(k - 1) < 0x8000 && (MaskOf(k - 1) << 1) | 1 == MaskOf(k)
  {
  }

  lemma MaskBit(v: bv16, m: bv16)
    ensures (((v >> 1) & m) << 1) | (v & 1) == v & ((m << 1) | 1)
  {
  }

  lemma {:induction false} LowIs(v: bv16, k: nat)
    requires k <= 8
    ensures Low(v, k) == v & MaskOf(k)
    decreases k
  {
    if k == 0 {
      NoBits(v);
    } else {
      LowIs(v >> 1, k - 1);
      LowUnfold(v, k);
      MaskBit(v, MaskOf(k - 1));
      Masks(k);
    }
  }

  lemma LowByte(v: bv16)
    ensures Low(v, 8) == v & 0xff
  {
    LowIs(v, 8);
  }

  lemma NoBits(v: bv16)
    ensures v & 0 == 0
  {
  }

  lemma NumberHalves(v: bv16, k: nat, half: nat)
    requires k > 0 && half == Number(v >> 1, k - 1)
    ensures Number(v, k) / 2 == half && LowBit(Number(v, k)) == v & 1
  {
    var n := Number(v, k);
    assert n == 2 * half + (if v & 1 == 1 then 1 else 0);
    OneBit(v);
  }

  lemma OneBit(v: bv16)
    ensures v & 1 == 0 || v & 1 == 1
  {
  }

  lemma BitsHalves(n: nat, k: nat, x: bv16)
    requires k > 0 && Bits(n / 2, k - 1) == x
    ensures Bits(n, k) == (x << 1) | LowBit(n)
  {
  }

  // The bits of a number that was read off a word are those of the word.
  lemma {:induction false} BitsOfNumber(v: bv16, k: nat)
    ensures Bits(Number(v, k), k) == Low(v, k)
    decreases k
  {
    if k > 0 {
      var w := v >> 1;
      BitsOfNumber(w, k - 1);
      var x := Low(w, k - 1);
      NumberHalves(v, k, Number(w, k - 1));
      BitsHalves(Number(v, k), k, x);
      LowUnfold(v, k);
    }
  }

  lemma {:induction false} NumberAdd(v: bv16, n: nat, k: nat)
    ensures Number(v, n + k) == Number(v, n) + Pow2(n) * Number(Rest(v, n), k)
    decreases n
  {
    if n > 0 {
      NumberAdd(v >> 1, n - 1, k);
      NumberStep(v, n, k, if v & 1 == 1 then 1 else 0, Number(Rest(v, n), k));
    }
  }

  lemma NumberStep(v: bv16, n: nat, k: nat, b: nat, x: nat)
    requires n > 0 && b == if v & 1 == 1 then 1 else 0
    requires Number(v >> 1, n - 1 + k) == Number(v >> 1, n - 1) + Pow2(n - 1) * x
    ensures Number(v, n + k) == Number(v, n) + Pow2(n) * x
  {
    var y, z, p := Number(v >> 1, n - 1 + k), Number(v >> 1, n - 1), Pow2(n - 1);
    NumberIs(v, n + k, b);
    NumberIs(v, n, b);
    assert Pow2(n) == 2 * p;
    TwiceProduct(p, x);
  }

  lemma NumberIs(v: bv16, n: nat, b: nat)
    requires n > 0 && b == if v & 1 == 1 then 1 else 0
    ensures Number(v, n) == 2 * Number(v >> 1, n - 1) + b
  {
  }

  lemma TwiceProduct(p: nat, x: nat)
    ensures 2 * (p * x) == (2 * p) * x
  {
  }

  // ---------------------------------------------------------------- two bytes are sixteen bits

  // Equal in the low `k` bits.
  predicate SameLow(v: bv16, w: bv16, k: nat)
    decreases k
  {
    k > 0 ==> v & 1 == w & 1 && SameLow(v >> 1, w >> 1, k - 1)
  }

  lemma MaskHalves(v: bv16, w: bv16, m: bv16, more: bv16)
    requires m < 0x8000 && more == (m << 1) | 1 && v & more == w & more
    ensures v & 1 == w & 1 && (v >> 1) & m == (w >> 1) & m
  {
  }

  lemma SameLowMore(v: bv16, w: bv16, k: nat)
    requires v & 1 == w & 1 && SameLow(v >> 1, w >> 1, k)
    ensures SameLow(v, w, k + 1)
  {
  }

  lemma Same1(v: bv16, w: bv16)
    requires v & 1 == w & 1
    ensures SameLow(v, w, 1)
  {
  }

  lemma Same2(v: bv16, w: bv16)
    requires v & 0x3 == w & 0x3
    ensures SameLow(v, w, 2)
  {
    MaskHalves(v, w, 0x1, 0x3);
    Same1(v >> 1, w >> 1);
    SameLowMore(v, w, 1);
  }

  lemma Same3(v: bv16, w: bv16)
    requires v & 0x7 == w & 0x7
    ensures SameLow(v, w, 3)
  {
    MaskHalves(v, w, 0x3, 0x7);
    Same2(v >> 1, w >> 1);
    SameLowMore(v, w, 2);
  }

  lemma Same4(v: bv16, w: bv16)
    requires v & 0xf == w & 0xf
    ensures SameLow(v, w, 4)
  {
    MaskHalves(v, w, 0x7, 0xf);
    Same3(v >> 1, w >> 1);
    SameLowMore(v, w, 3);
  }

  lemma Same5(v: bv16, w: bv16)
    requires v & 0x1f == w & 0x1f
    ensures SameLow(v, w, 5)
  {
    MaskHalves(v, w, 0xf, 0x1f);
    Same4(v >> 1, w >> 1);
    SameLowMore(v, w, 4);
  }

  lemma Same6(v: bv16, w: bv16)
    requires v & 0x3f == w & 0x3f
    ensures SameLow(v, w, 6)
  {
    MaskHalves(v, w, 0x1f, 0x3f);
    Same5(v >> 1, w >> 1);
    SameLowMore(v, w, 5);
  }

  lemma Same7(v: bv16, w: bv16)
    requires v & 0x7f == w & 0x7f
    ensures SameLow(v, w, 7)
  {
    MaskHalves(v, w, 0x3f, 0x7f);
    Same6(v >> 1, w >> 1);
    SameLowMore(v, w, 6);
  }

  lemma SameByte(v: bv16, w: bv16)
    requires v & 0xff == w & 0xff
    ensures SameLow(v, w, 8)
  {
    MaskHalves(v, w, 0x7f, 0xff);
    Same7(v >> 1, w >> 1);
    SameLowMore(v, w, 7);
  }

  // Only the low bits enter the register.
  lemma {:induction false} StepsOfLow(crc: bv16, v: bv16, w: bv16, k: nat)
    requires SameLow(v, w, k)
    ensures BitSteps(crc, v, k) == BitSteps(crc, w, k)
    decreases k
  {
    if k > 0 {
      SameStep(crc, v, w);
      var next := BitStep(crc, v);
      StepsOfLow(next, v >> 1, w >> 1, k - 1);
      StepsUnfold(crc, v, k, next);
      StepsUnfold(crc, w, k, next);
    }
  }

  lemma SameStep(crc: bv16, v: bv16, w: bv16)
    requires v & 1 == w & 1
    ensures BitStep(crc, v) == BitStep(crc, w)
  {
  }

  lemma StepsUnfold(crc: bv16, v: bv16, k: nat, next: bv16)
    requires k > 0 && next == BitStep(crc, v)
    ensures BitSteps(crc, v, k) == BitSteps(next, v >> 1, k - 1)
  {
  }

  lemma {:induction false} StepsAdd(crc: bv16, v: bv16, n: nat, k: nat)
    ensures BitSteps(crc, v, n + k) == BitSteps(BitSteps(crc, v, n), Rest(v, n), k)
    decreases n
  {
    if n > 0 { StepsAdd(BitStep(crc, v), v >> 1, n - 1, k); }
  }

  // Two bytes as a word: the first has the low bits.
  function Joined(a: bv16, b: bv16): bv16 { a | (b << 8) }

  lemma JoinedParts(a: bv16, b: bv16)
    requires a < 0x100 && b < 0x100
    ensures Joined(a, b) & 0xff == a & 0xff && Joined(a, b) >> 8 == b
  {
  }

  lemma TwoBytes(crc: bv16, a: Byte, b: Byte)
    ensures ByteStep(ByteStep(crc, a, 8), b, 8) == BitSteps(crc, Joined(Bits(a, 8), Bits(b, 8)), 16)
  {
    BitsBound(a, 8);
    BitsBound(b, 8);
    var v := Joined(Bits(a, 8), Bits(b, 8));
    JoinedParts(Bits(a, 8), Bits(b, 8));
    StepsAdd(crc, v, 8, 8);
    HighByte(v);
    SameByte(v, Bits(a, 8));
    StepsOfLow(crc, v, Bits(a, 8), 8);
  }

  lemma {:induction false} CrcOfBoth(crc: bv16, x: seq<nat>, y: seq<nat>, n: nat)
    ensures CrcFrom(crc, x + y, n) == CrcFrom(CrcFrom(crc, x, n), y, n)
    decreases |x|
  {
    if x == [] {
      assert x + y == y;
    } else {
      assert (x + y)[1..] == x[1..] + y;
      CrcOfBoth(ByteStep(crc, x[0], n), x[1..], y, n);
    }
  }

  lemma CrcOfTwo(crc: bv16, data: seq<Byte>, a: Byte, b: Byte)
    ensures CrcFrom(crc, data + [a, b], 8) == BitSteps(CrcFrom(crc, data, 8), Joined(Bits(a, 8), Bits(b, 8)), 16)
  {
    var c, two: seq<nat> := CrcFrom(crc, data, 8), [a, b];
    CrcOfBoth(crc, data, two, 8);
    assert two[1..] == [b as nat] && two[1..][1..] == [];
    assert CrcFrom(c, two, 8) == CrcFrom(ByteStep(c, a, 8), two[1..], 8) == ByteStep(ByteStep(c, a, 8), b, 8);
    TwoBytes(c, a, b);
  }

  // ---------------------------------------------------------------- the residue

  lemma SwappedParts(d: bv16)
    ensures Joined((Swapped(d) >> 8) & 0xff, Swapped(d) & 0xff) == d
  {
  }

  lemma PartsOf(n: nat, lo: nat, hi: nat)
    requires n == lo + 0x100 * hi && lo < 0x100
    ensures n % 0x100 == lo && n / 0x100 == hi
  {
  }

  // A word is read as two bytes.
  lemma NumberParts(s: bv16, hi: bv16)
    requires hi == s >> 8
    ensures Number(s, 16) % 0x100 == Number(s, 8) && Number(s, 16) / 0x100 == Number(hi, 8)
  {
    NumberAdd(s, 8, 8);
    PowersOfTwo();
    NumberBound(s, 8);
    HighByte(s);
    PartsOf(Number(s, 16), Number(s, 8), Number(hi, 8));
  }

  lemma CrcIs(data: seq<Byte>, s: bv16)
    requires data != [] && s == Swapped(!CrcFrom(0xffff, data, 8))
    ensures Crc(data) == Number(s, 16)
  {
  }

  // The two bytes of the check, joined again, are the complement of the register.
  lemma CheckIsComplement(data: seq<Byte>, d: bv16)
    requires data != [] && d == !CrcFrom(0xffff, data, 8)
    ensures Joined(Bits(Crc(data) / 0x100, 8), Bits(Crc(data) % 0x100, 8)) == d
  {
    var s := Swapped(d);
    var hi := s >> 8;
    CrcIs(data, s);
    NumberParts(s, hi);
    BitsOfNumber(s, 8);
    BitsOfNumber(hi, 8);
    LowByte(s);
    LowByte(hi);
    SwappedParts(d);
  }

  lemma FourShifts(x: bv16, a: bv16, b: bv16, c: bv16, d: bv16, n: nat)
    requires Shift(x) == a && Shift(a) == b && Shift(b) == c && Shift(c) == d && n >= 4
    ensures Shifts(x, n) == Shifts(d, n - 4)
  {
    assert Shifts(x, n) == Shifts(a, n - 1) == Shifts(b, n - 2) == Shifts(c, n - 3);
  }

  lemma ShiftValues()
    ensures Shift(0xffff) == 0xfbf7 && Shift(0xfbf7) == 0xf9f3 && Shift(0xf9f3) == 0xf8f1 && Shift(0xf8f1) == 0xf870
    ensures Shift(0xf870) == 0x7c38 && Shift(0x7c38) == 0x3e1c && Shift(0x3e1c) == 0x1f0e && Shift(0x1f0e) == 0x0f87
    ensures Shift(0x0f87) == 0x83cb && Shift(0x83cb) == 0xc5ed && Shift(0xc5ed) == 0xe6fe && Shift(0xe6fe) == 0x737f
    ensures Shift(0x737f) == 0xbdb7 && Shift(0xbdb7) == 0xdad3 && Shift(0xdad3) == 0xe961 && Shift(0xe961) == 0xf0b8
  {
  }

  lemma SixteenShifts()
    ensures Shifts(0xffff, 16) == 0xF0B8
  {
    ShiftValues();
    FourShifts(0xffff, 0xfbf7, 0xf9f3, 0xf8f1, 0xf870, 16);
    FourShifts(0xf870, 0x7c38, 0x3e1c, 0x1f0e, 0x0f87, 12);
    FourShifts(0x0f87, 0x83cb, 0xc5ed, 0xe6fe, 0x737f, 8);
    FourShifts(0x737f, 0xbdb7, 0xdad3, 0xe961, 0xf0b8, 4);
  }

  lemma XorComplement(c: bv16)
    ensures c ^ !c == 0xffff
  {
  }

  lemma ComplementSteps(c: bv16, d: bv16)
    requires d == !c
    ensures BitSteps(c, d, 16) == 0xF0B8
  {
    WordGone(d);
    XorComplement(c);
    StepsAreShifts(c, d, 16, 0xffff);
    SixteenShifts();
  }

  // Whatever the data, with their check behind them the register ends at 0xF0B8.
  lemma Residue(data: seq<Byte>)
    requires data != []
    ensures CrcFrom(0xffff, data + [Crc(data) / 0x100, Crc(data) % 0x100], 8) == 0xF0B8
  {
    var c := CrcFrom(0xffff, data, 8);
    CrcOfTwo(0xffff, data, Crc(data) / 0x100, Crc(data) % 0x100);
    CheckIsComplement(data, !c);
    ComplementSteps(c, !c);
  }

  // And no other two bytes do that.
  lemma GoodFrame(data: seq<Byte>, a: Byte, b: Byte)
    requires data != []
    ensures CrcFrom(0xffff, data + [a, b], 8) == 0xF0B8 <==> a == Crc(data) / 0x100 && b == Crc(data) % 0x100
  {
    Residue(data);
    OnlyOne(data, a, b, Crc(data) / 0x100, Crc(data) % 0x100);
  }

  lemma OnlyOne(data: seq<Byte>, a: Byte, b: Byte, a2: Byte, b2: Byte)
    requires CrcFrom(0xffff, data + [a2, b2], 8) == 0xF0B8
    ensures CrcFrom(0xffff, data + [a, b], 8) == 0xF0B8 <==> a == a2 && b == b2
  {
    if CrcFrom(0xffff, data + [a, b], 8) == 0xF0B8 {
      SameEnd(CrcFrom(0xffff, data, 8), data, a, b, a2, b2);
    }
  }

  lemma SameEnd(c: bv16, data: seq<Byte>, a1: Byte, b1: Byte, a2: Byte, b2: Byte)
    requires c == CrcFrom(0xffff, data, 8)
    requires CrcFrom(0xffff, data + [a1, b1], 8) == CrcFrom(0xffff, data + [a2, b2], 8)
    ensures a1 == a2 && b1 == b2
  {
    CrcOfTwo(0xffff, data, a1, b1);
    CrcOfTwo(0xffff, data, a2, b2);
    var v1, v2 := Joined(Bits(a1, 8), Bits(b1, 8)), Joined(Bits(a2, 8), Bits(b2, 8));
    WordGone(v1);
    WordGone(v2);
    StepsOneToOne(c, v1, c, v2, 16);
    XorCancels(c, v1, v2);
    BitsBound(a1, 8);
    BitsBound(b1, 8);
    BitsBound(a2, 8);
    BitsBound(b2, 8);
    JoinedOneToOne(Bits(a1, 8), Bits(b1, 8), Bits(a2, 8), Bits(b2, 8));
    PowersOfTwo();
    BitsOneToOne(a1, a2, 8);
    BitsOneToOne(b1, b2, 8);
  }

  lemma JoinedOneToOne(a1: bv16, b1: bv16, a2: bv16, b2: bv16)
    requires a1 < 0x100 && b1 < 0x100 && a2 < 0x100 && b2 < 0x100 && Joined(a1, b1) == Joined(a2, b2)
    ensures a1 == a2 && b1 == b2
  {
  }
}
