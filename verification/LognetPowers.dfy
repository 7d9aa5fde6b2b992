/**
  Powers, logarithms and multiples, as the lognet generator uses them: exact integers where the
  source calls log2 and pow on floating-point numbers, and the facts about multiples of powers
  that its wires depend on.
 */
module LognetPowers {
  function Pow(b: nat, a: nat): (p: nat)
    requires b > 0
    ensures p > 0
  {
    if a == 0 then 1 else MulPos(b, Pow(b, a - 1))
  }

  function MulPos(x: nat, y: nat): (z: nat)
    requires x > 0 && y > 0
    ensures z == x * y && z >= x && z >= y
  {
    MulGrows(x, y);
    x * y
  }

  lemma MulGrows(x: nat, y: nat)
    requires x > 0 && y > 0
    ensures x * y >= x && x * y >= y
  {
  }

  lemma {:induction false} PowGrows(b: nat, a: nat, c: nat)
    requires b > 1 && a <= c
    ensures Pow(b, a) <= Pow(b, c) && (a < c ==> Pow(b, a) < Pow(b, c))
    decreases c
  {
    if a < c {
      PowGrows(b, a, c - 1);
      assert b * Pow(b, c - 1) >= 2 * Pow(b, c - 1) by { MulMono(2, b, Pow(b, c - 1)); }
    }
  }

  lemma MulMono(x: nat, y: nat, z: nat)
    requires x <= y
    ensures x * z <= y * z
  {
  }

  // floor(log_b n): what the source gets from floating logarithms.
  function Log(b: nat, n: nat): (l: nat)
    requires b > 1 && n > 0
    ensures Pow(b, l) <= n < Pow(b, l + 1)
  {
    LogFrom(b, n, 0)
  }

  function LogFrom(b: nat, n: nat, from: nat): (l: nat)
    requires b > 1 && Pow(b, from) <= n
    ensures Pow(b, l) <= n < Pow(b, l + 1)
    decreases n - Pow(b, from)
  {
    PowGrows(b, from, from + 1);
    if n < Pow(b, from + 1) then from else LogFrom(b, n, from + 1)
  }

  // ---------------------------------------------------------------- multiples

  // `i` is a multiple of `p`.
  ghost predicate Mult(i: int, p: nat) { exists q: int :: i == q * p }

  lemma MultMod(i: int, p: nat)
    requires p > 0
    ensures Mult(i, p) <==> i % p == 0
  {
    if Mult(i, p) {
      var q :| i == q * p;
      ModOfMultiple(q, p);
    }
    if i % p == 0 { assert i == (i / p) * p; }
  }

  lemma ModOfMultiple(q: int, p: nat)
    requires p > 0
    ensures (q * p) % p == 0
  {
    var i := q * p;
    var d, r := i / p, i % p;
    assert i == d * p + r && 0 <= r < p;
    assert (q - d) * p == r by { assert (q - d) * p == q * p - d * p; }
    SmallMultiple(q - d, p);
  }

  lemma MulSign(k: int, p: nat)
    ensures k >= 1 ==> k * p >= p
    ensures k <= -1 ==> k * p + p <= 0
  {
    if k >= 1 { MulMono(1, k, p); }
    if k <= -1 {
      MulMono(1, -k, p);
      assert (-k) * p == -(k * p);
    }
  }

  lemma SmallMultiple(k: int, p: nat)
    requires p > 0 && 0 <= k * p < p
    ensures k * p == 0
  {
    MulSign(k, p);
  }

  lemma MultAdd(i: int, j: int, p: nat)
    requires Mult(i, p) && Mult(j, p)
    ensures Mult(i + j, p) && Mult(i - j, p)
  {
    var q :| i == q * p;
    var r :| j == r * p;
    assert i + j == (q + r) * p;
    assert i - j == (q - r) * p;
  }

  lemma MultSelf(p: nat)
    ensures Mult(p, p) && Mult(0, p)
  {
    assert p == 1 * p;
    assert 0 == 0 * p;
  }

  // Multiples of a larger power are multiples of a smaller one.
  lemma {:induction false} MultDown(i: int, b: nat, a: nat, c: nat)
    requires b > 0 && a <= c && Mult(i, Pow(b, c))
    ensures Mult(i, Pow(b, a))
    decreases c
  {
    if a < c {
      var q :| i == q * Pow(b, c);
      var p := Pow(b, c - 1);
      assert q * (b * p) == (q * b) * p;
      assert i == (q * b) * Pow(b, c - 1);
      MultDown(i, b, a, c - 1);
    }
  }

  // Different multiples of `p` are at least `p` apart.
  lemma MultGap(i: int, j: int, p: nat)
    requires p > 0 && Mult(i, p) && Mult(j, p) && i < j
    ensures i + p <= j
  {
    var q :| i == q * p;
    var r :| j == r * p;
    assert (r - q) * p == j - i by { assert (r - q) * p == r * p - q * p; }
    MulSign(r - q, p);
  }

  lemma TwoSteps(q: int, h: int, p: nat)
    ensures q == 2 * h ==> q * p == h * (2 * p)
    ensures q == 2 * h + 1 ==> q * p + p == (h + 1) * (2 * p) && q * p - p == h * (2 * p)
  {
    assert (2 * h) * p == h * (2 * p);
    assert (2 * h + 1) * p == h * (2 * p) + p;
    assert (h + 1) * (2 * p) == h * (2 * p) + 2 * p;
  }

  // Of two neighbouring multiples of 2^a one is a multiple of 2^(a+1).
  lemma MultTwo(i: int, a: nat)
    requires Mult(i, Pow(2, a)) && !Mult(i, Pow(2, a + 1))
    ensures Mult(i + Pow(2, a), Pow(2, a + 1)) && Mult(i - Pow(2, a), Pow(2, a + 1))
  {
    var p := Pow(2, a);
    assert Pow(2, a + 1) == 2 * p;
    var q: int :| i == q * p;
    TwoSteps(q, q / 2, p);
  }
}
