/** Powers, residues and the ranges of integer types. */
module TwosComplement {

  const WORD := 0x1_0000_0000_0000_0000

  function Pow2(n: nat): (p: nat)
    ensures p > 0
  {
    if n == 0 then 1 else 2 * Pow2(n - 1)
  }

  function Pow256(n: nat): (p: nat)
    ensures p > 0
  {
    if n == 0 then 1 else 256 * Pow256(n - 1)
  }

  /** Whether an integer type of so many bytes holds v. */
  predicate InRange(size: nat, signed: bool, v: int) {
    if signed then 0 - Pow256(size) <= 2 * v < Pow256(size) else 0 <= v < Pow256(size)
  }

  /** The 64-bit pattern read as a signed number. */
  function AsSigned(bits: int): int {
    if bits >= WORD / 2 then bits - WORD else bits
  }

  predicate Times(k: int, p: int, a: int, b: int) { a - b == k * p }

  ghost predicate Congruent(a: int, b: int, p: int) {
    exists k :: Times(k, p, a, b)
  }

  lemma CongruentSame(a: int, p: int)
    ensures Congruent(a, a, p)
  {
    assert Times(0, p, a, a);
  }

  lemma CongruentBack(a: int, b: int, p: int)
    requires Congruent(a, b, p)
    ensures Congruent(b, a, p)
  {
    var k :| Times(k, p, a, b);
    assert Times(-k, p, b, a);
  }

  lemma CongruentChain(a: int, b: int, c: int, p: int)
    requires Congruent(a, b, p) && Congruent(b, c, p)
    ensures Congruent(a, c, p)
  {
    var k :| Times(k, p, a, b);
    var j :| Times(j, p, b, c);
    Distribute2(k, j, p);
    assert Times(k + j, p, a, c);
  }

  lemma CongruentScaled(a: int, b: int, m: int, p: int)
    requires Congruent(a, b, p)
    ensures Congruent(a * m, b * m, p)
  {
    var k :| Times(k, p, a, b);
    assert a * m - b * m == (a - b) * m == k * p * m == (k * m) * p;
    assert Times(k * m, p, a * m, b * m);
  }

  lemma EuclidCongruent(a: int, p: nat)
    requires p > 0
    ensures Congruent(a % p, a, p)
  {
    assert a == p * (a / p) + a % p;
    assert Times(-(a / p), p, a % p, a);
  }

  /** Reading a residue below p as negative keeps it congruent. */
  lemma Shifted(r: int, a: int, p: int)
    requires Congruent(r, a, p)
    ensures Congruent(r - p, a, p)
  {
    var k :| Times(k, p, r, a);
    assert (k - 1) * p == k * p - p;
    assert Times(k - 1, p, r - p, a);
  }

  /** Congruence modulo a larger power gives congruence modulo a smaller one. */
  lemma Coarser(a: int, b: int, m: nat, n: nat)
    requires m <= n && Congruent(a, b, Pow256(n))
    ensures Congruent(a, b, Pow256(m))
  {
    PowDivides(m, n);
    var k :| Times(k, Pow256(n), a, b);
    var q := Pow256(n - m);
    assert k * (q * Pow256(m)) == (k * q) * Pow256(m);
    assert Times(k * q, Pow256(m), a, b);
  }

  /** Two congruent values less than p apart are one. */
  lemma OnlyOne(a: int, b: int, p: nat)
    requires p > 0
    requires Congruent(a, b, p) && a - p < b < a + p
    ensures a == b
  {
    var k :| Times(k, p, a, b);
    MulBounds(k, p);
  }

  lemma {:induction false} MulBounds(k: int, p: nat)
    requires p > 0
    ensures k >= 0 ==> k * p >= k
    ensures k <= 0 ==> k * p <= k
    ensures k >= 1 ==> k * p >= p
    ensures k <= -1 ==> k * p <= 0 - p
    decreases if k < 0 then -k else k
  {
    if k > 1 {
      MulBounds(k - 1, p);
      assert k * p == (k - 1) * p + p;
    } else if k < -1 {
      MulBounds(k + 1, p);
      assert k * p == (k + 1) * p - p;
    }
  }

  lemma {:induction false} PowDivides(m: nat, n: nat)
    requires m <= n
    ensures Pow256(n) == Pow256(n - m) * Pow256(m)
  {
    if m < n { PowDivides(m, n - 1); }
  }

  lemma {:induction false} PowGrows(m: nat, n: nat)
    requires m <= n
    ensures Pow256(m) <= Pow256(n)
    ensures m < n ==> 256 * Pow256(m) <= Pow256(n)
  {
    if m < n { PowGrows(m, n - 1); }
  }

  lemma PowBelow(m: nat, n: nat)
    requires m < n == 8
    ensures 256 * Pow256(m) <= WORD && Pow256(8) == WORD
  {
    PowGrows(m, n);
  }

  lemma PowIsEven(n: nat)
    requires n > 0
    ensures Pow256(n) % 2 == 0
  {
  }

  lemma {:induction false} Pow2Grows(m: nat, n: nat)
    requires m <= n
    ensures Pow2(m) <= Pow2(n)
  {
    if m < n { Pow2Grows(m, n - 1); }
  }

  lemma {:induction false} Pow2OfBytes(n: nat)
    ensures Pow2(8 * n) == Pow256(n)
  {
    if n > 0 {
      Pow2OfBytes(n - 1);
      Pow2Eight(8 * n - 8);
    }
  }

  lemma Pow2Eight(k: nat)
    ensures Pow2(k + 8) == 256 * Pow2(k)
  {
    assert Pow2(k + 8) == 2 * Pow2(k + 7) == 4 * Pow2(k + 6) == 8 * Pow2(k + 5) == 16 * Pow2(k + 4);
    assert Pow2(k + 4) == 2 * Pow2(k + 3) == 4 * Pow2(k + 2) == 8 * Pow2(k + 1) == 16 * Pow2(k);
  }

  lemma Distribute(q: int, p: int)
    ensures (-1 - q) * p == 0 - p - q * p && (-1 - q + 1) * p == 0 - q * p
  {
  }

  lemma Distribute2(k: int, j: int, p: int)
    ensures (k + j) * p == k * p + j * p
  {
  }

  lemma DivisionBounds(x: int, p: nat)
    requires p > 0
    ensures x / p * p <= x < (x / p + 1) * p
  {
    assert x == p * (x / p) + x % p;
  }

  lemma QuotientNotAbove(x: nat, p: nat)
    requires p > 0
    ensures 0 <= x / p <= x
  {
    DivisionBounds(x, p);
    MulBounds(x / p, p);
    MulBounds(x / p + 1, p);
  }

  /** Dividing rounding down by at least 1 moves a value no further from 0 than itself, or to -1. */
  lemma ShrinksInRange(x: int, r: int, p: nat)
    requires p > 0 && r * p <= x < (r + 1) * p
    ensures (0 <= r <= x) || (x <= r <= -1)
  {
    MulBounds(r, p);
    MulBounds(r + 1, p);
  }

  /** The two low bytes of a number. */
  lemma LowHigh(v: int)
    ensures v % 65536 % 256 == v % 256 && v % 65536 / 256 % 256 == v / 256 % 256
    ensures v % 256 + 256 * (v / 256 % 256) == v % 65536
  {
  }
}
