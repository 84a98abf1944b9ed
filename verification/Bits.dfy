/** Fixed-width unsigned arithmetic, written out over the unbounded integers. */
module Bits {

  const TWO_32: nat := 0x1_0000_0000
  const TWO_63: nat := 0x8000_0000_0000_0000
  const TWO_64: nat := 0x1_0000_0000_0000_0000

  function Pow2(n: nat): (r: nat)
    ensures r >= 1
  {
    if n == 0 then 1 else 2 * Pow2(n - 1)
  }

  /** Truncation to uint32_t. */
  function Wrap32(x: int): (r: nat)
    ensures r < TWO_32
  {
    x % TWO_32
  }

  /** Bitwise `&` on non-negative numbers. */
  function BitAnd(a: nat, b: nat): nat {
    if a == 0 || b == 0 then 0 else (a % 2) * (b % 2) + 2 * BitAnd(a / 2, b / 2)
  }

  /** Bitwise `|` on non-negative numbers. */
  function BitOr(a: nat, b: nat): nat {
    if a == 0 then b else if b == 0 then a
    else (if a % 2 + b % 2 > 0 then 1 else 0) + 2 * BitOr(a / 2, b / 2)
  }

  lemma {:induction false} Pow2Add(m: nat, n: nat)
    ensures Pow2(m + n) == Pow2(m) * Pow2(n)
  {
    if m > 0 {
      Pow2Add(m - 1, n);
      assert Pow2(m + n) == 2 * Pow2(m - 1 + n);
    }
  }

  lemma {:induction false} Pow2Monotone(m: nat, n: nat)
    requires m <= n
    ensures Pow2(m) <= Pow2(n)
  {
    if m < n { Pow2Monotone(m, n - 1); }
  }

  lemma Pow2Values()
    ensures Pow2(7) == 128
    ensures Pow2(24) == 0x100_0000
    ensures Pow2(32) == TWO_32
    ensures Pow2(63) == TWO_63
    ensures Pow2(64) == TWO_64
  {
    assert Pow2(7) == 128;
    assert Pow2(16) == 65536 by { Pow2Add(7, 7); assert Pow2(14) == 16384; }
    Pow2Add(8, 16);
    Pow2Add(16, 16);
    Pow2Add(32, 32);
    assert Pow2(64) == 2 * Pow2(63);
  }

  /** Masking with a power of two minus one is the remainder. */
  lemma {:induction false} MaskIsRemainder(x: nat, k: nat)
    ensures BitAnd(x, Pow2(k) - 1) == x % Pow2(k)
  {
    if k > 0 {
      MaskIsRemainder(x / 2, k - 1);
      hide BitAnd;
      MaskStep(x, Pow2(k - 1));
    }
  }

  lemma MaskStep(x: nat, p: nat)
    requires p > 0 && BitAnd(x / 2, p - 1) == (x / 2) % p
    ensures BitAnd(x, 2 * p - 1) == x % (2 * p)
  {
    MaskHalves(x, p);
    hide BitAnd;
    RemainderHalves(x, p);
  }

  lemma MaskHalves(x: nat, p: nat)
    requires p > 0
    ensures BitAnd(x, 2 * p - 1) == x % 2 + 2 * BitAnd(x / 2, p - 1)
  {
    OddHalf(p);
  }

  lemma OddHalf(p: nat)
    requires p > 0
    ensures (2 * p - 1) / 2 == p - 1 && (2 * p - 1) % 2 == 1
  {
  }

  lemma MaskKeepsSmall(x: nat, k: nat)
    requires x < Pow2(k)
    ensures BitAnd(x, Pow2(k) - 1) == x
  {
    MaskIsRemainder(x, k);
    RemainderUnique(x, Pow2(k), 0, x);
  }

  lemma RemainderHalves(x: nat, p: nat)
    requires p > 0
    ensures x % (2 * p) == x % 2 + 2 * ((x / 2) % p)
  {
    var q, r := x / 2 / p, (x / 2) % p;
    assert x == 2 * (p * q + r) + x % 2;
    assert 2 * (p * q) == (2 * p) * q;
    RemainderUnique(x, 2 * p, q, 2 * r + x % 2);
  }

  /** A product with a non-zero factor is at least the other factor in size. */
  lemma MulAtLeast(m: int, d: int)
    requires m > 0 && -m < m * d < m
    ensures d == 0
  {
  }

  lemma Distribute(m: int, a: int, b: int)
    ensures m * (a - b) == m * a - m * b
    ensures m * (a + b) == m * a + m * b
  {
  }

  /** The quotient and remainder are the only ones. */
  lemma RemainderUnique(x: int, m: nat, q: int, r: nat)
    requires m > 0 && r < m && x == m * q + r
    ensures x % m == r && x / m == q
  {
    var q', r' := x / m, x % m;
    assert m * q - m * q' == r' - r;
    Distribute(m, q, q');
    MulAtLeast(m, q - q');
  }

  /** Or-ing in bits above those already set is addition. */
  lemma {:induction false} OrOfDisjointIsSum(a: nat, b: nat, k: nat)
    requires a < Pow2(k)
    ensures BitOr(a, b * Pow2(k)) == a + b * Pow2(k)
  {
    if k == 0 || a == 0 || b == 0 {
    } else {
      var c := b * Pow2(k - 1);
      OrOfDisjointIsSum(a / 2, b, k - 1);
      assert b * Pow2(k) == 2 * c by { Regroup(b, Pow2(k - 1)); }
      assert c > 0 by { MulPositive(b, Pow2(k - 1)); }
      OrStep(a, c);
    }
  }

  lemma Regroup(b: nat, p: nat)
    ensures b * (2 * p) == 2 * (b * p)
  {
  }

  lemma MulPositive(a: nat, b: nat)
    requires a > 0 && b > 0
    ensures a * b > 0
  {
  }

  lemma OrStep(a: nat, c: nat)
    requires a > 0 && c > 0 && BitOr(a / 2, c) == a / 2 + c
    ensures BitOr(a, 2 * c) == a + 2 * c
  {
    assert (2 * c) / 2 == c && (2 * c) % 2 == 0;
  }

  /** Truncating first does not change a remainder by a divisor of the modulus. */
  lemma WrapThenRemainder(x: nat, k: nat)
    requires k <= 32
    ensures Wrap32(x) % Pow2(k) == x % Pow2(k)
  {
    assert TWO_32 == Pow2(k) * Pow2(32 - k) by { Pow2Values(); Pow2Add(k, 32 - k); }
    RemainderOfRemainder(x, Pow2(k), Pow2(32 - k));
  }

  lemma RemainderOfRemainder(x: nat, p: nat, n: nat)
    requires p > 0 && n > 0
    ensures p * n > 0 && (x % (p * n)) % p == x % p
  {
    MulPositive(p, n);
    var q, r := x / (p * n), x % (p * n);
    assert x == (p * n) * q + r;
    assert r == p * (r / p) + r % p;
    assert (p * n) * q == p * (n * q) by { MulAssociate(p, n, q); }
    Distribute(p, n * q, r / p);
    RemainderUnique(x, p, n * q + r / p, r % p);
  }

  lemma MulAssociate(a: int, b: int, c: int)
    ensures (a * b) * c == a * (b * c)
  {
  }

  /** Numbers less than a modulus apart have equal remainders only when equal. */
  lemma CloseRemainders(a: int, b: int, m: int)
    requires m > 0 && -m < b - a < m
    ensures (a % m == b % m) <==> a == b
  {
    if a % m == b % m {
      var qa, qb := a / m, b / m;
      assert b - a == m * qb - m * qa;
      Distribute(m, qb, qa);
      MulAtLeast(m, qb - qa);
    }
  }
}
