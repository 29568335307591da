/** Powers of two, and masking as arithmetic on numbers. */
module Bits {
  function Pow2(n: nat): (p: nat)
    ensures p >= 1
  {
    if n == 0 then 1 else 2 * Pow2(n - 1)
  }

  /** Bitwise and, digit by digit. */
  function And(x: nat, y: nat): nat {
    if x == 0 || y == 0 then 0 else (x % 2) * (y % 2) + 2 * And(x / 2, y / 2)
  }

  lemma DivUnique(a: int, q: int, d: int, e: int)
    requires e > 0 && 0 <= d < e && a == q * e + d
    ensures a / e == q && a % e == d
  {
    var q' := a / e;
    assert a == q' * e + a % e;
    assert (q - q') * e == a % e - d;
    MulAtLeast(q - q', e);
    MulAtLeast(q' - q, e);
    assert (q' - q) * e == -((q - q') * e);
  }

  lemma MulAtLeast(q: int, e: int)
    requires e > 0
    ensures q >= 1 ==> q * e >= e
    ensures q <= 0 ==> q * e <= 0
  {
  }

  lemma Pow2Sum(a: nat, b: nat)
    ensures Pow2(a + b) == Pow2(a) * Pow2(b)
  {
    if a > 0 {
      Pow2Sum(a - 1, b);
      assert 2 * (Pow2(a - 1) * Pow2(b)) == (2 * Pow2(a - 1)) * Pow2(b);
    }
  }

  lemma TwoDigits(x: nat, p: nat)
    requires p > 0
    ensures x % (2 * p) == x % 2 + 2 * (x / 2 % p)
  {
    var h := x / 2;
    assert h == h / p * p + h % p;
    assert h / p * (2 * p) == 2 * (h / p * p);
    DivUnique(x, h / p, x % 2 + 2 * (h % p), 2 * p);
  }

  lemma AndOdd(x: nat, p: nat)
    requires p > 0
    ensures And(x, 2 * p - 1) == x % 2 + 2 * And(x / 2, p - 1)
  {
    assert (2 * p - 1) % 2 == 1 && (2 * p - 1) / 2 == p - 1;
  }

  lemma MaskStep(x: nat, p: nat)
    requires p > 0 && And(x / 2, p - 1) == x / 2 % p
    ensures And(x, 2 * p - 1) == x % (2 * p)
  {
    TwoDigits(x, p);
    AndOdd(x, p);
  }

  /** Masking with a power of two less one takes the remainder. */
  lemma {:induction false} MaskIsRemainder(x: nat, k: nat)
    ensures And(x, Pow2(k) - 1) == x % Pow2(k)
  {
    if k > 0 {
      var p := Pow2(k - 1);
      MaskIsRemainder(x / 2, k - 1);
      MaskStep(x, p);
    }
  }

  lemma TwoQuotients(x: int, y: int, m: int, e: int, a: int, b: int)
    requires x == a * (m * e) + y && e > 0
    ensures x == (a * m + b) * e + (y - b * e)
  {
    assert a * (m * e) == (a * m) * e;
    assert (a * m + b) * e == (a * m) * e + b * e;
  }

  /** A remainder by a larger power of two in between changes nothing. */
  lemma RemainderOfWord(x: nat, width: nat, k: nat)
    requires k <= width
    ensures x % Pow2(width) % Pow2(k) == x % Pow2(k)
  {
    Pow2Sum(width - k, k);
    RemainderTwice(x, Pow2(width - k), Pow2(k));
  }

  lemma RemainderTwice(x: nat, m: nat, e: nat)
    requires m > 0 && e > 0 && m * e > 0
    ensures x % (m * e) % e == x % e
  {
    var a, y := x / (m * e), x % (m * e);
    var b := y / e;
    assert x == a * (m * e) + y;
    assert y == b * e + y % e;
    TwoQuotients(x, y, m, e, a, b);
    DivUnique(x, a * m + b, y % e, e);
  }
}
