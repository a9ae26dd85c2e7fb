/** Exact integer arithmetic used by the engine: powers as BigInt `**` computes
    them (with 0 ** 0 == 1), and the truncating division and remainder of
    JavaScript BigInts. */
module Arith {

  /** b ** e for a non-negative exponent; 0 ** 0 is 1, as for BigInt. */
  function Pow(b: int, e: nat): int
  {
    if e == 0 then 1 else b * Pow(b, e - 1)
  }

  lemma {:induction false} PowAdd(b: int, m: nat, n: nat)
    ensures Pow(b, m + n) == Pow(b, m) * Pow(b, n)
  {
    if m > 0 {
      PowAdd(b, m - 1, n);
      assert Pow(b, m + n) == b * Pow(b, m - 1 + n);
    }
  }

  lemma {:induction false} PowPositive(b: int, e: nat)
    requires b > 0
    ensures Pow(b, e) > 0
  {
    if e > 0 {
      PowPositive(b, e - 1);
    }
  }

  lemma {:induction false} PowNonNegative(b: int, e: nat)
    requires b >= 0
    ensures Pow(b, e) >= 0
  {
    if e > 0 {
      PowNonNegative(b, e - 1);
    }
  }

  lemma {:induction false} PowOfOne(e: nat)
    ensures Pow(1, e) == 1
  {
    if e > 0 {
      PowOfOne(e - 1);
    }
  }

  lemma PowOfZero(e: nat)
    requires e > 0
    ensures Pow(0, e) == 0
  {
  }

  lemma {:induction false} PowMul(b: int, m: nat, n: nat)
    ensures Pow(Pow(b, m), n) == Pow(b, m * n)
  {
    if n > 0 {
      PowMul(b, m, n - 1);
      PowAdd(b, m, m * (n - 1));
      assert m * n == m + m * (n - 1);
    }
  }

  /** b ** m <= b ** n when m <= n and b >= 1. */
  lemma {:induction false} PowMonotone(b: int, m: nat, n: nat)
    requires b >= 1 && m <= n
    ensures Pow(b, m) <= Pow(b, n)
  {
    if m < n {
      PowMonotone(b, m, n - 1);
      PowPositive(b, n - 1);
      assert Pow(b, n) == b * Pow(b, n - 1) >= Pow(b, n - 1);
    }
  }

  lemma MulRearrange(a: int, b: int, p: int, q: int)
    ensures (a * b) * (p * q) == (a * p) * (b * q)
  {
  }

  lemma MulDistrib(a: int, b: int, c: int)
    ensures (a + b) * c == a * c + b * c
  {
  }

  lemma MulMonotone(c: int, a: int, b: int)
    requires c >= 0 && a <= b
    ensures c * a <= c * b
  {
    assert c * b - c * a == c * (b - a);
  }

  lemma MulNonNegative(a: int, b: int)
    requires a >= 0 && b >= 0
    ensures a * b >= 0
  {
  }

  /** JavaScript BigInt `/`: the quotient truncated toward zero. */
  function TDiv(x: int, d: int): (q: int)
    requires d != 0
    ensures Abs(q) == Abs(x) / Abs(d)
    ensures (x >= 0) == (d > 0) ==> q >= 0
    ensures (x >= 0) != (d > 0) ==> q <= 0
    ensures x >= 0 && d > 0 ==> q == x / d
  {
    var m := Abs(x) / Abs(d);
    DivNonNegative(Abs(x), Abs(d));
    if (x >= 0) == (d > 0) then m else -m
  }

  /** The quotient of a non-negative number by a positive one is non-negative. */
  lemma DivNonNegative(a: int, b: int)
    requires a >= 0 && b > 0
    ensures a / b >= 0
  {
  }

  /** JavaScript BigInt `%`: the remainder takes the sign of the dividend. */
  function TMod(x: int, d: int): (r: int)
    requires d != 0
    ensures x >= 0 && d > 0 ==> r == x % d
    ensures x == TDiv(x, d) * d + r
  {
    x - TDiv(x, d) * d
  }

  function Abs(x: int): nat
  {
    if x < 0 then -x else x
  }

  /** The quotient and remainder of Euclidean division are the unique pair
      with x == q * d + r and 0 <= r < d. */
  lemma DivModUnique(x: int, d: int, q: int, r: int)
    requires d > 0 && 0 <= r < d && x == q * d + r
    ensures x / d == q && x % d == r
  {
    var q', r' := x / d, x % d;
    assert x == q' * d + r';
    assert (q' - q) * d == r - r' by {
      assert q' * d - q * d == (q' - q) * d;
    }
    if q' > q {
      MulAtLeast(q' - q, d);
    } else if q' < q {
      MulAtLeast(q - q', d);
    }
  }

  lemma MulAtLeast(a: int, d: int)
    requires a >= 1 && d > 0
    ensures a * d >= d
  {
    assert a * d == (a - 1) * d + d;
  }

  /** The smallest exponent k with 10 ** k > m: Math.ceil(Math.log10(m + 1))
      over exact integers. */
  function Log10Above(m: nat): (k: nat)
    ensures Pow(10, k) > m
    ensures k == 0 || Pow(10, k - 1) <= m
  {
    if m == 0 then 0 else Log10AboveStep(m)
  }

  function Log10AboveStep(m: nat): (k: nat)
    requires m > 0
    ensures k >= 1 && Pow(10, k) > m && Pow(10, k - 1) <= m
    decreases m
  {
    if m < 10 then 1
    else
      var k' := Log10AboveStep(m / 10);
      assert Pow(10, k' + 1) == 10 * Pow(10, k');
      assert Pow(10, k') == 10 * Pow(10, k' - 1);
      k' + 1
  }
}
