/** The 64-bit integers of Go. */
module Integers {

  const TWO63: int := 0x8000_0000_0000_0000
  const TWO64: int := 0x1_0000_0000_0000_0000
  const MAX_INT64: int := TWO63 - 1

  newtype int64 = x: int | -0x8000_0000_0000_0000 <= x < 0x8000_0000_0000_0000

  predicate IsInt64(n: int) {
    -TWO63 <= n < TWO63
  }

  /** The value that n has after wrapping to int64. */
  function Wrap64(n: int): (r: int)
    ensures IsInt64(r) && (IsInt64(n) ==> r == n)
    ensures (r - n) % TWO64 == 0
  {
    (n + TWO63) % TWO64 - TWO63
  }

  // ----- division -----

  lemma DivModUnique(k: nat, n: nat, q: nat, r: nat)
    requires r < n && k == q * n + r
    ensures k / n == q && k % n == r
  {
    var d := q - k / n;
    assert d * n == k % n - r by {
      assert k == k / n * n + k % n;
      assert (q - k / n) * n == q * n - k / n * n;
    }
    MulBound(d, n);
  }

  lemma MulBound(d: int, n: nat)
    ensures d >= 1 ==> d * n >= n
    ensures d <= -1 ==> d * n + n <= 0
  {
  }

  lemma MulRegroup(q: nat, b: nat, a: nat, t: nat)
    ensures (q * b + t) * a == q * (a * b) + t * a
  {
    assert q * b * a == q * (a * b);
  }

  lemma MulSteps(t: nat, b: nat, a: nat)
    requires t < b
    ensures t * a + a <= a * b
  {
    assert (b - t - 1) * a >= 0;
    assert (b - t - 1) * a == b * a - t * a - a;
  }

  /** Dividing by a and then by b is dividing by their product. */
  lemma DivTwice(n: nat, a: nat, b: nat)
    requires a > 0 && b > 0
    ensures a * b > 0 && n / a / b == n / (a * b)
  {
    var m, r := n / a, n % a;
    var q, t := m / b, m % b;
    MulRegroup(q, b, a, t);
    MulSteps(t, b, a);
    DivModUnique(n, a * b, q, t * a + r);
  }

  /** Reducing modulo a * b keeps the low digit r, and reduces the rest modulo b. */
  lemma ModMul(m: nat, a: nat, b: nat, r: nat)
    requires r < a && b > 0
    ensures a * b > 0 && (m * a + r) % (a * b) == m % b * a + r
  {
    var q, t := m / b, m % b;
    MulRegroup(q, b, a, t);
    MulSteps(t, b, a);
    DivModUnique(m * a + r, a * b, q, t * a + r);
  }
}
