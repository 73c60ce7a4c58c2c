/** Exact rational stand-ins for the Java code's `double` scale factors and for
    `Math.rint`, which rounds to the nearest integer and breaks ties towards
    the even neighbour. */
module Rounding {

  /** The integer nearest to n / d; on a tie, the even one (`Math.rint`). */
  function RoundHalfEven(n: int, d: int): (r: int)
    requires d > 0
    ensures 2 * n - d <= 2 * r * d <= 2 * n + d
    ensures 2 * r * d == 2 * n - d || 2 * r * d == 2 * n + d ==> r % 2 == 0
  {
    var q, m := n / d, n % d;
    assert n == q * d + m;
    if 2 * m < d then q
    else if 2 * m > d then q + 1
    else if q % 2 == 0 then q
    else q + 1
  }

  /** A multiple of d that lies within [-d, d] is at most one step from zero. */
  lemma SmallMultiple(g: int, d: int)
    requires d > 0 && -d <= g * d <= d
    ensures -1 <= g <= 1
  {
    assert g >= 2 ==> g * d >= 2 * d;
    assert g <= -2 ==> g * d <= -2 * d;
  }

  /** Within half a step of n / d, and even on a tie. */
  predicate NearestEven(n: int, d: int, k: int) {
    && 2 * n - d <= 2 * k * d <= 2 * n + d
    && (2 * k * d == 2 * n - d || 2 * k * d == 2 * n + d ==> k % 2 == 0)
  }

  /** At most one integer is NearestEven to n / d. */
  lemma NearestEvenUnique(n: int, d: int, k: int, r: int)
    requires d > 0
    requires NearestEven(n, d, k) && NearestEven(n, d, r)
    ensures k == r
  {
    var kd, rd := k * d, r * d;
    assert 2 * k * d == 2 * kd && 2 * r * d == 2 * rd;
    var gap := k - r;
    assert gap * d == kd - rd;
    SmallMultiple(gap, d);
    assert gap == 1 ==> kd - rd == d;
    assert gap == -1 ==> rd - kd == d;
  }

  /** The two properties of RoundHalfEven determine the result: any integer
      within half a step of n / d that is even on a tie is that result. */
  lemma RoundHalfEvenUnique(n: int, d: int, k: int)
    requires d > 0
    requires NearestEven(n, d, k)
    ensures k == RoundHalfEven(n, d)
  {
    NearestEvenUnique(n, d, k, RoundHalfEven(n, d));
  }

  /** An exact quotient is returned as it is. */
  lemma RoundExact(k: int, d: int)
    requires d > 0
    ensures RoundHalfEven(k * d, d) == k
  {
    RoundHalfEvenUnique(k * d, d, k);
  }

  /** Rounding never falls below an integer that n / d reaches. */
  lemma RoundAtLeast(n: int, d: int, m: int)
    requires d > 0
    requires n >= m * d
    ensures RoundHalfEven(n, d) >= m
  {
    var r := RoundHalfEven(n, d);
    var gap := m - r;
    assert 2 * gap * d == 2 * m * d - 2 * r * d;
    assert 2 * gap * d <= d;
    assert gap >= 1 ==> gap * d >= d;
  }

  /** A non-negative quotient rounds to zero exactly when it is at most one half. */
  lemma RoundIsZero(n: int, d: int)
    requires d > 0 && n >= 0
    ensures RoundHalfEven(n, d) == 0 <==> 2 * n <= d
  {
    if 2 * n <= d {
      RoundHalfEvenUnique(n, d, 0);
    }
  }

  /** A positive scale factor num / den, the exact value of the Java code's
      `(double) target / source`. */
  datatype Ratio = Ratio(num: int, den: int)

  predicate ValidRatio(s: Ratio) {
    s.num > 0 && s.den > 0
  }

  /** `(int) Math.rint(scale * dim)`. */
  function ScaleDim(s: Ratio, dim: int): (r: int)
    requires ValidRatio(s) && dim > 0
    ensures r >= 0
    ensures -s.den <= 2 * (r * s.den - s.num * dim) <= s.den
  {
    var n := s.num * dim;
    RoundAtLeast(n, s.den, 0);
    var k := RoundHalfEven(n, s.den);
    assert 2 * k * s.den == 2 * (k * s.den);
    k
  }
}
