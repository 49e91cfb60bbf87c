/**
 * Integer conversions and sums as the Go and Kotlin code performs them, on unbounded
 * integers and exact reals (IEEE rounding is not modelled).
 */
module Numeric {

  function Abs(x: int): nat
  {
    if x < 0 then -x else x
  }

  /** Go's `int(x)` on a float: the fractional part is dropped, rounding toward zero. */
  function Trunc(x: real): (r: int)
    ensures 0.0 <= x ==> 0 <= r && r as real <= x < r as real + 1.0
    ensures x < 0.0 ==> r <= 0 && r as real - 1.0 < x <= r as real
  {
    if x >= 0.0 then x.Floor else -((-x).Floor)
  }

  /** Go's and Kotlin's integer `/`: the quotient is rounded toward zero. */
  function Quot(a: int, b: int): int
    requires b != 0
  {
    if (a >= 0) == (b > 0) then Abs(a) / Abs(b) else -(Abs(a) / Abs(b))
  }

  lemma DivModNat(n: nat, d: nat, u: int, m: int)
    requires d > 0 && u == n / d && m == n % d
    ensures n == u * d + m && 0 <= m < d
  {
  }

  /** Go's integer `%`: the remainder carries the sign of the dividend. */
  function Rem(a: int, b: int): int
    requires b != 0
  {
    a - Quot(a, b) * b
  }

  /** Sum of a sequence of reals, built from the back so that a loop can extend it element by element. */
  function SumReal(s: seq<real>): real
  {
    if s == [] then 0.0 else SumReal(s[..|s| - 1]) + s[|s| - 1]
  }

  /** Sum of a sequence of integers, built from the back. */
  function SumInt(s: seq<int>): int
  {
    if s == [] then 0 else SumInt(s[..|s| - 1]) + s[|s| - 1]
  }

  lemma {:induction false} SumRealFront(s: seq<real>)
    requires s != []
    ensures SumReal(s) == s[0] + SumReal(s[1..])
  {
    if |s| > 1 {
      SumRealFront(s[..|s| - 1]);
      assert s[..|s| - 1][1..] == s[1..][..|s| - 2];
    }
  }

  lemma {:induction false} SumIntFront(s: seq<int>)
    requires s != []
    ensures SumInt(s) == s[0] + SumInt(s[1..])
  {
    if |s| > 1 {
      SumIntFront(s[..|s| - 1]);
      assert s[..|s| - 1][1..] == s[1..][..|s| - 2];
    }
  }

  lemma SumRealSnoc(s: seq<real>, i: nat, j: nat)
    requires i <= j < |s|
    ensures SumReal(s[i..j + 1]) == SumReal(s[i..j]) + s[j]
  {
    assert s[i..j + 1][..j - i] == s[i..j];
  }

  lemma SumIntSnoc(s: seq<int>, i: nat, j: nat)
    requires i <= j < |s|
    ensures SumInt(s[i..j + 1]) == SumInt(s[i..j]) + s[j]
  {
    assert s[i..j + 1][..j - i] == s[i..j];
  }

  /** Sum of s[lo..hi], by index rather than by slice (the running sums of the window scans). */
  function SumRange(s: seq<int>, lo: nat, hi: nat): int
    requires lo <= hi <= |s|
    decreases hi - lo
  {
    if lo == hi then 0 else SumRange(s, lo, hi - 1) + s[hi - 1]
  }

  /** Dropping the first element of a range takes it off the sum (a window shrinking from its start). */
  lemma {:induction false} SumRangeDropFirst(s: seq<int>, lo: nat, hi: nat)
    requires lo < hi <= |s|
    ensures SumRange(s, lo, hi) == s[lo] + SumRange(s, lo + 1, hi)
  {
    if hi > lo + 1 {
      SumRangeDropFirst(s, lo, hi - 1);
    }
  }

  /** A range of zeros sums to zero. */
  lemma {:induction false} SumRangeZeros(s: seq<int>, lo: nat, hi: nat)
    requires lo <= hi <= |s| && forall k :: lo <= k < hi ==> s[k] == 0
    ensures SumRange(s, lo, hi) == 0
  {
    if lo < hi {
      SumRangeZeros(s, lo, hi - 1);
    }
  }

  /** On a non-negative dividend and a positive divisor, `Quot` is the floor of the exact quotient. */
  lemma QuotFloor(a: int, b: int)
    requires a >= 0 && b > 0
    ensures Quot(a, b) == a / b && 0 <= a - Quot(a, b) * b < b
  {
    DivModNat(a, b, a / b, a % b);
  }

  /** Go's integer division of a sum of n values of at most m by n is at most m. */
  lemma QuotAtMost(sum: int, n: int, m: int)
    requires n > 0 && 0 <= sum <= n * m
    ensures 0 <= Quot(sum, n) <= m
  {
    QuotFloor(sum, n);
    var q := Quot(sum, n);
    if q < 0 {
      MulMonotone(q, -1, n);
    }
    if q > m {
      MulMonotone(m + 1, q, n);
    }
  }

  lemma MulMonotone(a: int, b: int, n: nat)
    requires a <= b
    ensures a * n <= b * n
  {
  }

  /** `x` added up `n` times. */
  function Times(n: nat, x: real): real
  {
    if n == 0 then 0.0 else Times(n - 1, x) + x
  }

  lemma {:induction false} TimesIsProduct(n: nat, x: real)
    ensures Times(n, x) == n as real * x
  {
    if n > 0 {
      TimesIsProduct(n - 1, x);
      assert n as real * x == (n - 1) as real * x + x;
    }
  }

  /** A sum of at most `n` times `m`, shared out over `n`, is at most `m`. */
  lemma MeanAtMost(sum: real, n: nat, m: real)
    requires n > 0 && sum <= Times(n, m)
    ensures sum / n as real <= m
  {
    TimesIsProduct(n, m);
    var k := n as real;
    assert sum / k <= (k * m) / k;
  }

  /** A sum between `w` times `lo` and `w` times `hi`, shared out over `w`, lies between `lo` and `hi`. */
  lemma MeanWithin(sum: real, w: real, lo: real, hi: real)
    requires w > 0.0 && w * lo <= sum <= w * hi
    ensures lo <= sum / w <= hi
  {
    assert (w * lo) / w == lo && (w * hi) / w == hi;
    assert (w * lo) / w <= sum / w <= (w * hi) / w;
  }

  /** Every element at least `lo` and at most `hi` bounds the sum by the count times each bound. */
  lemma {:induction false} SumRealBounds(s: seq<real>, lo: real, hi: real)
    requires forall k :: 0 <= k < |s| ==> lo <= s[k] <= hi
    ensures |s| as real * lo <= SumReal(s) <= |s| as real * hi
  {
    if s != [] {
      SumRealBounds(s[..|s| - 1], lo, hi);
    }
  }

  /** A constant sequence sums to its length times the constant. */
  lemma {:induction false} SumRealConstant(s: seq<real>, c: real)
    requires forall k :: 0 <= k < |s| ==> s[k] == c
    ensures SumReal(s) == |s| as real * c
  {
    if s != [] {
      SumRealConstant(s[..|s| - 1], c);
    }
  }

  /** A sequence is non-decreasing (the distance and time axes of a stream). */
  predicate NonDecreasing(s: seq<real>)
  {
    forall i, j :: 0 <= i <= j < |s| ==> s[i] <= s[j]
  }

  function IntsToReals(s: seq<int>): (r: seq<real>)
    ensures |r| == |s| && forall k :: 0 <= k < |s| ==> r[k] == s[k] as real
  {
    seq(|s|, k requires 0 <= k < |s| => s[k] as real)
  }
}
