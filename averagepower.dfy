/** `averagePower`: the mean power over an inclusive index range of a watts series. */
module AveragePower {
  import opened Numeric

  /** The mean of a non-empty series. */
  function Mean(s: seq<real>): (m: real)
    requires s != []
  {
    SumReal(s) / |s| as real
  }

  /** What `averagePower` computes: 0 for an empty series, else the mean over [idxStart, idxEnd]. */
  function WindowPower(watts: seq<real>, idxStart: nat, idxEnd: nat): real
    requires watts != [] ==> idxStart <= idxEnd < |watts|
  {
    if watts == [] then 0.0 else Mean(watts[idxStart..idxEnd + 1])
  }

  /**
   * `averagePower(watts, idxStart, idxEnd)`: 0 for a missing or empty series; otherwise the mean of
   * watts[idxStart..idxEnd], both ends included and zero samples counted like any other.
   */
  method AveragePowerOf(watts: seq<real>, idxStart: int, idxEnd: int) returns (average: real)
    requires watts != [] ==> 0 <= idxStart <= idxEnd < |watts|
    ensures watts == [] ==> average == 0.0
    ensures watts != [] ==> average == Mean(watts[idxStart..idxEnd + 1])
  {
    average := 0.0;
    if |watts| > 0 {
      var sumPower := 0.0;
      var i := idxStart;
      while i <= idxEnd
        invariant idxStart <= i <= idxEnd + 1
        invariant sumPower == SumReal(watts[idxStart..i])
      {
        SumRealSnoc(watts, idxStart, i);
        sumPower := sumPower + watts[i];
        i := i + 1;
      }
      average := sumPower / (idxEnd - idxStart + 1) as real;
    }
  }

  /** The mean lies between the smallest and the largest sample. */
  lemma MeanBounds(s: seq<real>, lo: real, hi: real)
    requires s != [] && forall k :: 0 <= k < |s| ==> lo <= s[k] <= hi
    ensures lo <= Mean(s) <= hi
  {
    SumRealBounds(s, lo, hi);
    var n := |s| as real;
    assert n * lo <= SumReal(s) <= n * hi;
    assert lo == (n * lo) / n && hi == (n * hi) / n;
  }

  /** A constant series averages to that constant. */
  lemma MeanConstant(s: seq<real>, c: real)
    requires s != [] && forall k :: 0 <= k < |s| ==> s[k] == c
    ensures Mean(s) == c
  {
    MeanBounds(s, c, c);
  }

  /** Zero samples are data points: appending a zero to a window scales its mean by n/(n+1). */
  lemma MeanWithZero(s: seq<real>)
    requires s != []
    ensures Mean(s + [0.0]) == Mean(s) * (|s| as real) / (|s| as real + 1.0)
  {
    SumRealSnoc(s + [0.0], 0, |s|);
    assert (s + [0.0])[0..|s|] == s && (s + [0.0])[0..|s| + 1] == s + [0.0];
  }
}
