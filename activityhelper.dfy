/**
 * `smooth` from `ActivityHelper.kt`: a moving average over a stream of doubles. The first and the last
 * `size` values are copied; every other value becomes a window sum divided by `2 * size + 1`.
 * As written the window `subList(i - size, i + size)` holds only `2 * size` values (the value at
 * `i + size` is left out), so the result is biased towards zero; `SmoothCorrected` averages the
 * `2 * size + 1` values centred on `i`.
 */
module ActivityHelper {
  import opened Numeric

  /** What `smooth` puts at index `i` as written: the window `values[i - size .. i + size)`. */
  function AsWrittenPoint(values: seq<real>, size: nat, i: nat): real
    requires i < |values|
  {
    if size <= i < |values| - size then SumReal(values[i - size..i + size]) / (2 * size + 1) as real
    else values[i]
  }

  /** The centred mean: the `2 * size + 1` values from `i - size` to `i + size`, both included. */
  function CenteredPoint(values: seq<real>, size: nat, i: nat): real
    requires i < |values|
  {
    if size <= i < |values| - size then SumReal(values[i - size..i + size + 1]) / (2 * size + 1) as real
    else values[i]
  }

  /**
   * `List<Double>.smooth(size)` as written. Kotlin throws when `size` exceeds the length (the first
   * loop reads `this[size - 1]`). The head and the tail are copied, the middle averaged.
   */
  method Smooth(values: seq<real>, size: nat) returns (smoothed: seq<real>)
    requires size <= |values|
    ensures |smoothed| == |values|
    ensures forall i :: 0 <= i < |values| && (i < size || i >= |values| - size) ==> smoothed[i] == values[i]
    ensures forall i :: 0 <= i < |values| ==> smoothed[i] == AsWrittenPoint(values, size, i)
  {
    var n := |values|;
    var buffer := new real[n];
    for i := 0 to size
      invariant forall k :: 0 <= k < i ==> buffer[k] == AsWrittenPoint(values, size, k)
    {
      buffer[i] := values[i];
    }
    var middle := if n - size > size then n - size else size;
    for i := size to middle
      invariant forall k :: 0 <= k < i ==> buffer[k] == AsWrittenPoint(values, size, k)
    {
      buffer[i] := SumReal(values[i - size..i + size]) / (2 * size + 1) as real;
    }
    for i := n - size to n
      invariant forall k :: 0 <= k < middle || n - size <= k < i ==> buffer[k] == AsWrittenPoint(values, size, k)
    {
      buffer[i] := values[i];
    }
    smoothed := buffer[..];
  }

  /** `smooth()` with its default window, `size = 5`, as every caller uses it. */
  method SmoothDefault(values: seq<real>) returns (smoothed: seq<real>)
    requires 5 <= |values|
    ensures |smoothed| == |values|
    ensures forall i :: 0 <= i < |values| ==> smoothed[i] == AsWrittenPoint(values, 5, i)
  {
    smoothed := Smooth(values, 5);
  }

  /** The same three loops with the window widened by the one value `smooth` leaves out. */
  method SmoothCorrected(values: seq<real>, size: nat) returns (smoothed: seq<real>)
    requires size <= |values|
    ensures |smoothed| == |values|
    ensures forall i :: 0 <= i < |values| && (i < size || i >= |values| - size) ==> smoothed[i] == values[i]
    ensures forall i :: 0 <= i < |values| ==> smoothed[i] == CenteredPoint(values, size, i)
  {
    var n := |values|;
    var buffer := new real[n];
    for i := 0 to size
      invariant forall k :: 0 <= k < i ==> buffer[k] == CenteredPoint(values, size, k)
    {
      buffer[i] := values[i];
    }
    var middle := if n - size > size then n - size else size;
    for i := size to middle
      invariant forall k :: 0 <= k < i ==> buffer[k] == CenteredPoint(values, size, k)
    {
      buffer[i] := SumReal(values[i - size..i + size + 1]) / (2 * size + 1) as real;
    }
    for i := n - size to n
      invariant forall k :: 0 <= k < middle || n - size <= k < i ==> buffer[k] == CenteredPoint(values, size, k)
    {
      buffer[i] := values[i];
    }
    smoothed := buffer[..];
  }

  /** Every value is `c`. */
  predicate Constant(values: seq<real>, c: real)
  {
    forall k :: 0 <= k < |values| ==> values[k] == c
  }

  /** As written, an averaged point of a constant stream is `2 * size / (2 * size + 1)` of the constant. */
  lemma AsWrittenScalesConstant(values: seq<real>, size: nat, c: real, i: nat)
    requires Constant(values, c) && size <= i < |values| - size
    ensures AsWrittenPoint(values, size, i) == c * (2 * size) as real / (2 * size + 1) as real
  {
    SumRealConstant(values[i - size..i + size], c);
  }

  /** So a constant non-zero stream does not come out unchanged: with [3.0, 3.0, 3.0] and size 1 the middle is 2.0. */
  lemma AsWrittenMovesConstant(values: seq<real>, size: nat, c: real, i: nat)
    requires Constant(values, c) && c != 0.0 && 1 <= size <= i < |values| - size
    ensures AsWrittenPoint(values, size, i) != c
  {
    AsWrittenScalesConstant(values, size, c, i);
    var w := (2 * size + 1) as real;
    assert c * (2 * size) as real == c * w - c;
  }

  /** With the default window, an interior point of a constant stream comes out at 10/11 of the constant. */
  lemma DefaultWindowScalesConstant(values: seq<real>, c: real, i: nat)
    requires Constant(values, c) && 5 <= i < |values| - 5
    ensures AsWrittenPoint(values, 5, i) == c * 10.0 / 11.0
  {
    AsWrittenScalesConstant(values, 5, c, i);
  }

  lemma AsWrittenExample()
    ensures AsWrittenPoint([3.0, 3.0, 3.0], 1, 1) == 2.0
  {
    AsWrittenScalesConstant([3.0, 3.0, 3.0], 1, 3.0, 1);
  }

  /** The centred mean of values between `lo` and `hi` lies between `lo` and `hi`. */
  lemma CenteredWithinBounds(values: seq<real>, size: nat, lo: real, hi: real, i: nat)
    requires i < |values| && forall k :: 0 <= k < |values| ==> lo <= values[k] <= hi
    ensures lo <= CenteredPoint(values, size, i) <= hi
  {
    if size <= i < |values| - size {
      var window := values[i - size..i + size + 1];
      SumRealBounds(window, lo, hi);
      var w := (2 * size + 1) as real;
      assert |window| as real == w;
      MeanWithin(SumReal(window), w, lo, hi);
    }
  }

  /** A constant stream comes out unchanged from the centred mean. */
  lemma CenteredKeepsConstant(values: seq<real>, size: nat, c: real)
    requires Constant(values, c)
    ensures forall i :: 0 <= i < |values| ==> CenteredPoint(values, size, i) == c
  {
    forall i | 0 <= i < |values|
      ensures CenteredPoint(values, size, i) == c
    {
      CenteredWithinBounds(values, size, c, c, i);
    }
  }
}
