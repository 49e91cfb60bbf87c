/**
 * Two helpers of the FIT file reader (`FITRepository.kt`): `fixCoordinate`, which fills the missing
 * (zero) entries of a latitude or longitude series in place, and `extractActivityType`, which names
 * the sport of a FIT session.
 *
 * `fixCoordinate` as written has two faults: a run of zeros at the end of the series reads past its
 * end (Kotlin throws), and the average `(last + next) / 2` is taken on 32-bit `Int`s, so two
 * coordinates near +180 or -180 degrees overflow. `FixCoordinate` models the code as written,
 * `FixCoordinateCorrected` the repaired one.
 */
module FITRepository {
  import opened Wrappers
  import opened Numeric
  import opened Strava

  // ---------------------------------------------------------------- where the recorded values are

  /** The first index at or after `k` that holds a recorded (non-zero) value. */
  function NextNonZero(s: seq<int>, k: nat): (r: Option<nat>)
    decreases |s| - k
    ensures r.Some? ==> k <= r.value < |s| && s[r.value] != 0 && forall t :: k <= t < r.value ==> s[t] == 0
    ensures r.None? ==> forall t :: k <= t < |s| ==> s[t] == 0
  {
    if k >= |s| then None else if s[k] != 0 then Some(k) else NextNonZero(s, k + 1)
  }

  /** The last index before `k` that holds a recorded value. */
  function PrevNonZero(s: seq<int>, k: nat): (r: Option<nat>)
    requires k <= |s|
    ensures r.Some? ==> r.value < k && s[r.value] != 0 && forall t :: r.value < t < k ==> s[t] == 0
    ensures r.None? ==> forall t :: 0 <= t < k ==> s[t] == 0
  {
    if k == 0 then None else if s[k - 1] != 0 then Some(k - 1) else PrevNonZero(s, k - 1)
  }

  /** Kotlin's `Int` addition: the sum wraps around to 32 bits. */
  function Wrap32(x: int): (r: int)
    ensures -0x8000_0000 <= r < 0x8000_0000
    ensures (r - x) % 0x1_0000_0000 == 0
  {
    (x + 0x8000_0000) % 0x1_0000_0000 - 0x8000_0000
  }

  /** `(lastValidValue + firstValidValue) / 2` on Kotlin `Int`s. */
  function AverageAsWritten(a: int, b: int): int
  {
    Quot(Wrap32(a + b), 2)
  }

  /** The same average without the overflow, as on 64-bit `Long`s. */
  function Midpoint(a: int, b: int): int
  {
    Quot(a + b, 2)
  }

  /**
   * The value the repair gives index `k` of the recorded series `s`, with `avg` the average of the
   * two recorded values around a gap: a recorded value stays; a leading gap takes the first recorded
   * value; an inner gap the average of its two neighbours; a trailing gap the last recorded value;
   * a series with nothing recorded stays zero.
   */
  function Filled(s: seq<int>, k: nat, avg: (int, int) -> int): int
    requires k < |s|
  {
    if s[k] != 0 then s[k]
    else
      match (PrevNonZero(s, k), NextNonZero(s, k))
      case (None, None) => 0
      case (None, Some(q)) => s[q]
      case (Some(p), None) => s[p]
      case (Some(p), Some(q)) => avg(s[p], s[q])
  }

  /** A gap runs to the end of a series that recorded something: the case where `fixCoordinate` throws. */
  predicate TrailingGap(s: seq<int>)
  {
    |s| > 0 && s[|s| - 1] == 0 && NextNonZero(s, 0).Some?
  }

  /** The next recorded value depends only on the series from `k` on. */
  lemma {:induction false} NextNonZeroAgrees(s: seq<int>, u: seq<int>, k: nat)
    requires |s| == |u| && forall t :: k <= t < |s| ==> s[t] == u[t]
    ensures NextNonZero(s, k) == NextNonZero(u, k)
    decreases |s| - k
  {
    if k < |s| && s[k] == 0 {
      NextNonZeroAgrees(s, u, k + 1);
    }
  }

  // ---------------------------------------------------------------- fixCoordinate

  /** `drop(from).first { it != 0 }`: the index of the next recorded value, or the length when there is none. */
  method FirstNonZeroFrom(a: array<int>, from: nat) returns (j: nat)
    requires from <= a.Length
    ensures j < a.Length ==> NextNonZero(a[..], from) == Some(j)
    ensures j >= a.Length ==> j == a.Length && NextNonZero(a[..], from).None?
  {
    j := from;
    while j < a.Length && a[j] == 0
      invariant from <= j <= a.Length
      invariant forall t :: from <= t < j ==> a[t] == 0
    {
      j := j + 1;
    }
    ghost var r := NextNonZero(a[..], from);
    if r.Some? {
      assert a[r.value] != 0;
    }
  }

  /**
   * `MutableList<Int>.fixCoordinate()` as written. The caller has already taken `first()` of the same
   * records, so the series is never empty. The result `crashed` stands for the exception thrown when
   * the inner loop runs past the end of a trailing gap; then nothing is promised about the contents.
   */
  method FixCoordinate(a: array<int>) returns (crashed: bool)
    requires a.Length > 0
    modifies a
    ensures crashed <==> TrailingGap(old(a[..]))
    ensures !crashed ==> forall k :: 0 <= k < a.Length ==> a[k] == Filled(old(a[..]), k, AverageAsWritten)
  {
    ghost var s := a[..];
    var index := 0;
    if a[0] == 0 {
      index := FillLeadingGap(a, s, AverageAsWritten);
    } else {
      assert NextNonZero(s, 0) == Some(0);
    }
    while index < a.Length
      invariant 0 <= index <= a.Length
      invariant forall k :: 0 <= k < index ==> a[k] == Filled(s, k, AverageAsWritten)
      invariant forall k :: index <= k < a.Length ==> a[k] == s[k]
      invariant index < a.Length && s[index] == 0 ==> 0 < index && s[index - 1] != 0
      invariant index == a.Length ==> !TrailingGap(s)
    {
      if a[index] == 0 {
        index := FillGapAsWritten(a, s, index);
        if index == a.Length {
          // `this[index]` with `index == size`: IndexOutOfBoundsException
          return true;
        }
      }
      index := index + 1;
    }
    return false;
  }

  /**
   * One inner gap of `fixCoordinate` as written, from `start` to the next recorded value `end`; a gap
   * that runs to the end of the series is a trailing gap, where `fixCoordinate` throws.
   */
  method FillGapAsWritten(a: array<int>, ghost s: seq<int>, start: nat) returns (end: nat)
    requires 0 < start < a.Length == |s| && s[start] == 0 && s[start - 1] != 0
    requires forall k :: 0 <= k < start ==> a[k] == Filled(s, k, AverageAsWritten)
    requires forall k :: start <= k < a.Length ==> a[k] == s[k]
    modifies a
    ensures start < end <= a.Length
    ensures end < a.Length ==> s[end] != 0 && forall k :: 0 <= k < end ==> a[k] == Filled(s, k, AverageAsWritten)
    ensures forall k :: end <= k < a.Length ==> a[k] == s[k]
    ensures end == a.Length ==> TrailingGap(s)
  {
    var lastValidValue := a[start - 1];
    var next := FirstNonZeroFrom(a, start);
    var firstValidValue := if next < a.Length then a[next] else lastValidValue;
    NextNonZeroAgrees(a[..], s, start);
    end := FillInnerGap(a, s, start, next, AverageAsWritten(lastValidValue, firstValidValue), AverageAsWritten);
    if end == a.Length {
      assert s[a.Length - 1] == 0;
      assert NextNonZero(s, 0).Some?;
    }
  }

  /**
   * The first loop: a leading gap takes the first recorded value, or zero when nothing is recorded;
   * `index` ends on the first recorded value.
   */
  method FillLeadingGap(a: array<int>, ghost s: seq<int>, ghost avg: (int, int) -> int) returns (index: nat)
    requires a[..] == s && a.Length > 0 && s[0] == 0
    modifies a
    ensures index <= a.Length
    ensures forall k :: 0 <= k < index ==> a[k] == Filled(s, k, avg)
    ensures forall k :: index <= k < a.Length ==> a[k] == s[k]
    ensures index < a.Length ==> s[index] != 0 && index > 0
    ensures index == a.Length ==> NextNonZero(s, 0).None?
  {
    var first := FirstNonZeroFrom(a, 0);
    var firstValidValue := if first < a.Length then a[first] else 0;
    index := 0;
    while index < a.Length && a[index] == 0
      invariant index <= first
      invariant forall k :: 0 <= k < index ==> a[k] == Filled(s, k, avg)
      invariant forall k :: index <= k < a.Length ==> a[k] == s[k]
    {
      assert PrevNonZero(s, index).None?;
      if first < a.Length {
        assert NextNonZero(s, index) == Some(first);
      } else {
        assert NextNonZero(s, index).None?;
      }
      a[index] := firstValidValue;
      index := index + 1;
    }
  }

  /**
   * The inner loop over one gap that starts after a recorded value: every zero up to the next
   * recorded value `next` (or the end) is set to `fill`; `index` ends on `next`.
   */
  method FillInnerGap(a: array<int>, ghost s: seq<int>, start: nat, next: nat, fill: int, ghost avg: (int, int) -> int)
    returns (index: nat)
    requires 0 < start < a.Length <= |s| == a.Length && s[start] == 0 && s[start - 1] != 0
    requires forall k :: 0 <= k < start ==> a[k] == Filled(s, k, avg)
    requires forall k :: start <= k < a.Length ==> a[k] == s[k]
    requires next < a.Length ==> NextNonZero(s, start) == Some(next)
    requires next >= a.Length ==> next == a.Length && NextNonZero(s, start).None?
    requires fill == if next < a.Length then avg(s[start - 1], s[next]) else avg(s[start - 1], s[start - 1])
    modifies a
    ensures index == next
    ensures forall k :: start <= k < index ==> s[k] == 0 && a[k] == fill
    ensures forall k :: index <= k < a.Length ==> a[k] == s[k]
    ensures next < a.Length || fill == s[start - 1] ==> forall k :: 0 <= k < index ==> a[k] == Filled(s, k, avg)
  {
    ghost var filled := next < a.Length || fill == s[start - 1];
    index := start;
    while index < a.Length && a[index] == 0
      invariant start <= index <= next
      invariant forall k :: start <= k < index ==> s[k] == 0 && a[k] == fill
      invariant forall k :: index <= k < a.Length ==> a[k] == s[k]
      invariant forall k :: 0 <= k < start ==> a[k] == Filled(s, k, avg)
      invariant filled ==> forall k :: start <= k < index ==> a[k] == Filled(s, k, avg)
    {
      assert PrevNonZero(s, index) == Some(start - 1);
      if next < a.Length {
        assert NextNonZero(s, index) == Some(next);
      } else {
        assert NextNonZero(s, index).None?;
      }
      a[index] := fill;
      index := index + 1;
    }
  }

  /** `fixCoordinate` with a bound on the inner loop and the average taken without overflow. */
  method FixCoordinateCorrected(a: array<int>)
    requires a.Length > 0
    modifies a
    ensures forall k :: 0 <= k < a.Length ==> a[k] == Filled(old(a[..]), k, Midpoint)
  {
    ghost var s := a[..];
    var index := 0;
    if a[0] == 0 {
      index := FillLeadingGap(a, s, Midpoint);
    }
    while index < a.Length
      invariant 0 <= index <= a.Length
      invariant forall k :: 0 <= k < index ==> a[k] == Filled(s, k, Midpoint)
      invariant forall k :: index <= k < a.Length ==> a[k] == s[k]
      invariant index < a.Length && s[index] == 0 ==> 0 < index && s[index - 1] != 0
    {
      if a[index] == 0 {
        var lastValidValue := a[index - 1];
        var next := FirstNonZeroFrom(a, index);
        var firstValidValue := if next < a.Length then a[next] else lastValidValue;
        NextNonZeroAgrees(a[..], s, index);
        MidpointSame(lastValidValue);
        index := FillInnerGap(a, s, index, next, Midpoint(lastValidValue, firstValidValue), Midpoint);
        if index == a.Length {
          return;
        }
      }
      index := index + 1;
    }
  }

  // ---------------------------------------------------------------- what the repair promises

  lemma MidpointSame(x: int)
    ensures Midpoint(x, x) == x
  {
  }

  /** The exact midpoint of two values lies between them. */
  lemma MidpointBetween(x: int, y: int)
    ensures x <= y ==> x <= Midpoint(x, y) <= y
    ensures y <= x ==> y <= Midpoint(x, y) <= x
  {
    if x + y >= 0 {
      QuotFloor(x + y, 2);
    } else {
      QuotFloor(-(x + y), 2);
    }
  }

  /** A leading gap takes the first recorded value, whatever the average. */
  lemma LeadingGapTakesFirstValue(s: seq<int>, avg: (int, int) -> int, p: nat, k: nat)
    requires NextNonZero(s, 0) == Some(p) && k < p
    ensures Filled(s, k, avg) == s[p]
  {
    assert s[k] == 0;
    assert PrevNonZero(s, k).None?;
    assert NextNonZero(s, k) == Some(p);
  }

  /** An inner gap between the recorded values at `p` and `q` takes their average. */
  lemma InnerGapTakesAverage(s: seq<int>, avg: (int, int) -> int, p: nat, q: nat, k: nat)
    requires p < k < q < |s| && s[p] != 0 && s[q] != 0
    requires forall t :: p < t < q ==> s[t] == 0
    ensures Filled(s, k, avg) == avg(s[p], s[q])
  {
    assert s[k] == 0;
    assert PrevNonZero(s, k) == Some(p);
    assert NextNonZero(s, k) == Some(q);
  }

  /** Recorded values are never changed, and a series with nothing recorded stays all zero. */
  lemma RecordedValuesKept(s: seq<int>, avg: (int, int) -> int, k: nat)
    requires k < |s|
    ensures s[k] != 0 ==> Filled(s, k, avg) == s[k]
    ensures NextNonZero(s, 0).None? ==> Filled(s, k, avg) == 0
  {
    if NextNonZero(s, 0).None? {
      assert s[k] == 0;
      assert PrevNonZero(s, k).None?;
      assert NextNonZero(s, k).None?;
    }
  }

  /**
   * The corrected repair stays within the recorded values: when every recorded value lies between
   * `lo` and `hi`, so does every repaired value. With `lo > 0` no zero is left.
   */
  lemma CorrectedWithinRecorded(s: seq<int>, lo: int, hi: int, k: nat)
    requires k < |s| && NextNonZero(s, 0).Some?
    requires forall t :: 0 <= t < |s| && s[t] != 0 ==> lo <= s[t] <= hi
    ensures lo <= Filled(s, k, Midpoint) <= hi
  {
    if s[k] == 0 {
      assert s[NextNonZero(s, 0).value] != 0;
      match (PrevNonZero(s, k), NextNonZero(s, k))
      case (None, None) =>
        assert false;
      case (None, Some(q)) =>
      case (Some(p), None) =>
      case (Some(p), Some(q)) =>
        MidpointBetween(s[p], s[q]);
    }
  }

  /**
   * As written, two longitudes just west of 180 degrees (in semicircles) average to a value near
   * 0 degrees: the 32-bit sum wraps around.
   */
  lemma AsWrittenOverflows()
    ensures Filled([2147483000, 0, 2147483600], 1, AverageAsWritten) == -348
    ensures Filled([2147483000, 0, 2147483600], 1, Midpoint) == 2147483300
  {
    InnerGapTakesAverage([2147483000, 0, 2147483600], AverageAsWritten, 0, 2, 1);
    InnerGapTakesAverage([2147483000, 0, 2147483600], Midpoint, 0, 2, 1);
  }

  /** As written, a series whose last recorded point is followed by a gap throws. */
  lemma AsWrittenTrailingGapThrows(s: seq<int>, p: nat)
    requires p < |s| && s[p] != 0 && s[|s| - 1] == 0
    ensures TrailingGap(s)
  {
    assert NextNonZero(s, 0).Some?;
  }

  // ---------------------------------------------------------------- extractActivityType

  /** The FIT sports `extractActivityType` names; every other sport is `OtherSport`. */
  datatype Sport = Cycling | Running | InlineSkating | AlpineSkiing | Hiking | OtherSport(code: int)

  /** `extractActivityType`. */
  function ExtractActivityType(sport: Sport): (name: string)
    ensures name == "Unknown" <==> sport.OtherSport?
  {
    match sport
    case Cycling => "Ride"
    case Running => "Run"
    case InlineSkating => "InlineSkate"
    case AlpineSkiing => "AlpineSki"
    case Hiking => "Hike"
    case OtherSport(_) => "Unknown"
  }

  /**
   * The five named sports give five different names of `ActivityType`; "Unknown" is none, so the
   * activity type filter drops the activities of every other sport.
   */
  lemma ExtractedNamesKnown(sport: Sport, other: Sport)
    ensures IsKnownTypeName(ExtractActivityType(sport)) <==> !sport.OtherSport?
    ensures !sport.OtherSport? && ExtractActivityType(sport) == ExtractActivityType(other) ==> sport == other
  {
  }
}
