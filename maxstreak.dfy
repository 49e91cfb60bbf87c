/**
 * `NewMaxStreakStatistic` (`maxstreakstatistic.go`): sort the activities in place, newest first, lay
 * the days from the oldest to the newest activity out as an array of active/inactive flags, and scan
 * it for the longest run of active days.
 */
module MaxStreak {
  import opened Wrappers
  import opened Text
  import opened Calendar
  import opened Strava
  import opened Grouping

  // ---------------------------------------------------------------- the exchange sort

  /** `a.StartDateLocal >= b.StartDateLocal` as Go compares strings. */
  predicate NotBefore(a: Activity, b: Activity)
  {
    LexLe(b.startDateLocal, a.startDateLocal)
  }

  /** Newest first: every activity's date text is at least that of every later one. */
  predicate DatesDescending(s: seq<Activity>)
  {
    forall p, q :: 0 <= p < q < |s| ==> NotBefore(s[p], s[q])
  }

  /** The first `i` positions hold the newest activities, newest first. */
  predicate SortedPrefix(s: seq<Activity>, i: nat)
  {
    forall p, q :: 0 <= p < i && p < q < |s| ==> NotBefore(s[p], s[q])
  }

  /**
   * The nested exchange loop of lines 26-32: for each position, swap in every later activity with a
   * greater date text. The activities end up newest first, and none is lost or duplicated.
   */
  method SortNewestFirst(activities: array<Activity>)
    modifies activities
    ensures multiset(activities[..]) == old(multiset(activities[..]))
    ensures DatesDescending(activities[..])
  {
    for i := 0 to activities.Length
      invariant multiset(activities[..]) == old(multiset(activities[..]))
      invariant SortedPrefix(activities[..], i)
    {
      BringNewestForward(activities, i);
    }
  }

  /** The inner loop: exchange position `i` with every later activity that has a greater date text. */
  method BringNewestForward(activities: array<Activity>, i: nat)
    requires i < activities.Length && SortedPrefix(activities[..], i)
    modifies activities
    ensures multiset(activities[..]) == old(multiset(activities[..]))
    ensures SortedPrefix(activities[..], i + 1)
  {
    var n := activities.Length;
    for j := i + 1 to n
      invariant multiset(activities[..]) == old(multiset(activities[..]))
      invariant SortedPrefix(activities[..], i)
      invariant forall q :: i < q < j ==> NotBefore(activities[i], activities[q])
    {
      if LexLess(activities[i].startDateLocal, activities[j].startDateLocal) {
        ExchangeKeepsOrder(activities, i, j);
        Exchange(activities, i, j);
      } else {
        LexLessTrichotomy(activities[i].startDateLocal, activities[j].startDateLocal);
      }
    }
  }

  /** `activities[i], activities[j] = activities[j], activities[i]` behind a sorted prefix that ends before `i`. */
  method Exchange(activities: array<Activity>, i: nat, j: nat)
    requires i < j < activities.Length && SortedPrefix(activities[..], i)
    modifies activities
    ensures activities[..] == old(activities[..])[i := old(activities[j])][j := old(activities[i])]
    ensures multiset(activities[..]) == old(multiset(activities[..]))
    ensures SortedPrefix(activities[..], i)
  {
    ghost var before := activities[..];
    activities[i], activities[j] := activities[j], activities[i];
    forall p, q | 0 <= p < i && p < q < activities.Length
      ensures NotBefore(activities[p], activities[q])
    {
      if q == i {
        assert NotBefore(before[p], before[j]);
      } else if q == j {
        assert NotBefore(before[p], before[i]);
      } else {
        assert NotBefore(before[p], before[q]);
      }
    }
  }

  /** Swapping in a greater date at position `i` keeps it ahead of everything already passed over. */
  lemma ExchangeKeepsOrder(activities: array<Activity>, i: nat, j: nat)
    requires i < j < activities.Length
    requires LexLess(activities[i].startDateLocal, activities[j].startDateLocal)
    requires forall q :: i < q < j ==> NotBefore(activities[i], activities[q])
    ensures forall q :: i < q < j ==> NotBefore(activities[j], activities[q])
    ensures NotBefore(activities[j], activities[i])
  {
    forall q | i < q < j
      ensures NotBefore(activities[j], activities[q])
    {
      LexLeTransitive(activities[q].startDateLocal, activities[i].startDateLocal, activities[j].startDateLocal);
    }
  }

  /** Sorting keeps every date text, so it keeps them long enough to cut. */
  lemma LongEnoughRearranged(before: seq<Activity>, after: seq<Activity>)
    requires multiset(after) == multiset(before) && LongEnough(before, 10)
    ensures LongEnough(after, 10)
  {
    forall i | 0 <= i < |after|
      ensures |after[i].startDateLocal| >= 10
    {
      assert after[i] in multiset(before);
    }
  }

  // ---------------------------------------------------------------- day numbers

  /**
   * `time.Parse("2006-01-02", StartDateLocal[:10]).Unix() / 86400` up to a fixed offset. The parse error
   * is ignored in the source, so a text that is not a date counts as the zero time, 1 January of year 1.
   */
  function DayNumber(a: Activity): int
    requires |a.startDateLocal| >= 10
  {
    match ParseDate(a.startDateLocal[..10])
    case Some(d) => EpochDay(d)
    case None => EpochDay(Date(1, 1, 1))
  }

  /** `activeDaysSet`: the offsets of the activities' days from `first`. */
  function Offsets(s: seq<Activity>, first: int): set<int>
    requires LongEnough(s, 10)
  {
    set k | 0 <= k < |s| :: DayNumber(s[k]) - first
  }

  /** `activeDays`: for each of `n` days from `first`, whether some activity falls on it. */
  function ActiveSlots(s: seq<Activity>, first: int, n: nat): (slots: seq<bool>)
    requires LongEnough(s, 10)
    ensures |slots| == n
  {
    seq(n, i requires 0 <= i < n => i in Offsets(s, first))
  }

  /** A slot is active exactly when an activity falls on that day. */
  lemma ActiveSlotMeaning(s: seq<Activity>, first: int, n: nat, i: nat)
    requires LongEnough(s, 10) && i < n
    ensures ActiveSlots(s, first, n)[i] <==> exists k :: 0 <= k < |s| && DayNumber(s[k]) == first + i
  {
    assert ActiveSlots(s, first, n)[i] == (i in Offsets(s, first));
    if i in Offsets(s, first) {
      var k :| 0 <= k < |s| && DayNumber(s[k]) - first == i;
      assert DayNumber(s[k]) == first + i;
    }
    forall k | 0 <= k < |s| && DayNumber(s[k]) == first + i
      ensures i in Offsets(s, first)
    {
      assert DayNumber(s[k]) - first == i;
    }
  }

  /** The loop of lines 38-42: one offset per activity. */
  method CollectOffsets(activities: array<Activity>, first: int) returns (offsets: set<int>)
    requires LongEnough(activities[..], 10)
    ensures offsets == Offsets(activities[..], first)
  {
    offsets := {};
    for i := 0 to activities.Length
      invariant offsets == set k | 0 <= k < i :: DayNumber(activities[k]) - first
    {
      offsets := offsets + {DayNumber(activities[i]) - first};
    }
  }

  /** The loop of lines 45-48: `make([]bool, days)` filled from the set. */
  method FillSlots(activities: array<Activity>, first: int, days: nat) returns (activeDays: array<bool>)
    requires LongEnough(activities[..], 10)
    ensures fresh(activeDays) && activeDays[..] == ActiveSlots(activities[..], first, days)
  {
    var offsets := CollectOffsets(activities, first);
    activeDays := new bool[days];
    for i := 0 to days
      invariant forall k :: 0 <= k < i ==> activeDays[k] == (k in offsets)
    {
      activeDays[i] := i in offsets;
    }
  }

  // ---------------------------------------------------------------- runs of active days

  /** `len` active slots from `start`. */
  predicate ActiveRun(s: seq<bool>, start: int, len: nat)
  {
    0 <= start && start + len <= |s| && forall k :: start <= k < start + len ==> s[k]
  }

  /** A run followed, inside the array, by an inactive slot. */
  predicate ClosedRun(s: seq<bool>, start: int, len: nat)
  {
    ActiveRun(s, start, len) && start + len < |s| && !s[start + len]
  }

  /** `m` is the longest run that an inactive slot closes (0 if there is none). */
  ghost predicate IsLongestClosedRun(s: seq<bool>, m: nat)
  {
    && (forall start: int, len: nat :: ClosedRun(s, start, len) ==> len <= m)
    && (m == 0 || exists start :: ClosedRun(s, start, m))
  }

  /** `m` is the longest run of active slots, wherever it ends. */
  ghost predicate IsLongestRun(s: seq<bool>, m: nat)
  {
    && (forall start: int, len: nat :: ActiveRun(s, start, len) ==> len <= m)
    && exists start :: ActiveRun(s, start, m)
  }

  /** The active run that ends just before `k` reaches back `currLen` slots and no further. */
  lemma RunEndingAt(s: seq<bool>, k: nat, currLen: nat, start: int, len: nat)
    requires ActiveRun(s, k - currLen, currLen) && (currLen == k || !s[k - currLen - 1])
    requires ActiveRun(s, start, len) && start + len == k
    ensures len <= currLen
  {
    if currLen < k {
      assert !s[k - currLen - 1];
    }
  }

  /**
   * The loop of lines 50-60: a run is compared with the maximum only when an inactive slot ends it,
   * so the result is the longest closed run, and a run that reaches the end of the array is never counted.
   */
  method LongestClosedRun(activeDays: array<bool>) returns (maxLen: nat)
    ensures IsLongestClosedRun(activeDays[..], maxLen)
    ensures maxLen == 0 || maxLen < activeDays.Length
  {
    ghost var s := activeDays[..];
    maxLen := 0;
    var currLen: nat := 0;
    for k := 0 to activeDays.Length
      invariant currLen <= k && ActiveRun(s, k - currLen, currLen) && (currLen == k || !s[k - currLen - 1])
      invariant forall start: int, len: nat :: ClosedRun(s, start, len) && start + len < k ==> len <= maxLen
      invariant maxLen == 0 || exists start :: ClosedRun(s, start, maxLen) && start + maxLen < k
    {
      if activeDays[k] {
        currLen := currLen + 1;
      } else {
        forall start: int, len: nat | ClosedRun(s, start, len) && start + len == k
          ensures len <= currLen
        {
          RunEndingAt(s, k, currLen, start, len);
        }
        assert ClosedRun(s, k - currLen, currLen);
        if currLen > maxLen {
          maxLen := currLen;
        }
        currLen := 0;
      }
    }
  }

  /** The scan with the trailing run compared once the loop is over: the longest run wherever it ends. */
  method LongestRun(activeDays: array<bool>) returns (maxLen: nat)
    ensures IsLongestRun(activeDays[..], maxLen)
    ensures maxLen <= activeDays.Length
  {
    ghost var s := activeDays[..];
    maxLen := 0;
    var currLen: nat := 0;
    assert ActiveRun(s, 0, 0);
    for k := 0 to activeDays.Length
      invariant currLen <= k && ActiveRun(s, k - currLen, currLen) && (currLen == k || !s[k - currLen - 1])
      invariant forall start: int, len: nat :: ActiveRun(s, start, len) && start + len <= k ==> len <= maxLen || len <= currLen
      invariant exists start :: ActiveRun(s, start, maxLen)
    {
      if activeDays[k] {
        forall start: int, len: nat | ActiveRun(s, start, len) && start + len == k + 1
          ensures len <= currLen + 1
        {
          if len > 0 {
            assert ActiveRun(s, start, len - 1);
            RunEndingAt(s, k, currLen, start, len - 1);
          }
        }
        currLen := currLen + 1;
      } else {
        forall start: int, len: nat | ActiveRun(s, start, len) && start + len == k + 1
          ensures len == 0
        {
          assert !s[k];
        }
        if currLen > maxLen {
          maxLen := currLen;
        }
        currLen := 0;
      }
    }
    if currLen > maxLen {
      maxLen := currLen;
    }
  }

  // ---------------------------------------------------------------- the statistic

  /**
   * What the statistic computes from activities sorted newest first: `days` from the oldest to the newest
   * day, and the longest closed run over that many slots; a negative `days` makes `make` panic (`None`).
   */
  ghost predicate StreakAsWritten(s: seq<Activity>, r: Option<nat>)
    requires |s| > 0 && LongEnough(s, 10)
  {
    var first := DayNumber(s[|s| - 1]);
    var days := DayNumber(s[0]) - first;
    if days < 0 then r == None else r.Some? && IsLongestClosedRun(ActiveSlots(s, first, days), r.value)
  }

  /** `NewMaxStreakStatistic`: no activities give 0; otherwise sort in place, lay the days out and scan. */
  method NewMaxStreakStatistic(activities: array<Activity>) returns (maxStreak: Option<nat>)
    requires LongEnough(activities[..], 10)
    modifies activities
    ensures multiset(activities[..]) == old(multiset(activities[..]))
    ensures DatesDescending(activities[..]) && LongEnough(activities[..], 10)
    ensures activities.Length == 0 ==> maxStreak == Some(0)
    ensures activities.Length > 0 ==> StreakAsWritten(activities[..], maxStreak)
  {
    if activities.Length == 0 {
      return Some(0);
    }
    SortNewestFirst(activities);
    LongEnoughRearranged(old(activities[..]), activities[..]);
    var first := DayNumber(activities[activities.Length - 1]);
    var days := DayNumber(activities[0]) - first;
    if days < 0 {
      return None;
    }
    var activeDays := FillSlots(activities, first, days);
    var maxLen := LongestClosedRun(activeDays);
    return Some(maxLen);
  }

  /** What the statistic should compute: the longest run over every day from the oldest to the newest. */
  ghost predicate StreakIntended(s: seq<Activity>, r: Option<nat>)
    requires |s| > 0 && LongEnough(s, 10)
  {
    var first := DayNumber(s[|s| - 1]);
    var days := DayNumber(s[0]) - first;
    if days < 0 then r == None else r.Some? && IsLongestRun(ActiveSlots(s, first, days + 1), r.value)
  }

  /** The statistic with the newest day's slot included and the run that reaches it counted. */
  method MaxStreakCorrected(activities: array<Activity>) returns (maxStreak: Option<nat>)
    requires LongEnough(activities[..], 10)
    modifies activities
    ensures multiset(activities[..]) == old(multiset(activities[..]))
    ensures DatesDescending(activities[..]) && LongEnough(activities[..], 10)
    ensures activities.Length == 0 ==> maxStreak == Some(0)
    ensures activities.Length > 0 ==> StreakIntended(activities[..], maxStreak)
  {
    if activities.Length == 0 {
      return Some(0);
    }
    SortNewestFirst(activities);
    LongEnoughRearranged(old(activities[..]), activities[..]);
    var first := DayNumber(activities[activities.Length - 1]);
    var days := DayNumber(activities[0]) - first;
    if days < 0 {
      return None;
    }
    var activeDays := FillSlots(activities, first, days + 1);
    var maxLen := LongestRun(activeDays);
    return Some(maxLen);
  }

  /** A single day of activity is a streak of one once the newest day has its own slot. */
  lemma OneDayIsStreakOfOne(s: seq<Activity>)
    requires |s| > 0 && LongEnough(s, 10) && DayNumber(s[0]) == DayNumber(s[|s| - 1])
    ensures IsLongestRun(ActiveSlots(s, DayNumber(s[|s| - 1]), 1), 1)
  {
    var first := DayNumber(s[|s| - 1]);
    assert 0 in Offsets(s, first) by {
      assert DayNumber(s[0]) - first == 0;
    }
    assert ActiveRun(ActiveSlots(s, first, 1), 0, 1);
  }

  /** Three consecutive active days: the slots as written hold two of them and no closed run. */
  lemma TrailingRunIgnored()
    ensures forall m :: IsLongestClosedRun([true, true], m) ==> m == 0
    ensures IsLongestRun([true, true, true], 3)
  {
    forall start: int, len: nat
      ensures !ClosedRun([true, true], start, len)
    {
      if 0 <= start && start + len < 2 {
        assert [true, true][start + len];
      }
    }
    assert ActiveRun([true, true, true], 0, 3);
  }
}
