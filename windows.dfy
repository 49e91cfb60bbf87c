/**
 * The shape shared by the best-effort scanners: a two-pointer scan over an index-aligned axis
 * (cumulative distance or elapsed time). The scan keeps a start index and an end index; while the
 * span axis[end] - axis[start] is below a threshold it advances the end, otherwise it evaluates the
 * window [start, end] and advances the start (and, for the power scan, the end as well).
 *
 * `Scan` describes the complete list of windows such a scan evaluates, declaratively: the k-th
 * evaluated window starts at k, and its end is the first index, from where the previous window
 * left the end pointer, whose span reaches the threshold.
 */
module Windows {
  import opened Numeric

  datatype Window = Window(start: nat, end: nat)

  predicate Reaches(axis: seq<real>, threshold: real, s: nat, e: nat)
    requires s < |axis| && e < |axis|
  {
    axis[e] - axis[s] >= threshold
  }

  /** Where the end pointer stands when the scan moves to start k: after the previous window, plus `gap`. */
  function Lo(ws: seq<Window>, k: nat, gap: nat): nat
    requires k <= |ws|
  {
    if k == 0 then 0 else ws[k - 1].end + gap
  }

  /**
   * [k, end] is the window the scan evaluates for start k when the end pointer stands at `lo`:
   * the first end from `lo` on whose span reaches the threshold.
   */
  predicate Evaluated(axis: seq<real>, threshold: real, lo: nat, k: nat, end: nat)
  {
    k <= end < |axis| && lo <= end && Reaches(axis, threshold, k, end)
    && forall e :: lo <= e < end ==> !Reaches(axis, threshold, k, e)
  }

  /**
   * Every window in `ws` is the one the scan evaluates for its start. (The second quantifier is
   * triggered on the pointer position only, so that unfolding `Lo` does not re-trigger it.)
   */
  predicate ScanPrefix(axis: seq<real>, threshold: real, gap: nat, ws: seq<Window>)
  {
    && (forall k :: 0 <= k < |ws| ==> ws[k].start == k <= ws[k].end < |axis|)
    && (forall k {:trigger Lo(ws, k, gap)} :: 0 <= k < |ws| ==> Evaluated(axis, threshold, Lo(ws, k, gap), k, ws[k].end))
  }

  /** No end from `lo` on reaches from start k: the scan stops here. */
  predicate Exhausted(axis: seq<real>, threshold: real, lo: nat, k: nat)
  {
    k <= lo && forall e :: lo <= e < |axis| ==> !Reaches(axis, threshold, k, e)
  }

  /** `ws` is the complete list: for the next start, no end from the pointer onwards reaches. */
  predicate Scan(axis: seq<real>, threshold: real, gap: nat, ws: seq<Window>)
  {
    ScanPrefix(axis, threshold, gap, ws) && Exhausted(axis, threshold, Lo(ws, |ws|, gap), |ws|)
  }

  lemma ScanPrefixAppend(axis: seq<real>, threshold: real, gap: nat, ws: seq<Window>, end: nat)
    requires ScanPrefix(axis, threshold, gap, ws)
    requires Evaluated(axis, threshold, Lo(ws, |ws|, gap), |ws|, end)
    ensures ScanPrefix(axis, threshold, gap, ws + [Window(|ws|, end)])
    ensures Lo(ws + [Window(|ws|, end)], |ws| + 1, gap) == end + gap
  {
    var ws' := ws + [Window(|ws|, end)];
    forall k | 0 <= k < |ws'|
      ensures ws'[k].start == k && Evaluated(axis, threshold, Lo(ws', k, gap), k, ws'[k].end)
    {
      assert Lo(ws', k, gap) == Lo(ws, k, gap);
    }
  }

  /**
   * The state of a scan in progress at the head of its loop: `ws` lists the windows evaluated so
   * far, the start pointer is the next start and no end between the pointer's resting place and
   * its current position reaches.
   */
  predicate Scanning(axis: seq<real>, threshold: real, gap: nat, ws: seq<Window>, start: nat, end: nat)
  {
    |ws| == start && ScanPrefix(axis, threshold, gap, ws)
    && start <= Lo(ws, start, gap) <= end <= |axis|
    && forall e :: Lo(ws, start, gap) <= e < end ==> !Reaches(axis, threshold, start, e)
  }

  lemma ScanningInit(axis: seq<real>, threshold: real, gap: nat)
    ensures Scanning(axis, threshold, gap, [], 0, 0)
  {
  }

  /** The span does not reach: the scan advances the end pointer. */
  lemma ScanningSkip(axis: seq<real>, threshold: real, gap: nat, ws: seq<Window>, start: nat, end: nat)
    requires Scanning(axis, threshold, gap, ws, start, end) && end < |axis|
    requires !Reaches(axis, threshold, start, end)
    ensures Scanning(axis, threshold, gap, ws, start, end + 1)
  {
  }

  /** The span reaches: the scan evaluates [start, end] and moves on to the next start. */
  lemma ScanningTake(axis: seq<real>, threshold: real, gap: nat, ws: seq<Window>, start: nat, end: nat)
    requires Scanning(axis, threshold, gap, ws, start, end) && end < |axis|
    requires Reaches(axis, threshold, start, end) && start + 1 <= end + gap && gap <= 1
    ensures Evaluated(axis, threshold, Lo(ws, |ws|, gap), |ws|, end)
    ensures Scanning(axis, threshold, gap, ws + [Window(start, end)], start + 1, end + gap)
  {
    assert Evaluated(axis, threshold, Lo(ws, |ws|, gap), |ws|, end);
    ScanPrefixAppend(axis, threshold, gap, ws, end);
    assert Window(start, end) == Window(|ws|, end);
  }

  /** The end pointer has run off the axis: the scan is complete. */
  lemma ScanningDone(axis: seq<real>, threshold: real, gap: nat, ws: seq<Window>, start: nat)
    requires Scanning(axis, threshold, gap, ws, start, |axis|)
    ensures Scan(axis, threshold, gap, ws)
  {
  }

  /** The scan is determined by its inputs: two complete scans of one axis are the same list. */
  lemma ScanUnique(axis: seq<real>, threshold: real, gap: nat, ws1: seq<Window>, ws2: seq<Window>)
    requires Scan(axis, threshold, gap, ws1) && Scan(axis, threshold, gap, ws2)
    ensures ws1 == ws2
  {
    var n := if |ws1| <= |ws2| then |ws1| else |ws2|;
    SamePrefix(axis, threshold, gap, ws1, ws2, n);
    assert Lo(ws1, n, gap) == Lo(ws2, n, gap);
    ExhaustedNotEvaluated(axis, threshold, Lo(ws1, |ws1|, gap), |ws1|);
    ExhaustedNotEvaluated(axis, threshold, Lo(ws2, |ws2|, gap), |ws2|);
    ScanPrefixAt(axis, threshold, gap, ws1);
    ScanPrefixAt(axis, threshold, gap, ws2);
  }

  /** A scan in progress is a prefix of the complete scan: the complete scan evaluates every window it has. */
  lemma ScanExtendsPrefix(axis: seq<real>, threshold: real, gap: nat, prefix: seq<Window>, ws: seq<Window>)
    requires ScanPrefix(axis, threshold, gap, prefix) && Scan(axis, threshold, gap, ws)
    ensures |prefix| <= |ws| && forall k :: 0 <= k < |prefix| ==> prefix[k] == ws[k]
  {
    var n := if |prefix| <= |ws| then |prefix| else |ws|;
    SamePrefix(axis, threshold, gap, prefix, ws, n);
    assert Lo(prefix, n, gap) == Lo(ws, n, gap);
    ExhaustedNotEvaluated(axis, threshold, Lo(ws, |ws|, gap), |ws|);
    ScanPrefixAt(axis, threshold, gap, prefix);
    SamePrefix(axis, threshold, gap, prefix, ws, |prefix|);
  }

  /** `ScanPrefix` read at the pointer position of each start. */
  lemma ScanPrefixAt(axis: seq<real>, threshold: real, gap: nat, ws: seq<Window>)
    requires ScanPrefix(axis, threshold, gap, ws)
    ensures forall k {:trigger Lo(ws, k, gap)} :: 0 <= k < |ws| ==> Evaluated(axis, threshold, Lo(ws, k, gap), k, ws[k].end)
  {
  }

  /** Once the scan is exhausted for a start, it evaluates no window for that start. */
  lemma ExhaustedNotEvaluated(axis: seq<real>, threshold: real, lo: nat, k: nat)
    requires Exhausted(axis, threshold, lo, k)
    ensures forall e :: !Evaluated(axis, threshold, lo, k, e)
  {
  }

  /** Two scans of one axis agree on the windows both have evaluated. */
  lemma {:induction false} SamePrefix(axis: seq<real>, threshold: real, gap: nat, ws1: seq<Window>, ws2: seq<Window>, n: nat)
    requires ScanPrefix(axis, threshold, gap, ws1) && ScanPrefix(axis, threshold, gap, ws2)
    requires n <= |ws1| && n <= |ws2|
    ensures forall k :: 0 <= k < n ==> ws1[k] == ws2[k]
  {
    if n > 0 {
      var k := n - 1;
      SamePrefix(axis, threshold, gap, ws1, ws2, k);
      var lo := Lo(ws1, k, gap);
      assert lo == Lo(ws2, k, gap);
      assert Evaluated(axis, threshold, lo, k, ws1[k].end);
      assert Evaluated(axis, threshold, lo, k, ws2[k].end);
      EvaluatedUnique(axis, threshold, lo, k, ws1[k].end, ws2[k].end);
    }
  }

  lemma EvaluatedUnique(axis: seq<real>, threshold: real, lo: nat, k: nat, e1: nat, e2: nat)
    requires Evaluated(axis, threshold, lo, k, e1) && Evaluated(axis, threshold, lo, k, e2)
    ensures e1 == e2
  {
  }

  // ---------------------------------------------------------------- coverage on a monotone axis

  /** The first index from `s` on whose span reaches, if any (what a fresh scan from `s` alone would find). */
  predicate FirstReach(axis: seq<real>, threshold: real, s: nat, e: nat)
  {
    s <= e < |axis| && Reaches(axis, threshold, s, e)
    && forall e' :: s <= e' < e ==> !Reaches(axis, threshold, s, e')
  }

  predicate NoneReach(axis: seq<real>, threshold: real, s: nat)
  {
    s < |axis| && forall e :: s <= e < |axis| ==> !Reaches(axis, threshold, s, e)
  }

  /**
   * On a non-decreasing axis with a positive threshold and no gap, skipping ends never loses a window:
   * the scan evaluates, for each start, exactly the shortest window that reaches the threshold, and
   * every start it does not evaluate has no reaching window at all.
   */
  lemma ScanCoverage(axis: seq<real>, threshold: real, ws: seq<Window>)
    requires Scan(axis, threshold, 0, ws) && NonDecreasing(axis) && threshold > 0.0
    ensures forall k :: 0 <= k < |ws| ==> FirstReach(axis, threshold, k, ws[k].end)
    ensures forall s :: |ws| <= s < |axis| ==> NoneReach(axis, threshold, s)
  {
    forall k | 0 <= k < |ws|
      ensures FirstReach(axis, threshold, k, ws[k].end)
    {
      EarlyEndsFail(axis, threshold, ws, k);
      assert Evaluated(axis, threshold, Lo(ws, k, 0), k, ws[k].end);
    }
    var n := |ws|;
    EarlyEndsFail(axis, threshold, ws, n);
    assert Exhausted(axis, threshold, Lo(ws, n, 0), n);
    forall s | n <= s < |axis|
      ensures NoneReach(axis, threshold, s)
    {
      forall e | s <= e < |axis|
        ensures !Reaches(axis, threshold, s, e)
      {
        assert axis[s] >= axis[n];
        assert !Reaches(axis, threshold, n, e);
      }
    }
  }

  /** No end below the scan's pointer reaches from start k. */
  lemma {:induction false} EarlyEndsFail(axis: seq<real>, threshold: real, ws: seq<Window>, k: nat)
    requires Scan(axis, threshold, 0, ws) && NonDecreasing(axis) && threshold > 0.0
    requires k <= |ws|
    ensures forall e :: k <= e < Lo(ws, k, 0) ==> e < |axis| && !Reaches(axis, threshold, k, e)
  {
    if k > 0 {
      EarlyEndsFail(axis, threshold, ws, k - 1);
      assert Evaluated(axis, threshold, Lo(ws, k - 1, 0), k - 1, ws[k - 1].end);
      forall e | k <= e < Lo(ws, k, 0)
        ensures e < |axis| && !Reaches(axis, threshold, k, e)
      {
        assert axis[k] >= axis[k - 1];
        assert !Reaches(axis, threshold, k - 1, e);
      }
    }
  }

  /**
   * On a non-decreasing axis the scan evaluates nothing exactly when the whole axis spans less than
   * the threshold.
   */
  lemma ScanEmpty(axis: seq<real>, threshold: real, gap: nat, ws: seq<Window>)
    requires Scan(axis, threshold, gap, ws) && NonDecreasing(axis) && axis != []
    ensures ws == [] <==> axis[|axis| - 1] - axis[0] < threshold
  {
    if ws == [] {
      assert !Reaches(axis, threshold, 0, |axis| - 1);
    } else {
      assert Lo(ws, 0, gap) == 0;
      assert Reaches(axis, threshold, 0, ws[0].end);
    }
  }

  /** With the gap of one, the number of samples in evaluated windows never shrinks. */
  lemma {:induction false} ScanWidthGrows(axis: seq<real>, threshold: real, ws: seq<Window>, k: nat)
    requires ScanPrefix(axis, threshold, 1, ws) && 0 < k < |ws|
    ensures ws[k].end - ws[k].start >= ws[k - 1].end - ws[k - 1].start
  {
    assert Evaluated(axis, threshold, Lo(ws, k, 1), k, ws[k].end);
  }
}
