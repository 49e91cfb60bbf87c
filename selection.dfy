/**
 * Keeping the best candidate while walking a list, as the scanners and the cross-activity folds
 * do: a candidate replaces the current best only when it is strictly better, so the first of
 * several equal candidates wins.
 */
module Selection {
  import opened Wrappers

  /**
   * The position `best := x` ends at when the walk replaces the best on `x > best`, starting from
   * `floor` (None stands for no lower bound: the first candidate is always taken).
   */
  function ArgMaxAbove(s: seq<real>, floor: Option<real>): (r: Option<nat>)
    ensures r.Some? ==> r.value < |s|
  {
    if s == [] then None
    else
      var n := |s| - 1;
      var r := ArgMaxAbove(s[..n], floor);
      var bar := if r.Some? then Some(s[r.value]) else floor;
      if bar.None? || s[n] > bar.value then Some(n) else r
  }

  /**
   * The walk finds nothing exactly when no candidate beats the floor (or, without a floor, when
   * there is no candidate); otherwise its position holds a largest candidate, above the floor,
   * and every earlier candidate is strictly smaller.
   */
  lemma {:induction false} ArgMaxAboveSpec(s: seq<real>, floor: Option<real>)
    ensures var r := ArgMaxAbove(s, floor);
      && (r.None? <==> (if floor.Some? then forall i :: 0 <= i < |s| ==> s[i] <= floor.value else s == []))
      && (r.Some? ==> r.value < |s| && (floor.Some? ==> s[r.value] > floor.value))
      && (r.Some? ==> forall i :: 0 <= i < |s| ==> s[i] <= s[r.value])
      && (r.Some? ==> forall i :: 0 <= i < r.value ==> s[i] < s[r.value])
  {
    if s != [] {
      var n := |s| - 1;
      ArgMaxAboveSpec(s[..n], floor);
      assert forall i :: 0 <= i < n ==> s[..n][i] == s[i];
    }
  }

  /**
   * The position the walk ends at when it replaces the best on `x < best && x > floor`, starting
   * with no best (an upper bound larger than every candidate).
   */
  function ArgMinAbove(s: seq<real>, floor: real): (r: Option<nat>)
    ensures r.Some? ==> r.value < |s|
  {
    if s == [] then None
    else
      var n := |s| - 1;
      var r := ArgMinAbove(s[..n], floor);
      if s[n] > floor && (r.None? || s[n] < s[r.value]) then Some(n) else r
  }

  /**
   * The walk finds nothing exactly when no candidate is above the floor; otherwise its position
   * holds a smallest candidate above the floor, and every earlier candidate above the floor is
   * strictly larger.
   */
  lemma {:induction false} ArgMinAboveSpec(s: seq<real>, floor: real)
    ensures var r := ArgMinAbove(s, floor);
      && (r.None? <==> forall i :: 0 <= i < |s| ==> s[i] <= floor)
      && (r.Some? ==> r.value < |s| && s[r.value] > floor)
      && (r.Some? ==> forall i :: 0 <= i < |s| && s[i] > floor ==> s[r.value] <= s[i])
      && (r.Some? ==> forall i :: 0 <= i < r.value && s[i] > floor ==> s[r.value] < s[i])
  {
    if s != [] {
      var n := |s| - 1;
      ArgMinAboveSpec(s[..n], floor);
      assert forall i :: 0 <= i < n ==> s[..n][i] == s[i];
    }
  }

  /** Appending a candidate takes one more step of the walk. */
  lemma ArgMaxAboveSnoc(s: seq<real>, x: real, floor: Option<real>)
    ensures ArgMaxAbove(s + [x], floor) ==
      var r := ArgMaxAbove(s, floor);
      var bar := if r.Some? then Some(s[r.value]) else floor;
      if bar.None? || x > bar.value then Some(|s|) else r
  {
    assert (s + [x])[..|s|] == s;
  }

  lemma ArgMinAboveSnoc(s: seq<real>, x: real, floor: real)
    ensures ArgMinAbove(s + [x], floor) ==
      var r := ArgMinAbove(s, floor);
      if x > floor && (r.None? || x < s[r.value]) then Some(|s|) else r
  {
    assert (s + [x])[..|s|] == s;
  }

  /**
   * The fold over per-activity results: `if r != nil && (best == nil || key(r) > key(best)) { best = r }`.
   * The position of the result it ends with: the first of the present results with the largest key.
   */
  function FirstBestIndex<T>(rs: seq<Option<T>>, key: T -> real): (r: Option<nat>)
    ensures r.Some? ==> r.value < |rs| && rs[r.value].Some?
  {
    if rs == [] then None
    else
      var n := |rs| - 1;
      var r := FirstBestIndex(rs[..n], key);
      assert r.Some? ==> rs[..n][r.value] == rs[r.value];
      if rs[n].Some? && (r.None? || key(rs[n].value) > key(rs[r.value].value)) then Some(n) else r
  }

  /**
   * The fold ends with nothing exactly when no result is present; otherwise with a present result
   * whose key is the largest, every earlier present result having a strictly smaller key.
   */
  lemma {:induction false} FirstBestIndexSpec<T>(rs: seq<Option<T>>, key: T -> real)
    ensures var r := FirstBestIndex(rs, key);
      && (r.None? <==> forall i :: 0 <= i < |rs| ==> rs[i].None?)
      && (r.Some? ==> forall i :: 0 <= i < |rs| && rs[i].Some? ==> key(rs[i].value) <= key(rs[r.value].value))
      && (r.Some? ==> forall i :: 0 <= i < r.value && rs[i].Some? ==> key(rs[i].value) < key(rs[r.value].value))
  {
    if rs != [] {
      var n := |rs| - 1;
      FirstBestIndexSpec(rs[..n], key);
      assert forall i :: 0 <= i < n ==> rs[..n][i] == rs[i];
    }
  }

  /** The result the fold ends with. */
  function FirstBest<T>(rs: seq<Option<T>>, key: T -> real): (best: Option<T>)
  {
    match FirstBestIndex(rs, key)
    case None => None
    case Some(k) => rs[k]
  }

  lemma FirstBestSnoc<T>(rs: seq<Option<T>>, x: Option<T>, key: T -> real)
    ensures FirstBest(rs + [x], key) ==
      var b := FirstBest(rs, key);
      if x.Some? && (b.None? || key(x.value) > key(b.value)) then x else b
  {
    assert (rs + [x])[..|rs|] == rs;
  }
}
