/**
 * `chartsService.go`: activities grouped by month, one figure per period (a total or an average of an
 * activity field), and `sortResultByKey`, which turns the list of one-entry maps built by walking the
 * period map into a list ordered by period key. A one-entry `map[string]float64{period: value}` is
 * modelled as the pair `(period, value)` once it leaves `sortResultByKey`; on the way in the maps are
 * kept, because the charts that preallocate their result feed it empty maps as well.
 */
module Charts {
  import opened Text
  import opened Sorting
  import opened Strava
  import opened Grouping
  import opened Service
  import opened Dashboard

  // ---------------------------------------------------------------- grouping by month

  /** The month keys "01", "02", ... up to month `n`, as `fmt.Sprintf("%02d", month)` writes them. */
  function MonthKeys(n: nat): set<string>
  {
    set m | 1 <= m <= n :: ZeroPad2(m)
  }

  lemma MonthKeysStep(n: nat)
    ensures MonthKeys(n + 1) == MonthKeys(n) + {ZeroPad2(n + 1)}
  {
    assert ZeroPad2(n + 1) in MonthKeys(n + 1);
  }

  /** Every month key is two digits naming a month. */
  lemma MonthKeysAreMonths(key: string)
    requires key in MonthKeys(12)
    ensures |key| == 2 && AllDigits(key) && 1 <= DigitsValue(key) <= 12
  {
    var m :| 1 <= m <= 12 && ZeroPad2(m) == key;
  }

  /** The month keys are all different: there are as many as months. */
  lemma {:induction false} MonthKeysCount(n: nat)
    requires n <= 12
    ensures |MonthKeys(n)| == n
  {
    if n > 0 {
      MonthKeysCount(n - 1);
      MonthKeysStep(n - 1);
      forall m | 1 <= m <= n - 1
        ensures ZeroPad2(m) != ZeroPad2(n)
      {
        if ZeroPad2(m) == ZeroPad2(n) {
          ZeroPad2Injective(m, n);
        }
      }
    }
  }

  /**
   * `groupActivitiesByMonth`: the activities under `StartDateLocal[5:7]`, then an empty list for each
   * of the twelve months that has none.
   */
  method GroupActivitiesByMonth(activities: seq<Activity>) returns (byMonth: map<string, seq<Activity>>)
    requires LongEnough(activities, 7)
    ensures byMonth.Keys == KeysOf(activities, 5, 7) + MonthKeys(12)
    ensures forall k :: k in byMonth ==> byMonth[k] == Bucket(activities, 5, 7, k)
  {
    byMonth := GroupBy(activities, 5, 7);
    for month := 1 to 13
      invariant Filled(activities, 5, 7, MonthKeys(month - 1), byMonth)
    {
      var monthStr := ZeroPad2(month);
      FilledStep(activities, 5, 7, MonthKeys(month - 1), monthStr, byMonth);
      MonthKeysStep(month - 1);
      if monthStr !in byMonth {
        byMonth := byMonth[monthStr := []];
      }
    }
  }

  // ---------------------------------------------------------------- sortResultByKey

  /** All keys of all the maps, counted with repeats. */
  function KeyBag(result: seq<map<string, real>>): multiset<string>
  {
    if result == [] then multiset{}
    else KeyBag(result[..|result| - 1]) + multiset(result[|result| - 1].Keys)
  }

  lemma KeyBagStep(result: seq<map<string, real>>, i: nat)
    requires i < |result|
    ensures KeyBag(result[..i + 1]) == KeyBag(result[..i]) + multiset(result[i].Keys)
  {
    assert result[..i + 1][..i] == result[..i];
  }

  /** The entries for `key`: one `(key, m[key])` for each map `m` that has the key, in list order. */
  function Matches(key: string, result: seq<map<string, real>>): seq<(string, real)>
  {
    if result == [] then []
    else
      var m := result[|result| - 1];
      Matches(key, result[..|result| - 1]) + (if key in m then [(key, m[key])] else [])
  }

  lemma MatchesStep(key: string, result: seq<map<string, real>>, j: nat)
    requires j < |result|
    ensures Matches(key, result[..j + 1])
      == Matches(key, result[..j]) + (if key in result[j] then [(key, result[j][key])] else [])
  {
    assert result[..j + 1][..j] == result[..j];
  }

  /** The entries for each key of `keys` in turn. */
  function Entries(keys: seq<string>, result: seq<map<string, real>>): seq<(string, real)>
  {
    if keys == [] then []
    else Entries(keys[..|keys| - 1], result) + Matches(keys[|keys| - 1], result)
  }

  lemma EntriesStep(keys: seq<string>, i: nat, result: seq<map<string, real>>)
    requires i < |keys|
    ensures Entries(keys[..i + 1], result) == Entries(keys[..i], result) + Matches(keys[i], result)
  {
    assert keys[..i + 1][..i] == keys[..i];
  }

  /** The elements of a multiset in some order. */
  ghost function BagListing(b: multiset<string>): (s: seq<string>)
    ensures multiset(s) == b
    decreases |b|
  {
    if b == multiset{} then [] else var x :| x in b; [x] + BagListing(b - multiset{x})
  }

  /** The keys `sortResultByKey` walks: all keys of all maps, repeats kept, in ascending byte order. */
  ghost function ResultKeyOrder(result: seq<map<string, real>>): (keys: seq<string>)
    ensures multiset(keys) == KeyBag(result) && SortedBy(keys, LexLe)
  {
    SortStrings(BagListing(KeyBag(result)))
  }

  /** The inner loop: the matches of `key` appended, map by map. */
  method AppendMatches(sorted: seq<(string, real)>, key: string, result: seq<map<string, real>>) returns (r: seq<(string, real)>)
    ensures r == sorted + Matches(key, result)
  {
    r := sorted;
    for j := 0 to |result|
      invariant r == sorted + Matches(key, result[..j])
    {
      MatchesStep(key, result, j);
      if key in result[j] {
        r := r + [(key, result[j][key])];
      }
    }
    assert result[..|result|] == result;
  }

  /** The first loop of `sortResultByKey`: the keys of every map, repeats kept. */
  method CollectKeys(result: seq<map<string, real>>) returns (keys: seq<string>)
    ensures multiset(keys) == KeyBag(result)
  {
    keys := [];
    for i := 0 to |result|
      invariant multiset(keys) == KeyBag(result[..i])
    {
      var mapKeys := MapKeys(result[i]);
      ListingMultiset(mapKeys, result[i].Keys);
      KeyBagStep(result, i);
      keys := keys + mapKeys;
    }
    assert result[..|result|] == result;
  }

  /** The second loop: for each key in turn, its matches. */
  method EmitEntries(keys: seq<string>, result: seq<map<string, real>>) returns (sorted: seq<(string, real)>)
    ensures sorted == Entries(keys, result)
  {
    sorted := [];
    for i := 0 to |keys|
      invariant sorted == Entries(keys[..i], result)
    {
      sorted := AppendMatches(sorted, keys[i], result);
      EntriesStep(keys, i, result);
    }
    assert keys[..|keys|] == keys;
  }

  /**
   * `sortResultByKey`: the keys of every map collected and sorted with `sort.Strings`, then, for each
   * key in that order, a one-entry map for every input map that has it.
   */
  method SortResultByKey(result: seq<map<string, real>>) returns (sorted: seq<(string, real)>)
    ensures sorted == Entries(ResultKeyOrder(result), result)
  {
    var keys := CollectKeys(result);
    keys := SortStrings(keys);
    LexLeTotalOrder();
    SortedUnique(keys, ResultKeyOrder(result), LexLe);
    sorted := EmitEntries(keys, result);
  }

  /** An entry for `key` carries `key` and a value some input map holds under it. */
  lemma {:induction false} MatchFromInput(key: string, result: seq<map<string, real>>, i: nat)
    requires i < |Matches(key, result)|
    ensures Matches(key, result)[i].0 == key
    ensures exists j :: 0 <= j < |result| && key in result[j] && result[j][key] == Matches(key, result)[i].1
  {
    var n := |result| - 1;
    var front := Matches(key, result[..n]);
    if i < |front| {
      MatchFromInput(key, result[..n], i);
      var j :| 0 <= j < n && key in result[..n][j] && result[..n][j][key] == front[i].1;
      assert result[j] == result[..n][j];
    }
  }

  /** Every value a map holds under `key` has its entry. */
  lemma {:induction false} MatchesCoverInput(key: string, result: seq<map<string, real>>, j: nat)
    requires j < |result| && key in result[j]
    ensures (key, result[j][key]) in Matches(key, result)
  {
    var n := |result| - 1;
    if j < n {
      assert result[..n][j] == result[j];
      MatchesCoverInput(key, result[..n], j);
    }
  }

  /** An entry's key is one of the keys walked, and its value is what some input map holds under that key. */
  lemma {:induction false} EntryFromInput(keys: seq<string>, result: seq<map<string, real>>, i: nat)
    requires i < |Entries(keys, result)|
    ensures Entries(keys, result)[i].0 in keys
    ensures exists j :: 0 <= j < |result| && Entries(keys, result)[i].0 in result[j]
                        && result[j][Entries(keys, result)[i].0] == Entries(keys, result)[i].1
  {
    var n := |keys| - 1;
    var front := Entries(keys[..n], result);
    if i < |front| {
      EntryFromInput(keys[..n], result, i);
      assert Entries(keys, result)[i] == front[i];
      assert front[i].0 in keys[..n];
    } else {
      MatchFromInput(keys[n], result, i - |front|);
      assert Entries(keys, result)[i] == Matches(keys[n], result)[i - |front|];
    }
  }

  /** Every entry of every input map appears in the output. */
  lemma {:induction false} EntriesCoverInput(keys: seq<string>, result: seq<map<string, real>>, k: string, j: nat)
    requires j < |result| && k in result[j] && k in keys
    ensures (k, result[j][k]) in Entries(keys, result)
  {
    var n := |keys| - 1;
    if keys[n] == k {
      MatchesCoverInput(k, result, j);
    } else {
      assert k in keys[..n];
      EntriesCoverInput(keys[..n], result, k, j);
    }
  }

  /** A key of any input map is one of the keys walked. */
  lemma {:induction false} KeyBagHas(result: seq<map<string, real>>, k: string, j: nat)
    requires j < |result| && k in result[j]
    ensures k in KeyBag(result)
  {
    var n := |result| - 1;
    if j < n {
      assert result[..n][j] == result[j];
      KeyBagHas(result[..n], k, j);
    }
  }

  /** The output of `sortResultByKey` holds every entry of every input map, and nothing else. */
  lemma SortedResultHoldsInput(result: seq<map<string, real>>)
    ensures var sorted := Entries(ResultKeyOrder(result), result);
      && (forall j, k :: 0 <= j < |result| && k in result[j] ==> (k, result[j][k]) in sorted)
      && (forall i :: 0 <= i < |sorted| ==>
            exists j :: 0 <= j < |result| && sorted[i].0 in result[j] && result[j][sorted[i].0] == sorted[i].1)
  {
    var keys := ResultKeyOrder(result);
    forall i | 0 <= i < |Entries(keys, result)|
      ensures exists j :: 0 <= j < |result| && Entries(keys, result)[i].0 in result[j]
                          && result[j][Entries(keys, result)[i].0] == Entries(keys, result)[i].1
    {
      EntryFromInput(keys, result, i);
    }
    forall j, k | 0 <= j < |result| && k in result[j]
      ensures (k, result[j][k]) in Entries(keys, result)
    {
      KeyBagHas(result, k, j);
      assert k in multiset(keys);
      EntriesCoverInput(keys, result, k, j);
    }
  }

  /** The output is in ascending key order. */
  lemma {:induction false} EntriesAscending(keys: seq<string>, result: seq<map<string, real>>, i: nat, j: nat)
    requires SortedBy(keys, LexLe) && i < j < |Entries(keys, result)|
    ensures LexLe(Entries(keys, result)[i].0, Entries(keys, result)[j].0)
  {
    var n := |keys| - 1;
    var e := Entries(keys, result);
    var front := Entries(keys[..n], result);
    if j < |front| {
      assert SortedBy(keys[..n], LexLe) by {
        assert forall i :: 0 <= i < n ==> keys[..n][i] == keys[i];
      }
      EntriesAscending(keys[..n], result, i, j);
      assert e[i] == front[i] && e[j] == front[j];
    } else if i < |front| {
      EntryFromInput(keys[..n], result, i);
      MatchFromInput(keys[n], result, j - |front|);
      assert e[i] == front[i];
      assert e[j] == Matches(keys[n], result)[j - |front|];
      var p :| 0 <= p < n && keys[..n][p] == e[i].0;
      assert keys[p] == e[i].0;
    } else {
      MatchFromInput(keys[n], result, i - |front|);
      MatchFromInput(keys[n], result, j - |front|);
      assert e[i] == Matches(keys[n], result)[i - |front|];
      assert e[j] == Matches(keys[n], result)[j - |front|];
    }
  }

  /** The output of `sortResultByKey` is in ascending key order. */
  lemma SortedResultAscending(result: seq<map<string, real>>)
    ensures var sorted := Entries(ResultKeyOrder(result), result);
      forall i, j :: 0 <= i < j < |sorted| ==> LexLe(sorted[i].0, sorted[j].0)
  {
    var keys := ResultKeyOrder(result);
    forall i, j | 0 <= i < j < |Entries(keys, result)|
      ensures LexLe(Entries(keys, result)[i].0, Entries(keys, result)[j].0)
    {
      EntriesAscending(keys, result, i, j);
    }
  }

  /** Empty maps in front add no key. */
  lemma {:induction false} EmptyMapsAddNoKey(empties: seq<map<string, real>>, result: seq<map<string, real>>)
    requires forall i :: 0 <= i < |empties| ==> empties[i] == map[]
    ensures KeyBag(empties + result) == KeyBag(result)
  {
    if result == [] {
      assert empties + result == empties;
      EmptyMapsOnly(empties, "");
    } else {
      var n := |result| - 1;
      assert (empties + result)[..|empties + result| - 1] == empties + result[..n];
      assert (empties + result)[|empties + result| - 1] == result[n];
      EmptyMapsAddNoKey(empties, result[..n]);
    }
  }

  /** Empty maps in front add no entry for any key. */
  lemma {:induction false} EmptyMapsAddNoMatch(empties: seq<map<string, real>>, result: seq<map<string, real>>, key: string)
    requires forall i :: 0 <= i < |empties| ==> empties[i] == map[]
    ensures Matches(key, empties + result) == Matches(key, result)
  {
    if result == [] {
      assert empties + result == empties;
      EmptyMapsOnly(empties, key);
    } else {
      var n := |result| - 1;
      assert (empties + result)[..|empties + result| - 1] == empties + result[..n];
      assert (empties + result)[|empties + result| - 1] == result[n];
      EmptyMapsAddNoMatch(empties, result[..n], key);
    }
  }

  lemma {:induction false} EmptyMapsOnly(empties: seq<map<string, real>>, key: string)
    requires forall i :: 0 <= i < |empties| ==> empties[i] == map[]
    ensures KeyBag(empties) == multiset{} && Matches(key, empties) == []
  {
    if empties != [] {
      var n := |empties| - 1;
      assert empties[n] == map[];
      EmptyMapsOnly(empties[..n], key);
    }
  }

  lemma {:induction false} EntriesOfSameMatches(keys: seq<string>, a: seq<map<string, real>>, b: seq<map<string, real>>)
    requires forall key :: Matches(key, a) == Matches(key, b)
    ensures Entries(keys, a) == Entries(keys, b)
  {
    if keys != [] {
      EntriesOfSameMatches(keys[..|keys| - 1], a, b);
    }
  }

  /** The empty maps the elevation and speed charts preallocate leave the sorted output as it was. */
  lemma PreallocatedMapsIgnored(empties: seq<map<string, real>>, result: seq<map<string, real>>)
    requires forall i :: 0 <= i < |empties| ==> empties[i] == map[]
    ensures Entries(ResultKeyOrder(empties + result), empties + result) == Entries(ResultKeyOrder(result), result)
  {
    forall key
      ensures Matches(key, empties + result) == Matches(key, result)
    {
      EmptyMapsAddNoMatch(empties, result, key);
    }
    EmptyMapsAddNoKey(empties, result);
    EntriesOfSameMatches(ResultKeyOrder(result), empties + result, result);
  }

  // ---------------------------------------------------------------- one figure per period

  /** What a chart shows for a period: the sum of a field, or its mean (0 for no activity). */
  datatype Aggregate = Total | Mean

  function Figure(activities: seq<Activity>, f: Field, agg: Aggregate): real
  {
    match agg
    case Total => Sum(activities, f)
    case Mean => if activities == [] then 0.0 else Sum(activities, f) / |activities| as real
  }

  /** The figure of one period: the loop over its activities, then the division for a mean. */
  method PeriodFigure(activities: seq<Activity>, f: Field, agg: Aggregate) returns (v: real)
    ensures v == Figure(activities, f, agg)
  {
    if agg == Mean && |activities| == 0 {
      return 0.0;
    }
    v := AddUp(activities, f, 0.0);
    if agg == Mean {
      v := v / |activities| as real;
    }
  }

  /** `business.Period`: the chart's resolution, and the number of empty maps some charts start with. */
  datatype Period = Months | Weeks | Days

  function PreallocatedSize(period: Period): nat
  {
    match period
    case Months => 12
    case Weeks => 52
    case Days => 365
  }

  lemma MultisetAddOne(a: set<string>, p: string)
    requires p !in a
    ensures multiset(a + {p}) == multiset(a) + multiset{p}
  {
    forall x
      ensures multiset(a + {p})[x] == (multiset(a) + multiset{p})[x]
    {
    }
  }

  /** A map that holds periods of `byPeriod` under their figures. */
  predicate FiguredMap(byPeriod: map<string, seq<Activity>>, f: Field, agg: Aggregate, m: map<string, real>)
  {
    forall k :: k in m ==> k in byPeriod && m[k] == Figure(byPeriod[k], f, agg)
  }

  predicate FiguredMaps(byPeriod: map<string, seq<Activity>>, f: Field, agg: Aggregate, result: seq<map<string, real>>)
  {
    forall i :: 0 <= i < |result| ==> FiguredMap(byPeriod, f, agg, result[i])
  }

  /** The walk's maps hold each period of `byPeriod` once, under its figure, and nothing else. */
  predicate FiguresOf(byPeriod: map<string, seq<Activity>>, f: Field, agg: Aggregate, result: seq<map<string, real>>)
  {
    KeyBag(result) == multiset(byPeriod.Keys) && FiguredMaps(byPeriod, f, agg, result)
  }

  /** What the walk keeps: the figures of the periods visited so far, `done`, after the empty maps. */
  predicate Walk(byPeriod: map<string, seq<Activity>>, f: Field, agg: Aggregate, preallocated: nat, done: set<string>,
                 result: seq<map<string, real>>)
  {
    && done <= byPeriod.Keys
    && |result| == preallocated + |done|
    && (forall i :: 0 <= i < preallocated ==> result[i] == map[])
    && KeyBag(result) == multiset(done)
    && FiguredMaps(byPeriod, f, agg, result)
  }

  lemma WalkStep(byPeriod: map<string, seq<Activity>>, f: Field, agg: Aggregate, preallocated: nat, done: set<string>,
                 result: seq<map<string, real>>, period: string)
    requires Walk(byPeriod, f, agg, preallocated, done, result)
    requires period in byPeriod && period !in done
    ensures Walk(byPeriod, f, agg, preallocated, done + {period},
                 result + [map[period := Figure(byPeriod[period], f, agg)]])
  {
    var m := map[period := Figure(byPeriod[period], f, agg)];
    var next := result + [m];
    assert next[..|next| - 1] == result;
    assert m.Keys == {period};
    assert KeyBag(next) == KeyBag(result) + multiset(m.Keys);
    MultisetAddOne(done, period);
    forall i | 0 <= i < |next|
      ensures FiguredMap(byPeriod, f, agg, next[i])
    {
      if i < |result| {
        assert next[i] == result[i];
      }
    }
    forall i | 0 <= i < preallocated
      ensures next[i] == map[]
    {
      assert next[i] == result[i];
    }
  }

  /** One step of the walk: `result = append(result, map[string]float64{period: figure})`. */
  method AddFigure(byPeriod: map<string, seq<Activity>>, f: Field, agg: Aggregate, preallocated: nat, ghost done: set<string>,
                   result: seq<map<string, real>>, period: string) returns (next: seq<map<string, real>>)
    requires Walk(byPeriod, f, agg, preallocated, done, result)
    requires period in byPeriod && period !in done
    ensures Walk(byPeriod, f, agg, preallocated, done + {period}, next)
  {
    var v := PeriodFigure(byPeriod[period], f, agg);
    WalkStep(byPeriod, f, agg, preallocated, done, result, period);
    next := result + [map[period := v]];
  }

  /**
   * The walk over the period map: `preallocated` empty maps (`make([]map[string]float64, size)`),
   * then one one-entry map per period, in the order the walk visits them.
   */
  method PeriodFigures(byPeriod: map<string, seq<Activity>>, f: Field, agg: Aggregate, preallocated: nat)
    returns (result: seq<map<string, real>>)
    ensures |result| == preallocated + |byPeriod.Keys|
    ensures forall i :: 0 <= i < preallocated ==> result[i] == map[]
    ensures FiguresOf(byPeriod, f, agg, result)
  {
    result := Preallocate(byPeriod, f, agg, preallocated);
    result := WalkPeriods(byPeriod, f, agg, preallocated, result);
  }

  /** `for period, activities := range activitiesByPeriod`: every period visited once, in some order. */
  method WalkPeriods(byPeriod: map<string, seq<Activity>>, f: Field, agg: Aggregate, preallocated: nat,
                     start: seq<map<string, real>>) returns (result: seq<map<string, real>>)
    requires Walk(byPeriod, f, agg, preallocated, {}, start)
    ensures Walk(byPeriod, f, agg, preallocated, byPeriod.Keys, result)
  {
    result := start;
    var rest := byPeriod.Keys;
    ghost var done: set<string> := {};
    while rest != {}
      invariant done + rest == byPeriod.Keys && done !! rest
      invariant Walk(byPeriod, f, agg, preallocated, done, result)
      decreases |rest|
    {
      var period :| period in rest;
      result := AddFigure(byPeriod, f, agg, preallocated, done, result, period);
      done := done + {period};
      rest := rest - {period};
    }
  }

  /** `make([]map[string]float64, size)`: `size` nil maps, where the walk starts. */
  method Preallocate(byPeriod: map<string, seq<Activity>>, f: Field, agg: Aggregate, preallocated: nat)
    returns (result: seq<map<string, real>>)
    ensures Walk(byPeriod, f, agg, preallocated, {}, result)
  {
    result := seq(preallocated, _ => map[]);
    EmptyMapsOnly(result, "");
  }

  /** One chart point per key of `keys`, with that period's figure. */
  function Chart(byPeriod: map<string, seq<Activity>>, keys: seq<string>, f: Field, agg: Aggregate): (c: seq<(string, real)>)
    requires forall j :: 0 <= j < |keys| ==> keys[j] in byPeriod
    ensures |c| == |keys|
  {
    if keys == [] then []
    else
      var n := |keys| - 1;
      Chart(byPeriod, keys[..n], f, agg) + [(keys[n], Figure(byPeriod[keys[n]], f, agg))]
  }

  /** The chart a period map should give: its periods in ascending key order, each with its figure. */
  ghost function PeriodChart(byPeriod: map<string, seq<Activity>>, f: Field, agg: Aggregate): seq<(string, real)>
  {
    Chart(byPeriod, KeyOrder(byPeriod.Keys), f, agg)
  }

  /** A key held by exactly one map has one entry. */
  lemma {:induction false} MatchesOfSingle(key: string, result: seq<map<string, real>>, v: real)
    requires KeyBag(result)[key] == 1
    requires forall i :: 0 <= i < |result| && key in result[i] ==> result[i][key] == v
    ensures Matches(key, result) == [(key, v)]
  {
    var n := |result| - 1;
    assert forall i :: 0 <= i < n ==> result[..n][i] == result[i];
    if key in result[n] {
      MatchesOfAbsent(key, result[..n]);
    } else {
      MatchesOfSingle(key, result[..n], v);
    }
  }

  /** A key held by no map has no entry. */
  lemma {:induction false} MatchesOfAbsent(key: string, result: seq<map<string, real>>)
    requires KeyBag(result)[key] == 0
    ensures Matches(key, result) == []
  {
    if result != [] {
      MatchesOfAbsent(key, result[..|result| - 1]);
    }
  }

  lemma {:induction false} EntriesOfSingles(byPeriod: map<string, seq<Activity>>, keys: seq<string>, f: Field, agg: Aggregate,
                                            result: seq<map<string, real>>)
    requires forall j :: 0 <= j < |keys| ==> keys[j] in byPeriod && KeyBag(result)[keys[j]] == 1
    requires FiguredMaps(byPeriod, f, agg, result)
    ensures Entries(keys, result) == Chart(byPeriod, keys, f, agg)
  {
    if keys != [] {
      var n := |keys| - 1;
      EntriesOfSingles(byPeriod, keys[..n], f, agg, result);
      forall i | 0 <= i < |result| && keys[n] in result[i]
        ensures result[i][keys[n]] == Figure(byPeriod[keys[n]], f, agg)
      {
        assert FiguredMap(byPeriod, f, agg, result[i]);
      }
      MatchesOfSingle(keys[n], result, Figure(byPeriod[keys[n]], f, agg));
    }
  }

  /** Sorting the walk's maps gives each period once, in key order, with its figure. */
  lemma ChartOfFigures(byPeriod: map<string, seq<Activity>>, f: Field, agg: Aggregate, result: seq<map<string, real>>)
    requires FiguresOf(byPeriod, f, agg, result)
    ensures Entries(ResultKeyOrder(result), result) == PeriodChart(byPeriod, f, agg)
  {
    var keys := KeyOrder(byPeriod.Keys);
    KeyOrderDistinct(keys, byPeriod.Keys);
    ListingMultiset(keys, byPeriod.Keys);
    assert SortedBy(keys, LexLe);
    assert multiset(keys) == KeyBag(result);
    LexLeTotalOrder();
    SortedUnique(keys, ResultKeyOrder(result), LexLe);
    forall j | 0 <= j < |keys|
      ensures keys[j] in byPeriod && KeyBag(result)[keys[j]] == 1
    {
    }
    EntriesOfSingles(byPeriod, keys, f, agg, result);
  }

  /** `FetchChartsDistanceByPeriod`: the kilometres of each period, in key order. */
  method DistanceByPeriod(byPeriod: map<string, seq<Activity>>) returns (chart: seq<(string, real)>)
    ensures chart == PeriodChart(byPeriod, DistanceKm, Total)
  {
    var result := PeriodFigures(byPeriod, DistanceKm, Total, 0);
    chart := SortResultByKey(result);
    ChartOfFigures(byPeriod, DistanceKm, Total, result);
  }

  /** `FetchChartsElevationByPeriod`: the elevation gain of each period, in key order. */
  method ElevationByPeriod(byPeriod: map<string, seq<Activity>>, period: Period) returns (chart: seq<(string, real)>)
    ensures chart == PeriodChart(byPeriod, ElevationGain, Total)
  {
    var result := PeriodFigures(byPeriod, ElevationGain, Total, PreallocatedSize(period));
    chart := SortResultByKey(result);
    ChartOfFigures(byPeriod, ElevationGain, Total, result);
  }

  /** `FetchChartsAverageSpeedByPeriod`: the mean average speed of each period (0 for none), in key order. */
  method AverageSpeedByPeriod(byPeriod: map<string, seq<Activity>>, period: Period) returns (chart: seq<(string, real)>)
    ensures chart == PeriodChart(byPeriod, AverageSpeed, Mean)
  {
    var result := PeriodFigures(byPeriod, AverageSpeed, Mean, PreallocatedSize(period));
    chart := SortResultByKey(result);
    ChartOfFigures(byPeriod, AverageSpeed, Mean, result);
  }

  /** The chart lists each period once, in ascending key order, with that period's figure. */
  lemma {:induction false} ChartShape(byPeriod: map<string, seq<Activity>>, keys: seq<string>, f: Field, agg: Aggregate)
    requires forall j :: 0 <= j < |keys| ==> keys[j] in byPeriod
    ensures var c := Chart(byPeriod, keys, f, agg);
      forall i :: 0 <= i < |c| ==> c[i] == (keys[i], Figure(byPeriod[keys[i]], f, agg))
  {
    if keys != [] {
      var n := |keys| - 1;
      ChartShape(byPeriod, keys[..n], f, agg);
    }
  }

  /** A period chart has one point per period, in ascending key order, carrying the period's figure. */
  lemma PeriodChartPoints(byPeriod: map<string, seq<Activity>>, f: Field, agg: Aggregate)
    ensures var c := PeriodChart(byPeriod, f, agg);
      && |c| == |byPeriod|
      && (forall i, j :: 0 <= i < j < |c| ==> LexLess(c[i].0, c[j].0))
      && (forall k :: k in byPeriod ==> (k, Figure(byPeriod[k], f, agg)) in c)
      && (forall i :: 0 <= i < |c| ==> c[i].0 in byPeriod && c[i].1 == Figure(byPeriod[c[i].0], f, agg))
  {
    var keys := KeyOrder(byPeriod.Keys);
    ChartShape(byPeriod, keys, f, agg);
    var c := PeriodChart(byPeriod, f, agg);
    forall k | k in byPeriod
      ensures (k, Figure(byPeriod[k], f, agg)) in c
    {
      var p := PositionOf(keys, k);
      assert c[p] == (k, Figure(byPeriod[k], f, agg));
    }
  }
}
