/**
 * `handlers.go`: reading the `activityType` and `year` query parameters. The query string itself is
 * not modelled; each function receives the parameter's raw text, "" standing for a missing parameter.
 */
module Handlers {
  import opened Wrappers
  import opened Text
  import opened Sorting
  import opened Strava

  // ---------------------------------------------------------------- getActivityTypeParam

  /** `types[i] < types[j]` on the `iota` values of `business.ActivityType`. */
  predicate OrdinalLe(a: ActivityType, b: ActivityType)
  {
    Ordinal(a) <= Ordinal(b)
  }

  lemma OrdinalLeTotalOrder()
    ensures TotalOrder(OrdinalLe)
  {
    forall a, b | OrdinalLe(a, b) && OrdinalLe(b, a)
      ensures a == b
    {
      assert AllTypes[Ordinal(a)] == a && AllTypes[Ordinal(b)] == b;
    }
  }

  /** Some part of `parts` is the name of `t`. */
  predicate Named(parts: seq<string>, t: ActivityType)
  {
    exists k :: 0 <= k < |parts| && LookupType(parts[k]) == Some(t)
  }

  /** Some part of `parts` names no type (the empty part among them). */
  predicate HasUnknown(parts: seq<string>)
  {
    exists k :: 0 <= k < |parts| && LookupType(parts[k]).None?
  }

  /** The parameter's parts: `strings.Split(activityTypeStr, "_")`. */
  function TypeParts(raw: string): seq<string>
  {
    Split(raw, '_')
  }

  /** Each type once, in ascending `iota` order. */
  predicate Ascending(types: seq<ActivityType>)
  {
    forall i, j :: 0 <= i < j < |types| ==> Ordinal(types[i]) < Ordinal(types[j])
  }

  /** `for t := range activityTypes { types = append(types, t) }`: the set's elements, each once. */
  method ListTypes(chosen: set<ActivityType>) returns (types: seq<ActivityType>)
    ensures Distinct(types) && forall t :: t in types <==> t in chosen
  {
    types := [];
    var rest := chosen;
    while rest != {}
      invariant rest <= chosen
      invariant Distinct(types)
      invariant forall t :: t in types <==> t in chosen && t !in rest
      decreases |rest|
    {
      var t :| t in rest;
      types := types + [t];
      rest := rest - {t};
    }
  }

  /** Sorting a listing without repeats by `iota` value leaves each type once, strictly ascending. */
  lemma SortedTypesAscending(listed: seq<ActivityType>, types: seq<ActivityType>)
    requires Distinct(listed) && multiset(types) == multiset(listed) && SortedBy(types, OrdinalLe)
    ensures Ascending(types) && forall t :: t in types <==> t in listed
  {
    DistinctPermutation(listed, types);
    forall t
      ensures t in types <==> t in listed
    {
      assert t in types <==> t in multiset(types);
    }
    forall i, j | 0 <= i < j < |types|
      ensures Ordinal(types[i]) < Ordinal(types[j])
    {
      assert OrdinalLe(types[i], types[j]);
      assert types[i] != types[j];
      assert AllTypes[Ordinal(types[i])] == types[i] && AllTypes[Ordinal(types[j])] == types[j];
    }
  }

  /** The loop over the parts: stop at the first empty or unknown one, otherwise collect the set of types. */
  method CollectTypes(parts: seq<string>) returns (r: Result<set<ActivityType>>)
    ensures r.Err? <==> HasUnknown(parts)
    ensures r.Ok? ==> forall t :: t in r.value <==> Named(parts, t)
  {
    var chosen: set<ActivityType> := {};
    for k := 0 to |parts|
      invariant forall q :: 0 <= q < k ==> LookupType(parts[q]).Some?
      invariant forall t :: t in chosen <==> exists q :: 0 <= q < k && LookupType(parts[q]) == Some(t)
    {
      if parts[k] == "" {
        return Err("activity type must not be empty");
      }
      var t := LookupType(parts[k]);
      if t.None? {
        return Err("unknown activity type: " + parts[k]);
      }
      chosen := chosen + {t.value};
    }
    return Ok(chosen);
  }

  /**
   * `getActivityTypeParam`: an empty parameter, an empty part or an unknown name is an error; otherwise
   * the named types, each once, in ascending `iota` order.
   */
  method GetActivityTypeParam(raw: string) returns (r: Result<seq<ActivityType>>)
    ensures raw == "" ==> r.Err?
    ensures raw != "" ==> (r.Err? <==> HasUnknown(TypeParts(raw)))
    ensures r.Ok? ==> Ascending(r.value) && forall t :: t in r.value <==> Named(TypeParts(raw), t)
  {
    if raw == "" {
      return Err("activity type must not be empty");
    }
    var collected := CollectTypes(TypeParts(raw));
    if collected.Err? {
      return Err(collected.message);
    }
    var listed := ListTypes(collected.value);
    OrdinalLeTotalOrder();
    SortBySorted(listed, OrdinalLe);
    var types := SortBy(listed, OrdinalLe);
    SortedTypesAscending(listed, types);
    return Ok(types);
  }

  /** A type's own name is one part naming exactly that type. */
  lemma SingleTypeParam(t: ActivityType)
    ensures TypeParts(TypeName(t)) == [TypeName(t)]
    ensures !HasUnknown(TypeParts(TypeName(t)))
    ensures forall u :: Named(TypeParts(TypeName(t)), u) <==> u == t
  {
    var name := TypeName(t);
    assert Before(name, '_') == name;
    assert TypeParts(name) == [name];
    LookupTypeName(t);
    forall u
      ensures Named([name], u) <==> u == t
    {
      if Named([name], u) {
        assert LookupType([name][0]) == Some(u);
      }
      if u == t {
        assert LookupType([name][0]) == Some(t);
      }
    }
  }

  /** The answer is fixed by the set of named types: two ascending lists with the same types are equal. */
  lemma AscendingUnique(a: seq<ActivityType>, b: seq<ActivityType>)
    requires Ascending(a) && Ascending(b) && forall t :: t in a <==> t in b
    ensures a == b
  {
    assert Distinct(a) && Distinct(b);
    DistinctSameElements(a, b);
    OrdinalLeTotalOrder();
    assert SortedBy(a, OrdinalLe) && SortedBy(b, OrdinalLe);
    SortedUnique(a, b, OrdinalLe);
  }

  /** The names of the types, as a client writes them into the parameter. */
  function Names(types: seq<ActivityType>): (names: seq<string>)
    ensures |names| == |types|
  {
    seq(|types|, i requires 0 <= i < |types| => TypeName(types[i]))
  }

  /**
   * Writing the names of any non-empty list of types joined with "_" reads back as exactly those types;
   * with `AscendingUnique`, a parameter built from an ascending list gives that list back.
   */
  lemma TypeParamRoundTrip(types: seq<ActivityType>)
    requires |types| >= 1
    ensures Join(Names(types), '_') != ""
    ensures TypeParts(Join(Names(types), '_')) == Names(types)
    ensures !HasUnknown(TypeParts(Join(Names(types), '_')))
    ensures forall t :: Named(TypeParts(Join(Names(types), '_')), t) <==> t in types
  {
    var names := Names(types);
    forall k | 0 <= k < |names|
      ensures LookupType(names[k]) == Some(types[k])
    {
      LookupTypeName(types[k]);
    }
    SplitJoin(names, '_');
    var raw := Join(names, '_');
    assert names[0] != "" && Split(raw, '_')[0] == names[0];
    forall t | t in types
      ensures Named(names, t)
    {
      var k :| 0 <= k < |types| && types[k] == t;
      assert LookupType(names[k]) == Some(t);
    }
  }

  // ---------------------------------------------------------------- getYearParam

  /**
   * `getYearParam`: no year is no filter; a year that `strconv.Atoi` rejects is an error whose text
   * quotes the parameter, as `%q` does.
   */
  function GetYearParam(raw: string): (r: Result<Option<int>>)
    ensures raw == "" ==> r == Ok(None)
    ensures raw != "" ==> (r.Err? <==> Atoi(raw).Err?)
    ensures r.Ok? && r.value.Some? ==> Atoi(raw) == Ok(r.value.value)
    ensures r.Err? ==> r.message == "invalid year: \"" + raw + "\""
  {
    if raw == "" then Ok(None)
    else
      match Atoi(raw)
      case Err(_) => Err("invalid year: \"" + raw + "\"")
      case Ok(y) => Ok(Some(y))
  }

  /** Every 64-bit year written with `strconv.Itoa` reads back as itself. */
  lemma YearParamRoundTrip(y: int)
    requires MinInt64 <= y <= MaxInt64
    ensures GetYearParam(IntToString(y)) == Ok(Some(y))
  {
    AtoiIntToString(y);
  }
}
