/** The filter collection of the plant identification front end
    (gobotany/static/gobotany/filters.js): the filters a FilterManager
    holds, their selected values, the count of default filters still
    loading, the query built from the selected values with the pass of the
    special filters over its results, and the running range of a numeric
    filter's values. */
module Filters {
  import opened Wrappers

  /** A taxon returned by the results store. */
  datatype Item = Item(id: int, scientificName: string)

  /** The constructor a filter is built with: plain, multiple choice for
      TEXT characters, numeric range for LENGTH characters. */
  datatype Kind = Plain | MultipleChoice | NumericRange

  /** A filter. `selected` is `selected_value` (null or a string) and
      `callback` the `filter_callback` of a special filter. The callback is
      always called with its own filter, so it is a function of the item. */
  datatype Filter = Filter(shortName: string, friendlyName: string, order: int, pileSlug: string,
                           valueType: Option<string>, unit: Option<string>,
                           notableExceptions: Option<string>, keyCharacteristics: Option<string>,
                           kind: Kind, selected: Option<string>, callback: Option<Item -> bool>)

  /** The `filter_json` a filter is built from. */
  datatype FilterJson = FilterJson(friendlyName: string, shortName: string, order: int,
                                   notableExceptions: Option<string>, keyCharacteristics: Option<string>,
                                   valueType: Option<string>, unit: Option<string>)

  /** The pile item load_pile_info fetches. The character groups and the
      plant preview characters are kept as the store delivers them. */
  datatype PileInfo = PileInfo(characterGroups: seq<string>, plantPreviewCharacters: seq<string>,
                               defaultFilters: seq<FilterJson>)

  /** A filter built from this JSON is a plain Filter, whose load_values
      calls its onLoaded at once instead of after a fetch. */
  predicate IsPlain(json: FilterJson) {
    json.valueType != Some("LENGTH") && json.valueType != Some("TEXT")
  }

  /** The number of plain filters among the JSON. */
  function PlainCount(jsons: seq<FilterJson>): (r: nat)
    ensures r <= |jsons|
    ensures r == |jsons| <==> forall k :: 0 <= k < |jsons| ==> IsPlain(jsons[k])
    decreases |jsons|
  {
    if jsons == [] then 0
    else
      var init := jsons[..|jsons| - 1];
      assert forall k :: 0 <= k < |init| ==> init[k] == jsons[k];
      PlainCount(init) + (if IsPlain(jsons[|jsons| - 1]) then 1 else 0)
  }

  /** One more JSON adds one to the count when it is plain. */
  lemma PlainCountNext(jsons: seq<FilterJson>, y: nat)
    requires y < |jsons|
    ensures PlainCount(jsons[..y + 1]) == PlainCount(jsons[..y]) + (if IsPlain(jsons[y]) then 1 else 0)
    ensures PlainCount(jsons[..y]) <= y
  {
    assert jsons[..y + 1][..y] == jsons[..y];
  }

  /** build_filter: the kind follows the value type, the pile is the
      manager's, and no value is selected yet. */
  function BuildFilter(json: FilterJson, pileSlug: string): (r: Filter)
    ensures r.shortName == json.shortName && r.pileSlug == pileSlug
    ensures r.selected.None? && r.callback.None?
    ensures r.kind == NumericRange <==> json.valueType == Some("LENGTH")
    ensures r.kind == MultipleChoice <==> json.valueType == Some("TEXT")
  {
    var kind :=
      if json.valueType == Some("LENGTH") then NumericRange
      else if json.valueType == Some("TEXT") then MultipleChoice
      else Plain;
    Filter(json.shortName, json.friendlyName, json.order, pileSlug, json.valueType, json.unit,
           json.notableExceptions, json.keyCharacteristics, kind, None, None)
  }

  /** The filters built from a list of `filter_json`, in order. */
  function BuildFilters(jsons: seq<FilterJson>, pileSlug: string): (r: seq<Filter>)
    ensures |r| == |jsons|
    ensures forall j :: 0 <= j < |jsons| ==> r[j] == BuildFilter(jsons[j], pileSlug)
  {
    seq(|jsons|, j requires 0 <= j < |jsons| => BuildFilter(jsons[j], pileSlug))
  }

  /** One more JSON adds its filter at the end. */
  lemma BuildFiltersNext(jsons: seq<FilterJson>, y: nat, pileSlug: string)
    requires y < |jsons|
    ensures BuildFilters(jsons[..y + 1], pileSlug) == BuildFilters(jsons[..y], pileSlug) + [BuildFilter(jsons[y], pileSlug)]
  {
    assert jsons[..y + 1][..y] == jsons[..y];
  }

  /** The filter add_special_filter builds: it carries a callback and no
      value type. */
  function SpecialFilter(shortName: string, pileSlug: string, callback: Item -> bool): (r: Filter)
    ensures r.shortName == shortName && r.callback.Some? && r.selected.None?
  {
    Filter(shortName, "", 0, pileSlug, None, None, None, None, Plain, None, Some(callback))
  }

  /** The position of the first filter with a short name, if any. */
  function FirstIndex(fs: seq<Filter>, name: string): (r: Option<nat>)
    ensures r.Some? ==> r.value < |fs| && fs[r.value].shortName == name
    ensures r.Some? ==> forall j :: 0 <= j < r.value ==> fs[j].shortName != name
    ensures r.None? <==> forall j :: 0 <= j < |fs| ==> fs[j].shortName != name
    decreases |fs|
  {
    if fs == [] then None
    else if fs[0].shortName == name then Some(0)
    else match FirstIndex(fs[1..], name)
      case None => None
      case Some(i) => Some(i + 1)
  }

  /** The list after remove_filter: the first filter with the name is taken
      out, nothing when there is none. */
  function Removed(fs: seq<Filter>, name: string): seq<Filter>
  {
    match FirstIndex(fs, name)
    case None => fs
    case Some(i) => fs[..i] + fs[i + 1..]
  }

  /** The list after set_selected_value: the first filter with the name
      holds the value, nothing changes when there is none. */
  function WithSelected(fs: seq<Filter>, name: string, value: Option<string>): seq<Filter>
  {
    match FirstIndex(fs, name)
    case None => fs
    case Some(i) => fs[i := fs[i].(selected := value)]
  }

  /** A selected value counts when it is a non-empty string. */
  predicate HasValue(selected: Option<string>)
  {
    selected.Some? && |selected.value| > 0
  }

  /** What get_selected_value returns: the value of the first filter with
      the name, when it is a non-empty string. */
  function SelectedValue(fs: seq<Filter>, name: string): (r: Option<string>)
    ensures r.Some? ==> |r.value| > 0
  {
    match FirstIndex(fs, name)
    case None => None
    case Some(i) => if HasValue(fs[i].selected) then fs[i].selected else None
  }

  /** The filters with another short name, in order. */
  function Others(fs: seq<Filter>, name: string): seq<Filter>
    decreases |fs|
  {
    if fs == [] then []
    else Others(fs[..|fs| - 1], name) + (if fs[|fs| - 1].shortName == name then [] else [fs[|fs| - 1]])
  }

  /** How many filters have a short name. */
  function Count(fs: seq<Filter>, name: string): nat
    decreases |fs|
  {
    if fs == [] then 0
    else Count(fs[..|fs| - 1], name) + (if fs[|fs| - 1].shortName == name then 1 else 0)
  }

  lemma {:induction false} OthersAppend(a: seq<Filter>, b: seq<Filter>, name: string)
    ensures Others(a + b, name) == Others(a, name) + Others(b, name)
    ensures Count(a + b, name) == Count(a, name) + Count(b, name)
    decreases |b|
  {
    if b == [] {
      assert a + b == a;
    } else {
      assert (a + b)[..|a + b| - 1] == a + b[..|b| - 1];
      OthersAppend(a, b[..|b| - 1], name);
    }
  }

  /** remove_filter takes out exactly one filter with the name when there
      is one, and none otherwise; the filters with other names stay, in
      their order. */
  lemma RemovedOnlyFirst(fs: seq<Filter>, name: string)
    ensures Others(Removed(fs, name), name) == Others(fs, name)
    ensures Count(Removed(fs, name), name) == if FirstIndex(fs, name).Some? then Count(fs, name) - 1 else 0
    ensures |Removed(fs, name)| == if FirstIndex(fs, name).Some? then |fs| - 1 else |fs|
  {
    match FirstIndex(fs, name)
    case None =>
      NoneCounted(fs, name);
    case Some(i) =>
      RemovedAt(fs[..i], fs[i], fs[i + 1..], name);
      assert fs == fs[..i] + [fs[i]] + fs[i + 1..];
  }

  lemma RemovedAt(a: seq<Filter>, f: Filter, b: seq<Filter>, name: string)
    requires f.shortName == name
    ensures Others(a + [f] + b, name) == Others(a + b, name)
    ensures Count(a + [f] + b, name) == Count(a + b, name) + 1
  {
    OthersAppend(a + [f], b, name);
    OthersAppend(a, [f], name);
    OthersAppend(a, b, name);
    assert [f][..0] == [];
  }

  lemma {:induction false} NoneCounted(fs: seq<Filter>, name: string)
    requires forall j :: 0 <= j < |fs| ==> fs[j].shortName != name
    ensures Count(fs, name) == 0 && Others(fs, name) == fs
    decreases |fs|
  {
    if fs != [] {
      NoneCounted(fs[..|fs| - 1], name);
    }
  }

  /** Appending a filter never changes which filter a name finds first,
      unless the name was not there before. */
  lemma AppendedFirstIndex(fs: seq<Filter>, f: Filter, name: string)
    ensures FirstIndex(fs + [f], name) ==
      if FirstIndex(fs, name).Some? then FirstIndex(fs, name)
      else if f.shortName == name then Some(|fs|)
      else None
  {
    assert forall j :: 0 <= j < |fs| ==> (fs + [f])[j] == fs[j];
    assert (fs + [f])[|fs|] == f;
  }

  /** set_selected_value changes the value of the first filter with the
      name and nothing else; an unknown name changes nothing. */
  lemma WithSelectedOnlyFirst(fs: seq<Filter>, name: string, value: Option<string>)
    ensures var r := WithSelected(fs, name, value);
      |r| == |fs| &&
      (forall j :: 0 <= j < |fs| && Some(j) != FirstIndex(fs, name) ==> r[j] == fs[j]) &&
      (forall j :: 0 <= j < |fs| ==> r[j] == fs[j].(selected := r[j].selected)) &&
      (FirstIndex(fs, name).Some? ==> r[FirstIndex(fs, name).value].selected == value)
  {
  }

  /** Reading back a value set for a known name gives it, when non-empty;
      the values of the other names are untouched. */
  lemma SetThenGet(fs: seq<Filter>, name: string, value: Option<string>, other: string)
    requires other != name
    ensures SelectedValue(WithSelected(fs, name, value), name) ==
      if FirstIndex(fs, name).Some? && HasValue(value) then value else None
    ensures SelectedValue(WithSelected(fs, name, value), other) == SelectedValue(fs, other)
  {
    var r := WithSelected(fs, name, value);
    SameNames(fs, r, name);
    SameNames(fs, r, other);
  }

  /** Two lists whose short names agree find the same first filter. */
  lemma SameNames(fs: seq<Filter>, gs: seq<Filter>, name: string)
    requires |fs| == |gs| && forall j :: 0 <= j < |fs| ==> fs[j].shortName == gs[j].shortName
    ensures FirstIndex(fs, name) == FirstIndex(gs, name)
  {
    assert forall j :: 0 <= j < |fs| ==> (fs[j].shortName == name <==> gs[j].shortName == name);
  }

  /** One default filter has finished loading: the counter drops by one and
      the completion callbacks fire when it reaches zero. */
  function Loaded(counter: int): (int, bool)
  {
    (counter - 1, counter - 1 == 0)
  }

  /** The counter after `calls` default filters have loaded, and which of
      those loads fired the completion callbacks. */
  function Countdown(start: int, calls: nat): (r: (int, seq<bool>))
    ensures |r.1| == calls
    decreases calls
  {
    if calls == 0 then (start, [])
    else
      var prev := Countdown(start, calls - 1);
      var next := Loaded(prev.0);
      (next.0, prev.1 + [next.1])
  }

  /** Starting from the number of default filters, the callbacks fire on
      the load of the last of them and on no other; with no default filter
      at all they never fire. */
  lemma {:induction false} CountdownFiresOnce(n: nat, calls: nat)
    ensures Countdown(n, calls).0 == n - calls
    ensures forall k :: 0 <= k < calls ==> (Countdown(n, calls).1[k] <==> k == n - 1)
    decreases calls
  {
    if calls > 0 {
      CountdownFiresOnce(n, calls - 1);
      var prev := Countdown(n, calls - 1);
      assert forall k :: 0 <= k < calls - 1 ==> Countdown(n, calls).1[k] == prev.1[k];
    }
  }

  /** After load_pile_info, the filters still loading are the ones that
      are not plain. Their later loads bring the counter to zero, and the
      completion callbacks fire on the last of them and on no other. */
  lemma {:induction false} DefaultsSettle(defaults: seq<FilterJson>)
    ensures var m := |defaults| - PlainCount(defaults);
      Countdown(m, m).0 == 0 &&
      forall k :: 0 <= k < m ==> (Countdown(m, m).1[k] <==> k == m - 1)
  {
    var m := |defaults| - PlainCount(defaults);
    CountdownSettles(m);
  }

  /** A counter started at m settles after m loads. */
  lemma {:induction false} CountdownSettles(m: nat)
    ensures Countdown(m, m).0 == 0
    ensures forall k :: 0 <= k < m ==> (Countdown(m, m).1[k] <==> k == m - 1)
  {
    CountdownFiresOnce(m, m);
  }

  /** The running lower and upper bound of a numeric range filter. */
  datatype Bounds = Bounds(min: Option<real>, max: Option<real>)

  /** A character value of a range character: null, or a pair whose ends
      may each be null. */
  type RangeValue = Option<(Option<real>, Option<real>)>

  /** NumericRangeFilter.process_value on one value. */
  function Absorb(b: Bounds, cv: RangeValue): (r: Bounds)
  {
    match cv
    case None => b
    case Some((lo, hi)) =>
      var min := if lo.Some? && (b.min.None? || b.min.value > lo.value) then lo else b.min;
      var max := if hi.Some? && (b.max.None? || b.max.value < hi.value) then hi else b.max;
      Bounds(min, max)
  }

  /** The bounds after a sequence of values, from some starting bounds. */
  function AbsorbAll(b: Bounds, cvs: seq<RangeValue>): Bounds
    decreases |cvs|
  {
    if cvs == [] then b else Absorb(AbsorbAll(b, cvs[..|cvs| - 1]), cvs[|cvs| - 1])
  }

  /** The lower end of a value, when both it and the value are non-null. */
  predicate LowIs(cv: RangeValue, x: real)
  {
    cv.Some? && cv.value.0 == Some(x)
  }

  predicate HighIs(cv: RangeValue, x: real)
  {
    cv.Some? && cv.value.1 == Some(x)
  }

  /** After any sequence of values, the minimum is the least non-null lower
      end and the maximum the greatest non-null upper end; a bound stays
      null exactly when no value gave one. */
  lemma {:induction false} RangeBounds(cvs: seq<RangeValue>)
    ensures var b := AbsorbAll(Bounds(None, None), cvs);
      (b.min.None? <==> forall j, x :: 0 <= j < |cvs| ==> !LowIs(cvs[j], x)) &&
      (b.min.Some? ==> (exists j :: 0 <= j < |cvs| && LowIs(cvs[j], b.min.value)) &&
                       forall j, x :: 0 <= j < |cvs| && LowIs(cvs[j], x) ==> b.min.value <= x) &&
      (b.max.None? <==> forall j, x :: 0 <= j < |cvs| ==> !HighIs(cvs[j], x)) &&
      (b.max.Some? ==> (exists j :: 0 <= j < |cvs| && HighIs(cvs[j], b.max.value)) &&
                       forall j, x :: 0 <= j < |cvs| && HighIs(cvs[j], x) ==> x <= b.max.value)
    decreases |cvs|
  {
    if cvs != [] {
      var init := cvs[..|cvs| - 1];
      RangeBounds(init);
      var b0 := AbsorbAll(Bounds(None, None), init);
      var b := AbsorbAll(Bounds(None, None), cvs);
      assert forall j :: 0 <= j < |init| ==> cvs[j] == init[j];
      if b.min.Some? {
        if b.min == b0.min {
          var j :| 0 <= j < |init| && LowIs(init[j], b.min.value);
          assert LowIs(cvs[j], b.min.value);
        } else {
          assert LowIs(cvs[|cvs| - 1], b.min.value);
        }
      }
      if b.max.Some? {
        if b.max == b0.max {
          var j :| 0 <= j < |init| && HighIs(init[j], b.max.value);
          assert HighIs(cvs[j], b.max.value);
        } else {
          assert HighIs(cvs[|cvs| - 1], b.max.value);
        }
      }
    }
  }

  /** A null value leaves the bounds alone, and values are absorbed one
      batch after the other. */
  lemma {:induction false} AbsorbAllAppend(b: Bounds, xs: seq<RangeValue>, ys: seq<RangeValue>)
    ensures AbsorbAll(b, xs + ys) == AbsorbAll(AbsorbAll(b, xs), ys)
    ensures AbsorbAll(b, xs + [None]) == AbsorbAll(b, xs)
    decreases |ys|
  {
    assert (xs + [None])[..|xs|] == xs;
    if ys == [] {
      assert xs + ys == xs;
    } else {
      assert (xs + ys)[..|xs + ys| - 1] == xs + ys[..|ys| - 1];
      AbsorbAllAppend(b, xs, ys[..|ys| - 1]);
    }
  }

  /** A NumericRangeFilter: its `values` object holds the running bounds. */
  class NumericRangeFilter {
    var bounds: Bounds

    constructor()
      ensures bounds == Bounds(None, None)
    {
      bounds := Bounds(None, None);
    }

    /** process_value. */
    method ProcessValue(cv: RangeValue)
      modifies this
      ensures bounds == Absorb(old(bounds), cv)
    {
      if cv.None? {
        return;
      }
      var (vmin, vmax) := cv.value;
      if vmin.Some? && (bounds.min.None? || bounds.min.value > vmin.value) {
        bounds := bounds.(min := vmin);
      }
      if vmax.Some? && (bounds.max.None? || bounds.max.value < vmax.value) {
        bounds := bounds.(max := vmax);
      }
    }

    /** The forEach of load_values over the fetched values. */
    method ProcessValues(response: seq<RangeValue>)
      modifies this
      ensures bounds == AbsorbAll(old(bounds), response)
    {
      for i := 0 to |response|
        invariant bounds == AbsorbAll(old(bounds), response[..i])
      {
        assert response[..i + 1][..i] == response[..i];
        ProcessValue(response[i]);
      }
      assert response[..|response|] == response;
    }
  }

  /** A filter goes into the query when it is not special and has a
      non-empty selected value. */
  predicate InQuery(f: Filter)
  {
    f.callback.None? && HasValue(f.selected)
  }

  /** The query run_filtered_query sends: the pile, then the value of each
      filter that goes into the query under its short name. */
  function Query(fs: seq<Filter>, pileSlug: string): (r: map<string, string>)
    ensures "pile" in r
    ensures r["pile"] != pileSlug ==> exists j :: 0 <= j < |fs| && InQuery(fs[j]) && fs[j].shortName == "pile"
    decreases |fs|
  {
    if fs == [] then map["pile" := pileSlug]
    else
      var m := Query(fs[..|fs| - 1], pileSlug);
      var f := fs[|fs| - 1];
      assert forall j :: 0 <= j < |fs| - 1 ==> fs[..|fs| - 1][j] == fs[j];
      if InQuery(f) then m[f.shortName := f.selected.value] else m
  }

  /** The special filters, in order. */
  function Special(fs: seq<Filter>): (r: seq<Filter>)
    ensures forall f :: f in r ==> f.callback.Some?
    decreases |fs|
  {
    if fs == [] then []
    else Special(fs[..|fs| - 1]) + (if fs[|fs| - 1].callback.Some? then [fs[|fs| - 1]] else [])
  }

  /** Every name in the query is the pile or the name of a filter that goes
      into it; the special filters and the ones without a value stay out. */
  lemma {:induction false} QueryFrom(fs: seq<Filter>, pileSlug: string, k: string)
    requires k in Query(fs, pileSlug) && k != "pile"
    ensures exists j :: 0 <= j < |fs| && InQuery(fs[j]) && fs[j].shortName == k
    decreases |fs|
  {
    var init := fs[..|fs| - 1];
    var f := fs[|fs| - 1];
    if !(InQuery(f) && f.shortName == k) {
      QueryFrom(init, pileSlug, k);
      var j :| 0 <= j < |init| && InQuery(init[j]) && init[j].shortName == k;
      assert fs[j] == init[j];
    }
  }

  /** The value sent for a name is that of the last filter with the name
      that goes into the query. */
  lemma {:induction false} QueryLastWins(fs: seq<Filter>, pileSlug: string, j: nat)
    requires j < |fs| && InQuery(fs[j])
    requires forall i :: j < i < |fs| ==> !(InQuery(fs[i]) && fs[i].shortName == fs[j].shortName)
    ensures fs[j].shortName in Query(fs, pileSlug)
    ensures Query(fs, pileSlug)[fs[j].shortName] == fs[j].selected.value
    decreases |fs|
  {
    if j < |fs| - 1 {
      var init := fs[..|fs| - 1];
      assert init[j] == fs[j];
      forall i | j < i < |init| ensures !(InQuery(init[i]) && init[i].shortName == init[j].shortName) {
        assert init[i] == fs[i];
      }
      QueryLastWins(init, pileSlug, j);
    }
  }

  /** The special pass accepts an item when every special filter's
      callback does. */
  predicate Accepts(special: seq<Filter>, item: Item)
  {
    forall y :: 0 <= y < |special| && special[y].callback.Some? ==> special[y].callback.value(item)
  }

  /** The items the special pass keeps, in order. */
  function Kept(items: seq<Item>, special: seq<Filter>): (r: seq<Item>)
    ensures |r| <= |items|
    ensures forall k :: 0 <= k < |r| ==> Accepts(special, r[k])
    decreases |items|
  {
    if items == [] then []
    else
      var x := items[|items| - 1];
      Kept(items[..|items| - 1], special) + (if Accepts(special, x) then [x] else [])
  }

  /** The special pass keeps exactly the items every callback accepts. */
  lemma {:induction false} KeptMembers(items: seq<Item>, special: seq<Filter>, x: Item)
    ensures x in Kept(items, special) <==> x in items && Accepts(special, x)
    decreases |items|
  {
    if items != [] {
      var init := items[..|items| - 1];
      KeptMembers(init, special, x);
      assert items == init + [items[|items| - 1]];
    }
  }

  /** The special pass keeps the order of the results: it works on a
      concatenation part by part. */
  lemma {:induction false} KeptAppend(a: seq<Item>, b: seq<Item>, special: seq<Filter>)
    ensures Kept(a + b, special) == Kept(a, special) + Kept(b, special)
    decreases |b|
  {
    if b == [] {
      assert a + b == a;
    } else {
      assert (a + b)[..|a + b| - 1] == a + b[..|b| - 1];
      KeptAppend(a, b[..|b| - 1], special);
    }
  }

  /** Without special filters the pass would keep every item, so skipping
      it then changes nothing. */
  lemma {:induction false} KeptAll(items: seq<Item>)
    ensures Kept(items, []) == items
    decreases |items|
  {
    if items != [] {
      KeptAll(items[..|items| - 1]);
    }
  }

  /** The ids of the results, in order. */
  function Ids(items: seq<Item>): (r: seq<int>)
    ensures |r| == |items| && forall i :: 0 <= i < |items| ==> r[i] == items[i].id
  {
    seq(|items|, i requires 0 <= i < |items| => items[i].id)
  }

  /** The FilterManager of a pile. */
  class FilterManager {
    var pileSlug: string
    var characterGroups: seq<string>
    var plantPreviewCharacters: seq<string>
    var filters: seq<Filter>
    var filtersLoading: int
    var speciesCount: int
    var speciesIds: seq<int>

    constructor(pileSlug: string)
      ensures this.pileSlug == pileSlug && filters == [] && filtersLoading == 0
      ensures characterGroups == [] && plantPreviewCharacters == []
      ensures speciesCount == 0 && speciesIds == []
    {
      this.pileSlug := pileSlug;
      characterGroups := [];
      plantPreviewCharacters := [];
      filters := [];
      filtersLoading := 0;
      speciesCount := 0;
      speciesIds := [];
    }

    /** has_filter. */
    method HasFilter(shortName: string) returns (b: bool)
      ensures b <==> exists j :: 0 <= j < |filters| && filters[j].shortName == shortName
      ensures b <==> FirstIndex(filters, shortName).Some?
    {
      for x := 0 to |filters|
        invariant forall j :: 0 <= j < x ==> filters[j].shortName != shortName
      {
        if filters[x].shortName == shortName {
          return true;
        }
      }
      return false;
    }

    /** The position of the first filter with a name, by the loop shared by
        remove_filter, set_selected_value and get_selected_value. */
    method Find(shortName: string) returns (r: Option<nat>)
      ensures r == FirstIndex(filters, shortName)
    {
      for x := 0 to |filters|
        invariant forall j :: 0 <= j < x ==> filters[j].shortName != shortName
      {
        if filters[x].shortName == shortName {
          assert FirstIndex(filters, shortName) == Some(x) by {
            var f := FirstIndex(filters, shortName);
            assert f.Some? && f.value >= x;
          }
          return Some(x);
        }
      }
      return None;
    }

    /** remove_filter; the removed filter is what on_filter_removed is
        given. */
    method RemoveFilter(shortName: string) returns (removed: Option<Filter>)
      modifies this
      ensures filters == Removed(old(filters), shortName)
      ensures removed.Some? <==> FirstIndex(old(filters), shortName).Some?
      ensures removed.Some? ==> removed.value == old(filters)[FirstIndex(old(filters), shortName).value]
      ensures pileSlug == old(pileSlug) && filtersLoading == old(filtersLoading)
      ensures speciesCount == old(speciesCount) && speciesIds == old(speciesIds)
      ensures characterGroups == old(characterGroups) && plantPreviewCharacters == old(plantPreviewCharacters)
    {
      var x := Find(shortName);
      if x.None? {
        return None;
      }
      var filter := filters[x.value];
      filters := filters[..x.value] + filters[x.value + 1..];
      return Some(filter);
    }

    /** add_filter: the filter built from the JSON goes at the end. */
    method AddFilter(json: FilterJson) returns (f: Filter)
      modifies this
      ensures f == BuildFilter(json, pileSlug)
      ensures filters == old(filters) + [f]
      ensures pileSlug == old(pileSlug) && filtersLoading == old(filtersLoading)
      ensures speciesCount == old(speciesCount) && speciesIds == old(speciesIds)
      ensures characterGroups == old(characterGroups) && plantPreviewCharacters == old(plantPreviewCharacters)
    {
      f := BuildFilter(json, pileSlug);
      filters := filters + [f];
    }

    /** add_special_filter. */
    method AddSpecialFilter(shortName: string, callback: Item -> bool)
      modifies this
      ensures filters == old(filters) + [SpecialFilter(shortName, pileSlug, callback)]
      ensures pileSlug == old(pileSlug) && filtersLoading == old(filtersLoading)
      ensures speciesCount == old(speciesCount) && speciesIds == old(speciesIds)
      ensures characterGroups == old(characterGroups) && plantPreviewCharacters == old(plantPreviewCharacters)
    {
      filters := filters + [SpecialFilter(shortName, pileSlug, callback)];
    }

    /** set_selected_value; `value` is null or the `String()` of the value
        given. */
    method SetSelectedValue(shortName: string, value: Option<string>)
      modifies this
      ensures filters == WithSelected(old(filters), shortName, value)
      ensures pileSlug == old(pileSlug) && filtersLoading == old(filtersLoading)
      ensures speciesCount == old(speciesCount) && speciesIds == old(speciesIds)
      ensures characterGroups == old(characterGroups) && plantPreviewCharacters == old(plantPreviewCharacters)
    {
      var x := Find(shortName);
      if x.Some? {
        filters := filters[x.value := filters[x.value].(selected := value)];
      }
    }

    /** get_selected_value. */
    method GetSelectedValue(shortName: string) returns (selected: Option<string>)
      ensures selected == SelectedValue(filters, shortName)
    {
      selected := None;
      var found := false;
      var i := 0;
      while !found && i < |filters|
        invariant 0 <= i <= |filters|
        invariant !found ==> selected.None? && forall j :: 0 <= j < i ==> filters[j].shortName != shortName
        invariant found ==> FirstIndex(filters, shortName) == Some(i - 1) && selected == SelectedValue(filters, shortName)
        decreases |filters| - i, !found
      {
        if filters[i].shortName == shortName {
          assert FirstIndex(filters, shortName) == Some(i) by {
            var f := FirstIndex(filters, shortName);
            assert f.Some? && f.value >= i;
          }
          var value := filters[i].selected;
          if value.Some? && |value.value| > 0 {
            selected := value;
          }
          found := true;
        }
        i := i + 1;
      }
    }

    /** empty_filters. */
    method EmptyFilters()
      modifies this
      ensures filters == []
      ensures pileSlug == old(pileSlug) && filtersLoading == old(filtersLoading)
      ensures speciesCount == old(speciesCount) && speciesIds == old(speciesIds)
      ensures characterGroups == old(characterGroups) && plantPreviewCharacters == old(plantPreviewCharacters)
    {
      filters := [];
    }

    /** The onItem of load_pile_info. The pile's character groups and
        preview characters are saved. With defaults requested, the counter
        is set to their number and each is added. A plain filter reports
        itself loaded inside add_filter, before it is pushed, so the counter
        drops at once for each plain filter; when every default is plain,
        the last of them fires the completion callbacks (`defaultsLoaded`),
        and those callbacks see the filters as they were then (`seen`).
        Without defaults requested, on_pile_info_loaded fires at once.
        `infoLoaded` tells whether on_pile_info_loaded ran. */
    method LoadPileInfo(loadDefaults: bool, info: PileInfo)
      returns (infoLoaded: bool, defaultsLoaded: bool, seen: seq<Filter>)
      modifies this
      ensures characterGroups == info.characterGroups && plantPreviewCharacters == info.plantPreviewCharacters
      ensures var defaults := info.defaultFilters;
        loadDefaults ==> filtersLoading == |defaults| - PlainCount(defaults) &&
                         filters == old(filters) + BuildFilters(defaults, pileSlug)
      ensures !loadDefaults ==> filtersLoading == old(filtersLoading) && filters == old(filters)
      ensures var defaults := info.defaultFilters;
        defaultsLoaded <==> loadDefaults && |defaults| > 0 && forall k :: 0 <= k < |defaults| ==> IsPlain(defaults[k])
      ensures defaultsLoaded ==>
        seen == old(filters) + BuildFilters(info.defaultFilters[..|info.defaultFilters| - 1], pileSlug)
      ensures infoLoaded <==> !loadDefaults || defaultsLoaded
      ensures pileSlug == old(pileSlug)
      ensures speciesCount == old(speciesCount) && speciesIds == old(speciesIds)
    {
      characterGroups := info.characterGroups;
      plantPreviewCharacters := info.plantPreviewCharacters;
      seen := [];
      defaultsLoaded := false;
      if !loadDefaults {
        return true, false, seen;
      }
      var counter;
      filters, counter, defaultsLoaded, seen := AddDefaults(filters, info.defaultFilters, pileSlug);
      filtersLoading := counter;
      return defaultsLoaded, defaultsLoaded, seen;
    }

    /** The loop of load_pile_info over the default filters, from the
        filters `start` and a counter set to the number of defaults. */
    static method AddDefaults(start: seq<Filter>, defaults: seq<FilterJson>, pileSlug: string)
      returns (fs: seq<Filter>, counter: int, defaultsLoaded: bool, seen: seq<Filter>)
      ensures fs == start + BuildFilters(defaults, pileSlug)
      ensures counter == |defaults| - PlainCount(defaults)
      ensures defaultsLoaded <==> |defaults| > 0 && PlainCount(defaults) == |defaults|
      ensures defaultsLoaded ==> seen == start + BuildFilters(defaults[..|defaults| - 1], pileSlug)
    {
      fs, counter, defaultsLoaded, seen := start, |defaults|, false, [];
      for y := 0 to |defaults|
        invariant fs == start + BuildFilters(defaults[..y], pileSlug)
        invariant counter == |defaults| - PlainCount(defaults[..y])
        invariant defaultsLoaded <==> y == |defaults| && y > 0 && PlainCount(defaults[..y]) == y
        invariant defaultsLoaded ==> seen == start + BuildFilters(defaults[..|defaults| - 1], pileSlug)
      {
        BuildFiltersNext(defaults, y, pileSlug);
        PlainCountNext(defaults, y);
        var f := BuildFilter(defaults[y], pileSlug);
        if f.kind == Plain {
          // load_values calls onLoaded at once: _watch_default_filters_loading
          counter := counter - 1;
          if counter == 0 {
            defaultsLoaded := true;
            seen := fs;
          }
        }
        fs := fs + [f];
      }
      assert defaults[..|defaults|] == defaults;
    }

    /** _watch_default_filters_loading: one default filter has loaded;
        `fired` tells whether the completion callbacks ran. */
    method DefaultFilterLoaded() returns (fired: bool)
      modifies this
      ensures (filtersLoading, fired) == Loaded(old(filtersLoading))
      ensures filters == old(filters) && pileSlug == old(pileSlug)
      ensures speciesCount == old(speciesCount) && speciesIds == old(speciesIds)
      ensures characterGroups == old(characterGroups) && plantPreviewCharacters == old(plantPreviewCharacters)
    {
      filtersLoading := filtersLoading - 1;
      fired := filtersLoading == 0;
    }

    /** The filters that run_filtered_query puts into the query and sets
        aside as special. */
    method QueryParts() returns (content: map<string, string>, special: seq<Filter>)
      ensures content == Query(filters, pileSlug)
      ensures special == Special(filters)
    {
      content := map["pile" := pileSlug];
      special := [];
      for i := 0 to |filters|
        invariant content == Query(filters[..i], pileSlug)
        invariant special == Special(filters[..i])
      {
        assert filters[..i + 1][..i] == filters[..i];
        var filter := filters[i];
        if filter.callback.Some? {
          special := special + [filter];
        } else if filter.selected.Some? && |filter.selected.value| > 0 {
          content := content[filter.shortName := filter.selected.value];
        }
      }
      assert filters[..|filters|] == filters;
    }

    /** The onComplete of run_filtered_query: the count and ids are those of
        all results, then the special pass runs when there are special
        filters; the returned items are what the caller's onComplete gets. */
    method OnResults(items: seq<Item>, special: seq<Filter>) returns (data: seq<Item>)
      modifies this
      ensures speciesCount == |items| && speciesIds == Ids(items)
      ensures data == if |special| > 0 then Kept(items, special) else items
      ensures filters == old(filters) && pileSlug == old(pileSlug) && filtersLoading == old(filtersLoading)
      ensures characterGroups == old(characterGroups) && plantPreviewCharacters == old(plantPreviewCharacters)
    {
      speciesCount := |items|;
      speciesIds := IdsOf(items);
      data := items;
      if |special| > 0 {
        data := SpecialPass(items, special);
      }
    }

    /** The loop that copies the ids of the results. */
    static method IdsOf(items: seq<Item>) returns (ids: seq<int>)
      ensures ids == Ids(items)
    {
      ids := [];
      for i := 0 to |items|
        invariant ids == Ids(items[..i])
      {
        ids := ids + [items[i].id];
      }
      assert items[..|items|] == items;
    }

    /** The special pass over the results. */
    static method SpecialPass(items: seq<Item>, special: seq<Filter>) returns (newdata: seq<Item>)
      ensures newdata == Kept(items, special)
    {
      newdata := [];
      for x := 0 to |items|
        invariant newdata == Kept(items[..x], special)
      {
        assert items[..x + 1][..x] == items[..x];
        var item := items[x];
        var accepted := Accepted(special, item);
        if accepted {
          newdata := newdata + [item];
        }
      }
      assert items[..|items|] == items;
    }

    /** The inner loop of the special pass: the first callback that refuses
        the item removes it. */
    static method Accepted(special: seq<Filter>, item: Item) returns (accepted: bool)
      ensures accepted == Accepts(special, item)
    {
      for y := 0 to |special|
        invariant forall z :: 0 <= z < y && special[z].callback.Some? ==> special[z].callback.value(item)
      {
        var callback := special[y].callback;
        if callback.Some? && !callback.value(item) {
          return false;
        }
      }
      return true;
    }
  }
}
