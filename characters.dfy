/** The character importers of importer.py: the taxon character values of
    the per-pile files, where the minimum and maximum columns of a length
    character are paired into one range value; the character rows; and the
    character value rows. */
module Characters {
  import opened Wrappers
  import opened Text
  import opened Staging
  import opened Names

  // ---------------------------------------------------------------------
  // Column names

  /** Python's name[-3:]: the last three characters, or all of a shorter name. */
  function LastThree(s: string): (r: string)
    ensures |r| == if |s| < 3 then |s| else 3
    ensures s[|s| - |r|..] == r
  {
    if |s| < 3 then s else s[|s| - 3..]
  }

  /** The column is the minimum of a length character. */
  predicate IsMin(name: string)
  {
    Contains(Lower(name), "_min")
  }

  /** The column is the maximum of a length character. */
  predicate IsMax(name: string)
  {
    Contains(Lower(name), "_max")
  }

  // ---------------------------------------------------------------------
  // _import_taxon_character_values

  /** The bounds of a length character seen in a row; None where no value
      was seen (the [None, None] of the defaultdict). */
  datatype Bounds = Bounds(low: Option<real>, high: Option<real>)

  /** The lookups read from the database, and Python's float(). */
  datatype Lookups = Lookups(
    pileMap: map<string, int>,            // "_ca" and the like to the pile id
    characterMap: map<string, int>,       // short name to character id
    cvMap: map<(int, string), int>,       // (character id, value_str) to value id
    parseFloat: string -> Option<real>)   // None where float() raises ValueError

  /** One row of a taxon character value file: its scientific name and its
      (column, value) cells in the order row.items() yields them. */
  datatype TaxonValuesRow = TaxonValuesRow(scientificName: string, cells: seq<(string, string)>)

  /** The staging tables and the sets of problems the import collects. */
  datatype CvState = CvState(
    cv: map<Record, Record>,
    tcv: map<Record, Record>,
    badFloatValues: set<string>,
    unknownCharacters: set<string>,
    unknownCharacterValues: set<(int, string)>)

  const EmptyCvState := CvState(map[], map[], {}, {}, {})

  /** The role one cell plays in the import. */
  datatype Cell =
    | Skipped
    | UnknownCharacter(shortName: string)
    | BadFloat(value: string)
    | Bound(shortName: string, low: bool, x: real)
    | Listed(characterId: int, values: seq<string>)

  function Classify(name: string, v: string, lk: Lookups): (r: Cell)
    ensures r.Bound? ==> r.shortName == CharacterShortName(name) && r.shortName in lk.characterMap
    ensures r.Bound? ==> lk.parseFloat(v) == Some(r.x) && (r.low <==> IsMin(name))
    ensures r.Listed? ==> !IsMin(name) && !IsMax(name)
    ensures Strip(v, Whitespace) == [] || LastThree(name) !in lk.pileMap ==> r == Skipped
  {
    if Strip(v, Whitespace) == [] then Skipped
    else if LastThree(name) !in lk.pileMap then Skipped
    else
      var shortName := CharacterShortName(name);
      if shortName !in lk.characterMap then UnknownCharacter(shortName)
      else if IsMin(name) || IsMax(name) then
        if v == "n/a" then Skipped
        else match lk.parseFloat(v)
          case None => BadFloat(v)
          case Some(x) => Bound(shortName, IsMin(name), x)
      else Listed(lk.characterMap[shortName], Split(v, '|'))
  }

  /** The key of a taxon character value row. */
  function TcvKey(taxonId: int, valueId: Value): Record
  {
    Key2("taxon_id", Int(taxonId), "character_value_id", valueId)
  }

  /** A bound as a staged value. */
  function NumOrNull(x: Option<real>): Value
  {
    if x.Some? then Num(x.value) else Null
  }

  /** The "|"-separated values of a text cell, each stripped. */
  function StrippedValues(values: seq<string>): (r: seq<string>)
    ensures |r| == |values| && forall k :: 0 <= k < |values| ==> r[k] == Strip(values[k], Whitespace)
  {
    seq(|values|, k requires 0 <= k < |values| => Strip(values[k], Whitespace))
  }

  /** The values of a text character cell: each value the database knows
      joins the taxon, each other one is recorded as unknown. */
  function ListedValues(st: CvState, taxonId: int, characterId: int, values: seq<string>,
                        cvMap: map<(int, string), int>): (r: CvState)
    ensures r.cv == st.cv && r.badFloatValues == st.badFloatValues && r.unknownCharacters == st.unknownCharacters
    decreases |values|
  {
    if values == [] then st
    else
      var init := values[..|values| - 1];
      var last := values[|values| - 1];
      var s := ListedValues(st, taxonId, characterId, init, cvMap);
      var key := (characterId, last);
      if key in cvMap then s.(tcv := Touched(s.tcv, TcvKey(taxonId, Int(cvMap[key]))))
      else s.(unknownCharacterValues := s.unknownCharacterValues + {key})
  }

  /** Each value the database knows joins the taxon, each other one is
      recorded as unknown, and nothing else is. */
  lemma {:induction false} ListedValuesEffect(st: CvState, taxonId: int, characterId: int, values: seq<string>,
                                              cvMap: map<(int, string), int>)
    ensures var r := ListedValues(st, taxonId, characterId, values, cvMap);
      r.tcv.Keys == st.tcv.Keys + set v | v in values && (characterId, v) in cvMap ::
        TcvKey(taxonId, Int(cvMap[(characterId, v)]))
    ensures var r := ListedValues(st, taxonId, characterId, values, cvMap);
      r.unknownCharacterValues == st.unknownCharacterValues + set v | v in values &&
        (characterId, v) !in cvMap :: (characterId, v)
    decreases |values|
  {
    if values != [] {
      var init := values[..|values| - 1];
      var last := values[|values| - 1];
      assert forall v :: v in values <==> v in init || v == last;
      ListedValuesEffect(st, taxonId, characterId, init, cvMap);
    }
  }

  /** One more value of a text character cell. */
  lemma ListedValuesStep(st: CvState, taxonId: int, characterId: int, values: seq<string>, v: string,
                         cvMap: map<(int, string), int>)
    ensures var s := ListedValues(st, taxonId, characterId, values, cvMap);
      ListedValues(st, taxonId, characterId, values + [v], cvMap) ==
        if (characterId, v) in cvMap then s.(tcv := Touched(s.tcv, TcvKey(taxonId, Int(cvMap[(characterId, v)]))))
        else s.(unknownCharacterValues := s.unknownCharacterValues + {(characterId, v)})
  {
    assert (values + [v])[..|values|] == values;
  }

  /** One more value of a text character cell, taken from a list. */
  lemma ListedValuesNext(st: CvState, taxonId: int, characterId: int, values: seq<string>, i: nat,
                         cvMap: map<(int, string), int>)
    requires i < |values|
    ensures var s := ListedValues(st, taxonId, characterId, values[..i], cvMap);
      var key := (characterId, values[i]);
      ListedValues(st, taxonId, characterId, values[..i + 1], cvMap) ==
        if key in cvMap then s.(tcv := Touched(s.tcv, TcvKey(taxonId, Int(cvMap[key]))))
        else s.(unknownCharacterValues := s.unknownCharacterValues + {key})
  {
    assert values[..i + 1] == values[..i] + [values[i]];
    ListedValuesStep(st, taxonId, characterId, values[..i], values[i], cvMap);
  }

  /** The state of one row: the tables, and length_pairs with the order its
      short names were first seen in. */
  datatype RowState = RowState(st: CvState, pairs: map<string, Bounds>, order: seq<string>)

  /** `order` lists the short names of `pairs`, each naming a known character. */
  ghost predicate Tracked(rs: RowState, characterMap: map<string, int>)
  {
    (forall sn :: sn in rs.pairs <==> sn in rs.order) &&
    (forall sn :: sn in rs.pairs ==> sn in characterMap)
  }

  /** Every bound among the cells names a known character. */
  ghost predicate KnownBounds(cells: seq<Cell>, characterMap: map<string, int>)
  {
    forall k :: 0 <= k < |cells| && cells[k].Bound? ==> cells[k].shortName in characterMap
  }

  /** The role of each cell of a row. */
  function Classified(cells: seq<(string, string)>, lk: Lookups): (r: seq<Cell>)
    ensures |r| == |cells| && forall k :: 0 <= k < |cells| ==> r[k] == Classify(cells[k].0, cells[k].1, lk)
    ensures KnownBounds(r, lk.characterMap)
  {
    seq(|cells|, k requires 0 <= k < |cells| => Classify(cells[k].0, cells[k].1, lk))
  }

  /** The lower (slot 0) or upper (slot 1) bound. */
  function Slot(b: Bounds, low: bool): Option<real>
  {
    if low then b.low else b.high
  }

  /** The pair of a short name, [None, None] when there is none yet. */
  function PairOf(pairs: map<string, Bounds>, shortName: string): Bounds
  {
    if shortName in pairs then pairs[shortName] else Bounds(None, None)
  }

  /** The row state after one cell. */
  function CellStep(rs: RowState, taxonId: int, c: Cell, lk: Lookups): (r: RowState)
    requires Tracked(rs, lk.characterMap) && (c.Bound? ==> c.shortName in lk.characterMap)
    ensures Tracked(r, lk.characterMap)
    ensures r.st.cv == rs.st.cv
  {
    match c
    case Skipped => rs
    case UnknownCharacter(sn) => rs.(st := rs.st.(unknownCharacters := rs.st.unknownCharacters + {sn}))
    case BadFloat(x) => rs.(st := rs.st.(badFloatValues := rs.st.badFloatValues + {x}))
    case Bound(sn, low, x) =>
      var b := PairOf(rs.pairs, sn);
      rs.(pairs := rs.pairs[sn := if low then b.(low := Some(x)) else b.(high := Some(x))],
          order := if sn in rs.pairs then rs.order else rs.order + [sn])
    case Listed(cid, values) => rs.(st := ListedValues(rs.st, taxonId, cid, StrippedValues(values), lk.cvMap))
  }

  /** The row state after the cells, one after the other. */
  function CellsStep(rs: RowState, taxonId: int, cells: seq<Cell>, lk: Lookups): (r: RowState)
    requires Tracked(rs, lk.characterMap) && KnownBounds(cells, lk.characterMap)
    ensures Tracked(r, lk.characterMap)
    ensures r.st.cv == rs.st.cv
    decreases |cells|
  {
    if cells == [] then rs
    else
      var init := cells[..|cells| - 1];
      assert forall k :: 0 <= k < |init| ==> init[k] == cells[k];
      CellStep(CellsStep(rs, taxonId, init, lk), taxonId, cells[|cells| - 1], lk)
  }

  /** The key of the range character value of a character. */
  function RangeKey(characterId: int, b: Bounds): Record
  {
    map["character_id" := Int(characterId), "value_min" := NumOrNull(b.low), "value_max" := NumOrNull(b.high)]
  }

  /** The (character id, min, max) triple a range taxon value refers to. */
  function RangeId(characterId: int, b: Bounds): Value
  {
    Tuple([Int(characterId), NumOrNull(b.low), NumOrNull(b.high)])
  }

  /** The range values of the short names in `order`: one character value and
      one taxon character value each, whether or not both bounds were seen. */
  function Ranges(st: CvState, taxonId: int, pairs: map<string, Bounds>, order: seq<string>,
                  characterMap: map<string, int>): (r: CvState)
    requires forall sn :: sn in order ==> sn in pairs && sn in characterMap
    ensures r.badFloatValues == st.badFloatValues && r.unknownCharacters == st.unknownCharacters
    ensures r.unknownCharacterValues == st.unknownCharacterValues
    decreases |order|
  {
    if order == [] then st
    else
      var init := order[..|order| - 1];
      var sn := order[|order| - 1];
      assert forall x :: x in init ==> x in order;
      var s := Ranges(st, taxonId, pairs, init, characterMap);
      var cid := characterMap[sn];
      s.(cv := Staged(s.cv, RangeKey(cid, pairs[sn]), map["friendly_text" := Str("")]),
         tcv := Touched(s.tcv, TcvKey(taxonId, RangeId(cid, pairs[sn]))))
  }

  /** The range character values of the short names in `order`. */
  function RangeKeys(taxonId: int, pairs: map<string, Bounds>, order: seq<string>,
                     characterMap: map<string, int>): set<Record>
    requires forall sn :: sn in order ==> sn in pairs && sn in characterMap
  {
    set sn | sn in order :: RangeKey(characterMap[sn], pairs[sn])
  }

  /** The range taxon values of the short names in `order`. */
  function RangeTcvKeys(taxonId: int, pairs: map<string, Bounds>, order: seq<string>,
                        characterMap: map<string, int>): set<Record>
    requires forall sn :: sn in order ==> sn in pairs && sn in characterMap
  {
    set sn | sn in order :: TcvKey(taxonId, RangeId(characterMap[sn], pairs[sn]))
  }

  /** A range character value and a range taxon value per short name of
      `order`, and no other row. */
  lemma RangesKeys(st: CvState, taxonId: int, pairs: map<string, Bounds>, order: seq<string>,
                   characterMap: map<string, int>)
    requires forall sn :: sn in order ==> sn in pairs && sn in characterMap
    ensures Ranges(st, taxonId, pairs, order, characterMap).cv.Keys ==
      st.cv.Keys + RangeKeys(taxonId, pairs, order, characterMap)
    ensures Ranges(st, taxonId, pairs, order, characterMap).tcv.Keys ==
      st.tcv.Keys + RangeTcvKeys(taxonId, pairs, order, characterMap)
  {
    RangesCvKeys(st, taxonId, pairs, order, characterMap);
    RangesTcvKeys(st, taxonId, pairs, order, characterMap);
  }

  lemma {:induction false} RangesCvKeys(st: CvState, taxonId: int, pairs: map<string, Bounds>, order: seq<string>,
                                        characterMap: map<string, int>)
    requires forall sn :: sn in order ==> sn in pairs && sn in characterMap
    ensures Ranges(st, taxonId, pairs, order, characterMap).cv.Keys ==
      st.cv.Keys + RangeKeys(taxonId, pairs, order, characterMap)
    decreases |order|
  {
    if order != [] {
      var init := order[..|order| - 1];
      var sn := order[|order| - 1];
      var key := RangeKey(characterMap[sn], pairs[sn]);
      assert forall x :: x in init ==> x in order;
      var s := Ranges(st, taxonId, pairs, init, characterMap);
      assert Ranges(st, taxonId, pairs, order, characterMap).cv.Keys == s.cv.Keys + {key};
      RangesCvKeys(st, taxonId, pairs, init, characterMap);
      RangeKeysStep(taxonId, pairs, order, characterMap);
    }
  }

  lemma {:induction false} RangesTcvKeys(st: CvState, taxonId: int, pairs: map<string, Bounds>, order: seq<string>,
                                         characterMap: map<string, int>)
    requires forall sn :: sn in order ==> sn in pairs && sn in characterMap
    ensures Ranges(st, taxonId, pairs, order, characterMap).tcv.Keys ==
      st.tcv.Keys + RangeTcvKeys(taxonId, pairs, order, characterMap)
    decreases |order|
  {
    if order != [] {
      var init := order[..|order| - 1];
      var sn := order[|order| - 1];
      var key := TcvKey(taxonId, RangeId(characterMap[sn], pairs[sn]));
      assert forall x :: x in init ==> x in order;
      var s := Ranges(st, taxonId, pairs, init, characterMap);
      assert Ranges(st, taxonId, pairs, order, characterMap).tcv.Keys == s.tcv.Keys + {key};
      RangesTcvKeys(st, taxonId, pairs, init, characterMap);
      RangeKeysStep(taxonId, pairs, order, characterMap);
    }
  }

  /** The keys of the short names in `order`: those of all but the last, and
      the last one's. */
  lemma RangeKeysStep(taxonId: int, pairs: map<string, Bounds>, order: seq<string>, characterMap: map<string, int>)
    requires order != [] && forall sn :: sn in order ==> sn in pairs && sn in characterMap
    ensures var init := order[..|order| - 1];
      var sn := order[|order| - 1];
      (forall x :: x in init ==> x in order) &&
      RangeKeys(taxonId, pairs, order, characterMap) ==
        RangeKeys(taxonId, pairs, init, characterMap) + {RangeKey(characterMap[sn], pairs[sn])} &&
      RangeTcvKeys(taxonId, pairs, order, characterMap) ==
        RangeTcvKeys(taxonId, pairs, init, characterMap) + {TcvKey(taxonId, RangeId(characterMap[sn], pairs[sn]))}
  {
    var init := order[..|order| - 1];
    var sn := order[|order| - 1];
    assert forall x :: x in order <==> x in init || x == sn;
  }

  /** Every range character value is staged with an empty friendly text. */
  lemma {:induction false} RangeTextEmpty(st: CvState, taxonId: int, pairs: map<string, Bounds>, order: seq<string>,
                                          characterMap: map<string, int>, sn: string)
    requires forall x :: x in order ==> x in pairs && x in characterMap
    requires sn in order
    ensures RangeKey(characterMap[sn], pairs[sn]) in Ranges(st, taxonId, pairs, order, characterMap).cv
    ensures FieldOf(Ranges(st, taxonId, pairs, order, characterMap).cv[RangeKey(characterMap[sn], pairs[sn])],
                    "friendly_text") == Some(Str(""))
    decreases |order|
  {
    var init := order[..|order| - 1];
    var last := order[|order| - 1];
    var key := RangeKey(characterMap[sn], pairs[sn]);
    var lastKey := RangeKey(characterMap[last], pairs[last]);
    assert forall x :: x in init ==> x in order;
    var s := Ranges(st, taxonId, pairs, init, characterMap);
    var cv := Staged(s.cv, lastKey, map["friendly_text" := Str("")]);
    assert Ranges(st, taxonId, pairs, order, characterMap).cv == cv;
    if key != lastKey {
      assert sn != last && sn in init;
      RangeTextEmpty(st, taxonId, pairs, init, characterMap, sn);
      assert cv[key] == s.cv[key];
    }
  }

  /** The tables after one row: nothing for an unknown taxon; otherwise its
      cells, then a range value per short name in length_pairs. */
  function RowStep(st: CvState, row: TaxonValuesRow, taxonMap: map<string, int>, lk: Lookups): CvState
  {
    if row.scientificName !in taxonMap then st
    else
      var taxonId := taxonMap[row.scientificName];
      var rs := CellsStep(RowState(st, map[], []), taxonId, Classified(row.cells, lk), lk);
      Ranges(rs.st, taxonId, rs.pairs, rs.order, lk.characterMap)
  }

  /** The tables after the rows, one after the other. */
  function AllRows(st: CvState, rows: seq<TaxonValuesRow>, taxonMap: map<string, int>, lk: Lookups): CvState
    decreases |rows|
  {
    if rows == [] then st
    else RowStep(AllRows(st, rows[..|rows| - 1], taxonMap, lk), rows[|rows| - 1], taxonMap, lk)
  }

  /** _import_taxon_character_values over the rows of its files. */
  method ImportTaxonCharacterValues(rows: seq<TaxonValuesRow>, taxonMap: map<string, int>, lk: Lookups)
    returns (st: CvState)
    ensures st == AllRows(EmptyCvState, rows, taxonMap, lk)
  {
    st := EmptyCvState;
    for i := 0 to |rows|
      invariant st == AllRows(EmptyCvState, rows[..i], taxonMap, lk)
    {
      assert rows[..i + 1][..i] == rows[..i];
      st := ImportTaxonValuesRow(st, rows[i], taxonMap, lk);
    }
    assert rows[..|rows|] == rows;
  }

  /** One row: its cells, filling length_pairs slot by slot, then the range
      values. */
  method ImportTaxonValuesRow(st0: CvState, row: TaxonValuesRow, taxonMap: map<string, int>, lk: Lookups)
    returns (st: CvState)
    ensures st == RowStep(st0, row, taxonMap, lk)
  {
    st := st0;
    if row.scientificName !in taxonMap {
      return;
    }
    var taxonId := taxonMap[row.scientificName];
    var pairs, order;
    st, pairs, order := ImportCells(st0, taxonId, row.cells, lk);
    st := StageRanges(st, taxonId, pairs, order, lk.characterMap);
  }

  /** The loop over the cells of a row of a known taxon. */
  method ImportCells(st0: CvState, taxonId: int, cells: seq<(string, string)>, lk: Lookups)
    returns (st: CvState, pairs: map<string, Bounds>, order: seq<string>)
    ensures RowState(st, pairs, order) == CellsStep(RowState(st0, map[], []), taxonId, Classified(cells, lk), lk)
  {
    st, pairs, order := st0, map[], [];
    ghost var start := RowState(st0, map[], []);
    ghost var classified := Classified(cells, lk);
    for i := 0 to |cells|
      invariant KnownBounds(classified[..i], lk.characterMap)
      invariant RowState(st, pairs, order) == CellsStep(start, taxonId, classified[..i], lk)
    {
      CellsStepNext(start, taxonId, classified, lk, i);
      st, pairs, order := ImportCell(st, pairs, order, taxonId, cells[i].0, cells[i].1, lk);
    }
    assert classified[..|cells|] == classified;
  }

  /** The row state after one more cell. */
  lemma CellsStepNext(rs: RowState, taxonId: int, cells: seq<Cell>, lk: Lookups, i: nat)
    requires Tracked(rs, lk.characterMap) && KnownBounds(cells, lk.characterMap) && i < |cells|
    ensures KnownBounds(cells[..i], lk.characterMap) && KnownBounds(cells[..i + 1], lk.characterMap)
    ensures CellsStep(rs, taxonId, cells[..i + 1], lk) == CellStep(CellsStep(rs, taxonId, cells[..i], lk), taxonId, cells[i], lk)
  {
    assert forall k :: 0 <= k < i ==> cells[..i][k] == cells[k];
    assert forall k :: 0 <= k <= i ==> cells[..i + 1][k] == cells[k];
    assert cells[..i + 1][..i] == cells[..i];
  }

  /** The loop over length_pairs: a range value per short name. */
  method StageRanges(st0: CvState, taxonId: int, pairs: map<string, Bounds>, order: seq<string>,
                     characterMap: map<string, int>) returns (st: CvState)
    requires forall sn :: sn in order ==> sn in pairs && sn in characterMap
    ensures st == Ranges(st0, taxonId, pairs, order, characterMap)
  {
    st := st0;
    for i := 0 to |order|
      invariant st == Ranges(st0, taxonId, pairs, order[..i], characterMap)
    {
      assert order[..i + 1][..i] == order[..i];
      var shortName := order[i];
      var characterId := characterMap[shortName];
      var b := pairs[shortName];
      st := st.(cv := Staged(st.cv, RangeKey(characterId, b), map["friendly_text" := Str("")]),
                tcv := Touched(st.tcv, TcvKey(taxonId, RangeId(characterId, b))));
    }
    assert order[..|order|] == order;
  }

  /** One cell of a row: the body of the loop over row.items(). */
  method ImportCell(st0: CvState, pairs0: map<string, Bounds>, order0: seq<string>, taxonId: int,
                    name: string, v: string, lk: Lookups)
    returns (st: CvState, pairs: map<string, Bounds>, order: seq<string>)
    requires Tracked(RowState(st0, pairs0, order0), lk.characterMap)
    ensures RowState(st, pairs, order) == CellStep(RowState(st0, pairs0, order0), taxonId, Classify(name, v, lk), lk)
  {
    st, pairs, order := st0, pairs0, order0;
    var c := ClassifyCell(name, v, lk);
    match c
    case Skipped =>
    case UnknownCharacter(shortName) =>
      st := st.(unknownCharacters := st.unknownCharacters + {shortName});
    case BadFloat(x) =>
      st := st.(badFloatValues := st.badFloatValues + {x});
    case Bound(shortName, low, x) =>
      var pair := if shortName in pairs then pairs[shortName] else Bounds(None, None);
      if shortName !in pairs {
        order := order + [shortName];
      }
      pairs := pairs[shortName := if low then pair.(low := Some(x)) else pair.(high := Some(x))];
    case Listed(characterId, values) =>
      st := StageListedValues(st, taxonId, characterId, values, lk.cvMap);
  }

  /** The tests of the loop body, in the order the import makes them, each
      ending the cell's work early. */
  method ClassifyCell(name: string, v: string, lk: Lookups) returns (c: Cell)
    ensures c == Classify(name, v, lk)
  {
    if Strip(v, Whitespace) == [] {
      return Skipped;
    }
    if LastThree(name) !in lk.pileMap {
      return Skipped;
    }
    var shortName := CharacterShortName(name);
    if shortName !in lk.characterMap {
      return UnknownCharacter(shortName);
    }
    var isMin := IsMin(name);
    var isMax := IsMax(name);
    if isMin || isMax {
      if v == "n/a" {
        return Skipped;
      }
      var numv := lk.parseFloat(v);
      if numv.None? {
        return BadFloat(v);
      }
      return Bound(shortName, isMin, numv.value);
    }
    return Listed(lk.characterMap[shortName], Split(v, '|'));
  }

  /** The values of a text character cell. */
  method StageListedValues(st0: CvState, taxonId: int, characterId: int, values: seq<string>,
                           cvMap: map<(int, string), int>) returns (st: CvState)
    ensures st == ListedValues(st0, taxonId, characterId, StrippedValues(values), cvMap)
  {
    st := st0;
    var stripped := StrippedValues(values);
    for i := 0 to |stripped|
      invariant st == ListedValues(st0, taxonId, characterId, stripped[..i], cvMap)
    {
      ListedValuesNext(st0, taxonId, characterId, stripped, i, cvMap);
      var valueStr := stripped[i];
      var key := (characterId, valueStr);
      if key !in cvMap {
        st := st.(unknownCharacterValues := st.unknownCharacterValues + {key});
        continue;
      }
      st := st.(tcv := Touched(st.tcv, TcvKey(taxonId, Int(cvMap[key]))));
    }
    assert stripped[..|stripped|] == stripped;
  }

  /** The cell fills slot `low` of the pair of `shortName`. */
  predicate Fills(c: Cell, shortName: string, low: bool)
  {
    c.Bound? && c.shortName == shortName && c.low == low
  }

  /** A blank value, "n/a" in a range column and a value float() rejects
      leave length_pairs and the tables as they are. */
  lemma IgnoredCell(rs: RowState, taxonId: int, name: string, v: string, lk: Lookups)
    requires Tracked(rs, lk.characterMap)
    requires Strip(v, Whitespace) == [] || ((IsMin(name) || IsMax(name)) && (v == "n/a" || lk.parseFloat(v).None?))
    ensures var r := CellStep(rs, taxonId, Classify(name, v, lk), lk);
      r.pairs == rs.pairs && r.order == rs.order && r.st.tcv == rs.st.tcv && r.st.cv == rs.st.cv
  {
  }

  /** What one cell does to the pair of a short name: a cell filling one of
      its slots sets that slot and keeps the other; any other cell leaves the
      pair alone. */
  lemma CellPair(rs: RowState, taxonId: int, c: Cell, lk: Lookups, shortName: string)
    requires Tracked(rs, lk.characterMap) && (c.Bound? ==> c.shortName in lk.characterMap)
    ensures var r := CellStep(rs, taxonId, c, lk);
      forall low :: Fills(c, shortName, low) ==>
        shortName in r.pairs && Slot(r.pairs[shortName], low) == Some(c.x) &&
        Slot(r.pairs[shortName], !low) == Slot(PairOf(rs.pairs, shortName), !low)
    ensures var r := CellStep(rs, taxonId, c, lk);
      (!Fills(c, shortName, true) && !Fills(c, shortName, false)) ==>
        (shortName in r.pairs <==> shortName in rs.pairs) && PairOf(r.pairs, shortName) == PairOf(rs.pairs, shortName)
  {
  }

  /** The slot of a short name holds the value of the last cell that fills
      it: a "_min" column fills slot 0, a "_max" column slot 1. */
  lemma {:induction false} LastBoundWins(rs: RowState, taxonId: int, cells: seq<Cell>, lk: Lookups,
                                         k: int, shortName: string, low: bool)
    requires Tracked(rs, lk.characterMap) && KnownBounds(cells, lk.characterMap)
    requires 0 <= k < |cells| && Fills(cells[k], shortName, low)
    requires forall j :: k < j < |cells| ==> !Fills(cells[j], shortName, low)
    ensures shortName in CellsStep(rs, taxonId, cells, lk).pairs
    ensures Slot(CellsStep(rs, taxonId, cells, lk).pairs[shortName], low) == Some(cells[k].x)
    decreases |cells|
  {
    var init := cells[..|cells| - 1];
    var last := cells[|cells| - 1];
    assert forall j :: 0 <= j < |init| ==> init[j] == cells[j];
    var before := CellsStep(rs, taxonId, init, lk);
    var after := CellsStep(rs, taxonId, cells, lk);
    assert after == CellStep(before, taxonId, last, lk);
    CellPair(before, taxonId, last, lk, shortName);
    if k < |cells| - 1 {
      LastBoundWins(rs, taxonId, init, lk, k, shortName, low);
      assert !Fills(last, shortName, low);
      if Fills(last, shortName, !low) {
        assert Slot(after.pairs[shortName], low) == Slot(before.pairs[shortName], low);
      } else {
        assert after.pairs[shortName] == before.pairs[shortName];
      }
    }
  }

  /** A slot no cell fills stays None. */
  lemma {:induction false} UnfilledSlot(rs: RowState, taxonId: int, cells: seq<Cell>, lk: Lookups,
                                        shortName: string, low: bool)
    requires Tracked(rs, lk.characterMap) && KnownBounds(cells, lk.characterMap)
    requires shortName in rs.pairs ==> Slot(rs.pairs[shortName], low) == None
    requires forall j :: 0 <= j < |cells| ==> !Fills(cells[j], shortName, low)
    ensures var p := CellsStep(rs, taxonId, cells, lk).pairs;
      shortName in p ==> Slot(p[shortName], low) == None
    decreases |cells|
  {
    if cells != [] {
      var init := cells[..|cells| - 1];
      var last := cells[|cells| - 1];
      assert forall j :: 0 <= j < |init| ==> init[j] == cells[j];
      UnfilledSlot(rs, taxonId, init, lk, shortName, low);
      var before := CellsStep(rs, taxonId, init, lk);
      assert CellsStep(rs, taxonId, cells, lk) == CellStep(before, taxonId, last, lk);
      CellPair(before, taxonId, last, lk, shortName);
    }
  }

  /** length_pairs holds a short name exactly when some cell filled one of
      its slots. */
  lemma {:induction false} PairedIffBound(rs: RowState, taxonId: int, cells: seq<Cell>, lk: Lookups,
                                          shortName: string)
    requires Tracked(rs, lk.characterMap) && KnownBounds(cells, lk.characterMap)
    ensures shortName in CellsStep(rs, taxonId, cells, lk).pairs <==>
      shortName in rs.pairs || exists j :: 0 <= j < |cells| && cells[j].Bound? && cells[j].shortName == shortName
    decreases |cells|
  {
    if cells != [] {
      var init := cells[..|cells| - 1];
      var last := cells[|cells| - 1];
      assert forall j :: 0 <= j < |init| ==> init[j] == cells[j];
      PairedIffBound(rs, taxonId, init, lk, shortName);
      var before := CellsStep(rs, taxonId, init, lk);
      assert CellsStep(rs, taxonId, cells, lk) == CellStep(before, taxonId, last, lk);
      CellPair(before, taxonId, last, lk, shortName);
      if last.Bound? && last.shortName == shortName {
        assert Fills(last, shortName, last.low);
      }
    }
  }

  /** A row of a known taxon stages exactly one range character value per
      short name in length_pairs, even when one bound stayed None. */
  lemma OneRangePerShortName(st: CvState, row: TaxonValuesRow, taxonMap: map<string, int>, lk: Lookups)
    requires row.scientificName in taxonMap
    ensures var rs := CellsStep(RowState(st, map[], []), taxonMap[row.scientificName], Classified(row.cells, lk), lk);
      RowStep(st, row, taxonMap, lk).cv.Keys ==
        st.cv.Keys + set sn | sn in rs.pairs :: RangeKey(lk.characterMap[sn], rs.pairs[sn])
  {
    var rs := CellsStep(RowState(st, map[], []), taxonMap[row.scientificName], Classified(row.cells, lk), lk);
    RangesKeys(rs.st, taxonMap[row.scientificName], rs.pairs, rs.order, lk.characterMap);
    assert RangeKeys(taxonMap[row.scientificName], rs.pairs, rs.order, lk.characterMap) ==
           (set sn | sn in rs.pairs :: RangeKey(lk.characterMap[sn], rs.pairs[sn]));
  }

  // ---------------------------------------------------------------------
  // _import_characters

  /** The columns of characters.csv the import reads. */
  datatype CharacterRow = CharacterRow(
    character: string,
    units: string,
    characterGroup: string,
    easeOfObservability: string,
    friendlyText: string,
    hint: string,
    filterLabel: string)

  /** int(eoo), or 10 where int() raises ValueError. */
  function EaseOfObservability(eoo: string): (r: int)
    ensures (forall k :: 0 <= k < |eoo| ==> !IsDigit(eoo[k])) ==> r == 10
  {
    match ParseInt(eoo)
    case Some(n) => n
    case None => 10
  }

  /** The fields set on a character row. */
  function CharacterFields(row: CharacterRow, pileMap: map<string, int>): (r: Record)
    ensures forall name :: name in CharacterFieldNames ==> name in r
    ensures r["pile_id"] == Null <==> LastThree(row.character) !in pileMap
  {
    var isLength := IsMin(row.character) || IsMax(row.character);
    var common := CommonFields(row, pileMap);
    assert "pile_id"[0] != "value_type"[0] && "pile_id"[0] != "unit"[0];
    common["value_type" := Str(if isLength then "LENGTH" else "TEXT")]["unit" := Str(if isLength then row.units else "")]
  }

  /** The fields of a character row other than its type and unit; the pile
      is null for a suffix that names no pile. */
  function CommonFields(row: CharacterRow, pileMap: map<string, int>): (r: Record)
    ensures forall name :: name in CharacterFieldNames - {"value_type", "unit"} ==> name in r
    ensures r["pile_id"] == Null <==> LastThree(row.character) !in pileMap
  {
    var shortName := CharacterShortName(row.character);
    var suffix := LastThree(row.character);
    var pileId := if suffix in pileMap then Int(pileMap[suffix]) else Null;
    map["name" := Str(CreateCharacterName(shortName)),
        "friendly_name" := Str(FriendlyName(shortName, row.filterLabel)),
        "character_group_id" := Str(row.characterGroup),
        "ease_of_observability" := Int(EaseOfObservability(row.easeOfObservability)),
        "question" := Str(row.friendlyText),
        "hint" := Str(row.hint),
        "pile_id" := pileId]
  }

  /** The fields every character row is given. */
  const CharacterFieldNames: set<string> := {"name", "friendly_name", "character_group_id", "pile_id",
    "ease_of_observability", "question", "hint", "value_type", "unit"}

  /** The character group and character tables. */
  datatype CharacterTables = CharacterTables(groups: map<Record, Record>, characters: map<Record, Record>)

  /** The key of the character row of a characters.csv row. */
  function CharacterKey(row: CharacterRow): Record
  {
    Key1("short_name", Str(CharacterShortName(row.character)))
  }

  /** The character group table after the rows; a row whose character has
      no "_" (a family row) is ignored. */
  function GroupsStaged(groups: map<Record, Record>, rows: seq<CharacterRow>): (r: map<Record, Record>)
    ensures r.Keys == groups.Keys + set row | row in rows && '_' in row.character :: Key1("name", Str(row.characterGroup))
    decreases |rows|
  {
    if rows == [] then groups
    else
      var init := rows[..|rows| - 1];
      var row := rows[|rows| - 1];
      assert forall x :: x in rows <==> x in init || x == row;
      var s := GroupsStaged(groups, init);
      if '_' !in row.character then s else Touched(s, Key1("name", Str(row.characterGroup)))
  }

  /** The character table after the rows; again family rows are ignored. */
  function CharactersStaged(characters: map<Record, Record>, rows: seq<CharacterRow>, pileMap: map<string, int>)
    : map<Record, Record>
    decreases |rows|
  {
    if rows == [] then characters
    else
      var s := CharactersStaged(characters, rows[..|rows| - 1], pileMap);
      var row := rows[|rows| - 1];
      if '_' !in row.character then s else Staged(s, CharacterKey(row), CharacterFields(row, pileMap))
  }

  /** There is one character row per short name of a row that is not a
      family row, and no other. */
  lemma {:induction false} CharactersStagedKeys(characters: map<Record, Record>, rows: seq<CharacterRow>,
                                                pileMap: map<string, int>)
    ensures CharactersStaged(characters, rows, pileMap).Keys ==
      characters.Keys + set row | row in rows && '_' in row.character :: CharacterKey(row)
    decreases |rows|
  {
    if rows != [] {
      var init := rows[..|rows| - 1];
      var row := rows[|rows| - 1];
      assert forall x :: x in rows <==> x in init || x == row;
      CharactersStagedKeys(characters, init, pileMap);
    }
  }

  /** _import_characters over the rows of characters.csv. */
  method ImportCharacters(rows: seq<CharacterRow>, pileMap: map<string, int>) returns (t: CharacterTables)
    ensures t == CharacterTables(GroupsStaged(map[], rows), CharactersStaged(map[], rows, pileMap))
  {
    t := CharacterTables(map[], map[]);
    for i := 0 to |rows|
      invariant t == CharacterTables(GroupsStaged(map[], rows[..i]), CharactersStaged(map[], rows[..i], pileMap))
    {
      assert rows[..i + 1][..i] == rows[..i];
      var row := rows[i];
      if '_' !in row.character {
        continue;
      }
      var groups := Touched(t.groups, Key1("name", Str(row.characterGroup)));
      var characters := Staged(t.characters, CharacterKey(row), CharacterFields(row, pileMap));
      t := CharacterTables(groups, characters);
    }
    assert rows[..|rows|] == rows;
  }

  /** The character row of a short name carries the fields of the last row
      with that short name. */
  lemma LastCharacterRowWins(t: map<Record, Record>, rows: seq<CharacterRow>, pileMap: map<string, int>,
                             k: int, name: string)
    requires 0 <= k < |rows| && '_' in rows[k].character
    requires LastOfItsName(rows, k)
    requires name in CharacterFields(rows[k], pileMap)
    ensures CharacterKey(rows[k]) in CharactersStaged(t, rows, pileMap)
    ensures FieldOf(CharactersStaged(t, rows, pileMap)[CharacterKey(rows[k])], name) ==
      Some(CharacterFields(rows[k], pileMap)[name])
  {
    LaterRowsKeep(t, rows, pileMap, k);
    var upTo := rows[..k + 1];
    assert upTo[..k] == rows[..k];
    assert CharactersStaged(t, upTo, pileMap) ==
      Staged(CharactersStaged(t, rows[..k], pileMap), CharacterKey(rows[k]), CharacterFields(rows[k], pileMap));
  }

  /** Rows after row k with other short names leave the row of its short name alone. */
  lemma {:induction false} LaterRowsKeep(t: map<Record, Record>, rows: seq<CharacterRow>, pileMap: map<string, int>,
                                         k: int)
    requires 0 <= k < |rows| && '_' in rows[k].character
    requires LastOfItsName(rows, k)
    ensures CharacterKey(rows[k]) in CharactersStaged(t, rows[..k + 1], pileMap)
    ensures CharacterKey(rows[k]) in CharactersStaged(t, rows, pileMap)
    ensures CharactersStaged(t, rows, pileMap)[CharacterKey(rows[k])] ==
      CharactersStaged(t, rows[..k + 1], pileMap)[CharacterKey(rows[k])]
    decreases |rows|
  {
    var key := CharacterKey(rows[k]);
    StagedAtRow(t, rows, pileMap, k);
    if |rows| == k + 1 {
      assert rows[..k + 1] == rows;
    } else {
      var init := rows[..|rows| - 1];
      assert init[..k + 1] == rows[..k + 1] && init[k] == rows[k];
      LastOfItsNameInit(rows, k);
      LaterRowsKeep(t, init, pileMap, k);
      OtherRowKeeps(t, rows, pileMap, key);
    }
  }

  /** No row after row k that is not a family row has its short name. */
  predicate LastOfItsName(rows: seq<CharacterRow>, k: int)
    requires 0 <= k < |rows|
  {
    forall j :: k < j < |rows| && '_' in rows[j].character ==> CharacterKey(rows[j]) != CharacterKey(rows[k])
  }

  lemma LastOfItsNameInit(rows: seq<CharacterRow>, k: int)
    requires 0 <= k < |rows| - 1 && LastOfItsName(rows, k)
    ensures LastOfItsName(rows[..|rows| - 1], k)
    ensures '_' in rows[|rows| - 1].character ==> CharacterKey(rows[|rows| - 1]) != CharacterKey(rows[k])
  {
    var init := rows[..|rows| - 1];
    forall j | k < j < |init| && '_' in init[j].character ensures CharacterKey(init[j]) != CharacterKey(init[k]) {
      assert init[j] == rows[j] && init[k] == rows[k];
    }
  }

  /** Row k stages the character of its short name. */
  lemma StagedAtRow(t: map<Record, Record>, rows: seq<CharacterRow>, pileMap: map<string, int>, k: int)
    requires 0 <= k < |rows| && '_' in rows[k].character
    ensures CharacterKey(rows[k]) in CharactersStaged(t, rows[..k + 1], pileMap)
  {
    var upTo := rows[..k + 1];
    assert upTo[..k] == rows[..k] && upTo[k] == rows[k];
  }

  /** A last row of another short name, or a family row, keeps the row of `key`. */
  lemma OtherRowKeeps(t: map<Record, Record>, rows: seq<CharacterRow>, pileMap: map<string, int>, key: Record)
    requires rows != [] && key in CharactersStaged(t, rows[..|rows| - 1], pileMap)
    requires '_' in rows[|rows| - 1].character ==> CharacterKey(rows[|rows| - 1]) != key
    ensures key in CharactersStaged(t, rows, pileMap)
    ensures CharactersStaged(t, rows, pileMap)[key] == CharactersStaged(t, rows[..|rows| - 1], pileMap)[key]
  {
  }

  /** A length column (its name holds "_min" or "_max") is staged with type
      LENGTH and the row's unit; any other column as TEXT with no unit. */
  lemma ValueTypeOfColumn(row: CharacterRow, pileMap: map<string, int>)
    ensures var fields := CharacterFields(row, pileMap);
      (fields["value_type"] == Str("LENGTH") <==> IsMin(row.character) || IsMax(row.character)) &&
      (fields["value_type"] == Str("TEXT") <==> !IsMin(row.character) && !IsMax(row.character)) &&
      fields["unit"] == Str(if IsMin(row.character) || IsMax(row.character) then row.units else "")
  {
    var fields := CharacterFields(row, pileMap);
    var isLength := IsMin(row.character) || IsMax(row.character);
    assert fields["value_type"] == Str(if isLength then "LENGTH" else "TEXT") &&
           fields["unit"] == Str(if isLength then row.units else "") by {
      FieldsOfCharacter(row, pileMap);
    }
    LengthIsNotText();
  }

  lemma FieldsOfCharacter(row: CharacterRow, pileMap: map<string, int>)
    ensures var isLength := IsMin(row.character) || IsMax(row.character);
      var fields := CharacterFields(row, pileMap);
      fields["value_type"] == Str(if isLength then "LENGTH" else "TEXT") &&
      fields["unit"] == Str(if isLength then row.units else "")
  {
    assert "value_type"[0] != "unit"[0];
  }

  lemma LengthIsNotText()
    ensures Str("LENGTH") != Str("TEXT")
  {
    assert "LENGTH"[0] != "TEXT"[0];
  }

  /** An ease of observability written by str() is read back. */
  lemma EaseOfObservabilityOfIntString(n: int)
    ensures EaseOfObservability(IntString(n)) == n
  {
    ParseIntOfIntString(n);
  }

  /** "- 3" reads as -3: int() allows whitespace between the sign and the digits. */
  lemma EaseOfObservabilitySpacedSign(sign: char, ws: string, n: nat)
    requires sign == '+' || sign == '-'
    requires forall i :: 0 <= i < |ws| ==> ws[i] in Whitespace
    ensures EaseOfObservability([sign] + ws + Decimal(n)) == if sign == '-' then -(n as int) else n
  {
    ParseIntSpacedSign(sign, ws, n);
  }

  // ---------------------------------------------------------------------
  // _import_character_values

  /** The columns of character_values.csv the import reads. */
  datatype CharacterValueRow = CharacterValueRow(character: string, characterValue: string, friendlyText: string)

  /** Python's name.rsplit('_', 1)[1]: the text after the last "_". */
  function PileSuffixOf(name: string): (r: string)
    ensures '_' !in r
  {
    var parts := Split(name, '_');
    parts[|parts| - 1]
  }

  /** _clean_up_html: every "&nbsp;" deleted, then the <font> tags by
      `dropFontTags` (the regular expression substitution). */
  function CleanUpHtml(html: string, dropFontTags: string -> string): (r: string)
    ensures exists cleaned :: |cleaned| <= |html| && r == dropFontTags(cleaned)
  {
    ReplaceByEmptyShrinks(html, "&nbsp;");
    dropFontTags(Replace(html, "&nbsp;", []))
  }

  /** The key of the character value a row stages, None for a row the import
      skips: the family row, a name with no "_", a suffix that names no pile,
      or a character the database does not know. */
  function ValueRowKey(row: CharacterValueRow, pileSuffixes: set<string>, characterMap: map<string, int>): (r: Option<Record>)
    ensures r.Some? ==> row.character != "family" && '_' in row.character && PileSuffixOf(row.character) in pileSuffixes
    ensures r.Some? <==> (row.character != "family" && '_' in row.character &&
      PileSuffixOf(row.character) in pileSuffixes && CharacterShortName(row.character) in characterMap)
  {
    var name := row.character;
    if name == "family" || '_' !in name then None
    else if PileSuffixOf(name) !in pileSuffixes then None
    else
      var shortName := CharacterShortName(name);
      if shortName !in characterMap then None
      else Some(Key2("character_id", Int(characterMap[shortName]), "value_str", Str(row.characterValue)))
  }

  /** The keys of the character values that the rows stage. */
  ghost function ValueKeys(rows: seq<CharacterValueRow>, pileSuffixes: set<string>,
                           characterMap: map<string, int>): set<Record>
  {
    set row | row in rows && ValueRowKey(row, pileSuffixes, characterMap).Some? ::
      ValueRowKey(row, pileSuffixes, characterMap).value
  }

  /** One more row adds its key, if it has one, to the staged keys. */
  lemma ValueKeysNext(rows: seq<CharacterValueRow>, pileSuffixes: set<string>, characterMap: map<string, int>)
    requires rows != []
    ensures ValueKeys(rows, pileSuffixes, characterMap) ==
      ValueKeys(rows[..|rows| - 1], pileSuffixes, characterMap) +
      (match ValueRowKey(rows[|rows| - 1], pileSuffixes, characterMap)
       case None => {}
       case Some(key) => {key})
  {
    var init := rows[..|rows| - 1];
    assert forall x :: x in rows <==> x in init || x == rows[|rows| - 1];
  }

  /** The character value table after the rows, one after the other. */
  function ValuesStaged(cv: map<Record, Record>, rows: seq<CharacterValueRow>, pileSuffixes: set<string>,
                        characterMap: map<string, int>, dropFontTags: string -> string): (r: map<Record, Record>)
    ensures r.Keys == cv.Keys + ValueKeys(rows, pileSuffixes, characterMap)
    decreases |rows|
  {
    if rows == [] then cv
    else
      var init := rows[..|rows| - 1];
      var row := rows[|rows| - 1];
      ValueKeysNext(rows, pileSuffixes, characterMap);
      var s := ValuesStaged(cv, init, pileSuffixes, characterMap, dropFontTags);
      match ValueRowKey(row, pileSuffixes, characterMap)
      case None => s
      case Some(key) => Staged(s, key, map["friendly_text" := Str(CleanUpHtml(row.friendlyText, dropFontTags))])
  }

  /** One more row stages its value, if it has a key, on the table of the rows before it. */
  lemma ValuesStagedNext(rows: seq<CharacterValueRow>, pileSuffixes: set<string>,
                         characterMap: map<string, int>, dropFontTags: string -> string)
    requires rows != []
    ensures var row := rows[|rows| - 1];
      var s := ValuesStaged(map[], rows[..|rows| - 1], pileSuffixes, characterMap, dropFontTags);
      ValuesStaged(map[], rows, pileSuffixes, characterMap, dropFontTags) ==
        match ValueRowKey(row, pileSuffixes, characterMap)
        case None => s
        case Some(key) => Staged(s, key, map["friendly_text" := Str(CleanUpHtml(row.friendlyText, dropFontTags))])
  {
  }

  /** _import_character_values over the rows of its file. */
  method ImportCharacterValues(rows: seq<CharacterValueRow>, pileSuffixes: set<string>,
                               characterMap: map<string, int>, dropFontTags: string -> string)
    returns (cv: map<Record, Record>)
    ensures cv == ValuesStaged(map[], rows, pileSuffixes, characterMap, dropFontTags)
  {
    cv := map[];
    for i := 0 to |rows|
      invariant cv == ValuesStaged(map[], rows[..i], pileSuffixes, characterMap, dropFontTags)
    {
      ValuesStagedNext(rows[..i + 1], pileSuffixes, characterMap, dropFontTags);
      assert rows[..i + 1][..i] == rows[..i];
      var name := rows[i].character;
      if name == "family" {
        continue;
      }
      if '_' !in name {
        continue;
      }
      var pileSuffix := PileSuffixOf(name);
      if pileSuffix !in pileSuffixes {
        continue;
      }
      var shortName := CharacterShortName(name);
      if shortName !in characterMap {
        continue;
      }
      cv := Staged(cv, Key2("character_id", Int(characterMap[shortName]), "value_str", Str(rows[i].characterValue)),
                   map["friendly_text" := Str(CleanUpHtml(rows[i].friendlyText, dropFontTags))]);
    }
    assert rows[..|rows|] == rows;
  }

  /** The suffix is what follows the last "_" of a name that has one. */
  lemma PileSuffixEnds(name: string)
    requires '_' in name
    ensures exists prefix :: name == prefix + "_" + PileSuffixOf(name)
  {
    var parts := Split(name, '_');
    JoinSplit(name, '_');
    assert |parts| >= 2;
    var n := |parts| - 1;
    JoinLast(parts, "_");
    assert name == Join(parts[..n], "_") + "_" + parts[n];
  }

  /** Text with no "&nbsp;" reaches the tag remover unchanged. */
  lemma CleanUpHtmlWithoutSpaces(html: string, dropFontTags: string -> string)
    requires !Contains(html, "&nbsp;")
    ensures CleanUpHtml(html, dropFontTags) == dropFontTags(html)
  {
    ReplaceAbsent(html, "&nbsp;", []);
  }
}
