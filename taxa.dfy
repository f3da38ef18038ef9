/** The per-row decisions of _import_taxa (gobotany/core/importer.py): header
    checks, native/introduced flags, the wetland indicator, placeholder
    families and genera, pile membership, common names and synonyms. */
module Taxa {
  import opened Wrappers
  import opened Text
  import opened Staging
  import opened Status
  import opened Names

  // ---------------------------------------------------------------------
  // Header checks

  const RequiredColumns: seq<string> := ["distribution", "invasive_in_which_states", "prohibited_from_sale_states", "habitat"]

  /** The required columns missing from the header, each logged as an error. */
  function MissingColumns(required: seq<string>, colnames: seq<string>): (r: seq<string>)
    ensures forall c :: c in r <==> c in required && c !in colnames
  {
    if required == [] then []
    else if required[0] in colnames then MissingColumns(required[1..], colnames)
    else [required[0]] + MissingColumns(required[1..], colnames)
  }

  const ExpectedDelimiter: string := "| "

  /** The delimiter check of one multi-value column, row by row: found as soon
      as a value holds "| " past its first character; a row without the
      column raises KeyError. */
  function DelimiterCheck(rows: seq<map<string, string>>, column: string): Result<bool, string>
  {
    if rows == [] then Ok(false)
    else if column !in rows[0] then Err("KeyError")
    else if Find(rows[0][column], ExpectedDelimiter) > 0 then Ok(true)
    else DelimiterCheck(rows[1..], column)
  }

  /** The check's loop, which stops at the first row with the delimiter. */
  method DelimiterFound(rows: seq<map<string, string>>, column: string) returns (r: Result<bool, string>)
    ensures r == DelimiterCheck(rows, column)
  {
    for i := 0 to |rows|
      invariant DelimiterCheck(rows[i..], column) == DelimiterCheck(rows, column)
    {
      assert rows[i..][1..] == rows[i + 1..];
      if column !in rows[i] {
        return Err("KeyError");
      }
      if Find(rows[i][column], ExpectedDelimiter) > 0 {
        return Ok(true);
      }
    }
    r := Ok(false);
  }

  /** When every row has the column, the delimiter is found exactly when
      some value holds it past its first character. */
  lemma {:induction false} DelimiterCheckIff(rows: seq<map<string, string>>, column: string)
    requires forall k :: 0 <= k < |rows| ==> column in rows[k]
    ensures DelimiterCheck(rows, column) == Ok(exists k :: 0 <= k < |rows| && Find(rows[k][column], ExpectedDelimiter) > 0)
    decreases |rows|
  {
    if rows != [] {
      DelimiterCheckIff(rows[1..], column);
      assert forall k :: 1 <= k < |rows| ==> rows[k] == rows[1..][k - 1];
    }
  }

  /** A value that starts with the delimiter does not count: find returns 0. */
  lemma DelimiterAtStartIgnored(value: string)
    ensures Find(ExpectedDelimiter + value, ExpectedDelimiter) == 0
  {
    FindZeroIffStartsWith(ExpectedDelimiter + value, ExpectedDelimiter);
  }

  // ---------------------------------------------------------------------
  // Row derivations

  /** north_american_native and north_american_introduced: both None for an
      empty value; otherwise native when "yes" and introduced when "no"
      appears, ignoring case. */
  function NativeFlags(value: string): (r: (Option<bool>, Option<bool>))
    ensures r.0.None? <==> value == []
    ensures r.1.None? <==> value == []
  {
    var v := Lower(value);
    if |v| > 0 then (Some(Contains(v, "yes")), Some(Contains(v, "no"))) else (None, None)
  }

  /** The flags do not depend on the case of the value. */
  lemma NativeFlagsIgnoreCase(value: string)
    ensures NativeFlags(Upper(value)) == NativeFlags(value)
  {
    assert Lower(Upper(value)) == Lower(value);
  }

  /** A value holding both answers marks the plant both native and introduced. */
  lemma NativeAndIntroduced(a: string, b: string, c: string)
    ensures NativeFlags(a + "yes" + b + "no" + c) == (Some(true), Some(true))
  {
    var v := a + "yes" + b + "no" + c;
    var lv := Lower(v);
    assert OccursAt(lv, "yes", |a|) by {
      assert lv[|a|..|a| + 3] == Lower(v[|a|..|a| + 3]);
    }
    assert OccursAt(lv, "no", |a| + 3 + |b|) by {
      assert lv[|a| + 3 + |b|..|a| + 5 + |b|] == Lower(v[|a| + 3 + |b|..|a| + 5 + |b|]);
    }
  }

  /** The wetland indicator code and text: the first "|"-separated code,
      stripped, looked up in the indicator table (KeyError when unknown);
      none for an empty or "unclassified" status. */
  function Wetland(status: string, indicators: map<string, string>): (r: Result<(Option<string>, Option<string>), string>)
    ensures r.Ok? && r.value.0.Some? ==>
      ('|' !in r.value.0.value && r.value.0.value in indicators && r.value.1 == Some(indicators[r.value.0.value]))
  {
    if status != [] && Lower(status) != "unclassified" then
      var code := Strip(Split(status, '|')[0], Whitespace);
      StripKeepsOut(Split(status, '|')[0], Whitespace, '|');
      if code in indicators then Ok((Some(code), Some(indicators[code]))) else Err("KeyError")
    else Ok((None, None))
  }

  /** Of several codes the first one is taken. */
  lemma WetlandFirstCode(codes: seq<string>, indicators: map<string, string>)
    requires |codes| >= 1 && forall k :: 0 <= k < |codes| ==> '|' !in codes[k]
    requires codes[0] != [] && codes[0][0] !in Whitespace && codes[0][|codes[0]| - 1] !in Whitespace
    requires Lower(Join(codes, "|")) != "unclassified"
    ensures Wetland(Join(codes, "|"), indicators) ==
      if codes[0] in indicators then Ok((Some(codes[0]), Some(indicators[codes[0]]))) else Err("KeyError")
  {
    var status := Join(codes, "|");
    SplitJoin(codes, '|');
    JoinPrefix(codes, "|", 1);
    assert codes[..1] == [codes[0]];
    assert status != [];
    StripClean(codes[0], Whitespace);
  }

  /** The slugs of the piles named in the pile column: re.split on ",", ";"
      and "|", each piece stripped and slugified; none for an empty column. */
  function PileSlugs(pile: string, slugify: string -> string): (r: seq<string>)
    ensures pile != [] ==> |r| == |SplitAny(pile, PileSeparators)|
    ensures pile != [] ==> forall k :: 0 <= k < |r| ==>
      r[k] == slugify(Strip(SplitAny(pile, PileSeparators)[k], Whitespace))
  {
    if pile == [] then []
    else
      var pieces := SplitAny(pile, PileSeparators);
      seq(|pieces|, k requires 0 <= k < |pieces| => slugify(Strip(pieces[k], Whitespace)))
  }

  const PileSeparators: set<char> := {',', ';', '|'}

  /** A pile list written with any one separator is read back pile by pile. */
  lemma PileNamesOfJoin(names: seq<string>, sep: char, slugify: string -> string)
    requires sep in PileSeparators && |names| >= 1
    requires forall k :: 0 <= k < |names| ==> names[k] != [] && NoneOf(names[k], PileSeparators)
    requires forall k :: 0 <= k < |names| ==> names[k][0] !in Whitespace && names[k][|names[k]| - 1] !in Whitespace
    ensures PileSlugs(Join(names, [sep]), slugify) == seq(|names|, k requires 0 <= k < |names| => slugify(names[k]))
  {
    var pile := Join(names, [sep]);
    SplitAnyJoin(names, sep, PileSeparators);
    JoinPrefix(names, [sep], 1);
    assert names[..1] == [names[0]];
    assert pile != [];
    var r := PileSlugs(pile, slugify);
    forall k | 0 <= k < |names| ensures r[k] == slugify(names[k]) {
      StripClean(names[k], Whitespace);
    }
  }

  /** The pile ids of the pile column, or KeyError for a pile slug the pile
      map does not know. */
  function PileIds(slugs: seq<string>, pileIds: map<string, int>): (r: Result<seq<int>, string>)
    ensures r.Ok? <==> forall k :: 0 <= k < |slugs| ==> slugs[k] in pileIds
    ensures r.Ok? ==> |r.value| == |slugs| && forall k :: 0 <= k < |slugs| ==> r.value[k] == pileIds[slugs[k]]
  {
    if slugs == [] then Ok([])
    else if slugs[0] !in pileIds then Err("KeyError")
    else match PileIds(slugs[1..], pileIds)
      case Err(e) => Err(e)
      case Ok(rest) => Ok([pileIds[slugs[0]]] + rest)
  }

  /** The common names of a row: each of the two columns, stripped, when not empty. */
  function CommonNames(name1: string, name2: string): (r: seq<string>)
    ensures forall n :: n in r <==> n != [] && (n == Strip(name1, Whitespace) || n == Strip(name2, Whitespace))
  {
    NonEmpty([Strip(name1, Whitespace), Strip(name2, Whitespace)])
  }

  /** The ";"-separated names of the comment column, stripped. */
  function StrippedNames(comment: string): (r: seq<string>)
    ensures |r| == |Split(comment, ';')|
    ensures forall k :: 0 <= k < |r| ==> r[k] == Strip(Split(comment, ';')[k], Whitespace)
  {
    var names := Split(comment, ';');
    seq(|names|, k requires 0 <= k < |names| => Strip(names[k], Whitespace))
  }

  /** The synonyms listed in the comment column: each stripped name with the
      scientific name made from it, unless that comes out empty or starting
      with a space. */
  function Synonyms(comment: string): (r: seq<(string, string)>)
    ensures forall p :: p in r <==>
      p.1 in StrippedNames(comment) && p.0 == StripAuthority(p.1) && p.0 != [] && !StartsWith(p.0, " ")
  {
    KeptSynonyms(StrippedNames(comment))
  }

  /** The pairs (scientific name, full name) kept from the stripped names. */
  function KeptSynonyms(names: seq<string>): (r: seq<(string, string)>)
    ensures forall p :: p in r <==> p.1 in names && p.0 == StripAuthority(p.1) && p.0 != [] && !StartsWith(p.0, " ")
  {
    if names == [] then []
    else
      var sci := StripAuthority(names[0]);
      var rest := KeptSynonyms(names[1..]);
      assert forall n :: n in names <==> n == names[0] || n in names[1..];
      if sci == [] || StartsWith(sci, " ") then rest else [(sci, names[0])] + rest
  }

  // ---------------------------------------------------------------------
  // The row import

  /** The columns of a taxa.csv row the import reads; the status columns
      stay a map because the status code lookup can fail. */
  datatype TaxonRow = TaxonRow(
    family: string,
    scientificName: string,
    varietyNotes: Option<string>,      // None where the file predates the column
    taxonomicAuthority: string,
    habitat: string,
    factoid: string,
    wetlandStatus: string,
    nativeToNorthAmerica: string,
    distribution: string,
    invasiveInStates: string,
    prohibitedInStates: string,
    simpleKey: string,
    pile: string,
    commonName1: string,
    commonName2: string,
    comment: string,
    conservation: map<string, string>)

  /** Why a row stops the import, if it does: a name with no word, an
      unknown wetland code, a missing status column or an unknown pile. */
  function RowError(row: TaxonRow, slugify: string -> string, pileIds: map<string, int>,
                    indicators: map<string, string>): Option<string>
  {
    if Words(row.scientificName) == [] then Some("IndexError")
    else if Wetland(row.wetlandStatus, indicators).Err? then Some("KeyError")
    else if !(forall st :: st in States ==> StatusColumn(st) in row.conservation) then Some("KeyError")
    else if PileIds(PileSlugs(row.pile, slugify), pileIds).Err? then Some("KeyError")
    else None
  }

  /** Option<string> and Option<bool> as staged values. */
  function StrOrNull(o: Option<string>): Value
  {
    if o.Some? then Str(o.value) else Null
  }

  function BoolOrNull(o: Option<bool>): Value
  {
    if o.Some? then Bool(o.value) else Null
  }

  /** The fields set on the taxon row. */
  function TaxonFields(row: TaxonRow, familySlug: string, genusSlug: string,
                       wetland: (Option<string>, Option<string>)): Record
  {
    var native := NativeFlags(row.nativeToNorthAmerica);
    map[
      "family_id" := Str(familySlug),
      "genus_id" := Str(genusSlug),
      "taxonomic_authority" := Str(row.taxonomicAuthority),
      "habitat" := Str(row.habitat),
      "habitat_general" := Str(""),
      "factoid" := Str(row.factoid),
      "wetland_indicator_code" := StrOrNull(wetland.0),
      "wetland_indicator_text" := StrOrNull(wetland.1),
      "north_american_native" := BoolOrNull(native.0),
      "north_american_introduced" := BoolOrNull(native.1),
      "distribution" := Str(row.distribution),
      "invasive_in_states" := Str(row.invasiveInStates),
      "sale_prohibited_in_states" := Str(row.prohibitedInStates),
      "description" := Str(""),
      "variety_notes" := Str(if row.varietyNotes.Some? then row.varietyNotes.value else "")]
  }

  /** The status field of every state, as _get_all_states_status computes it. */
  function StatusFields(statuses: map<string, string>): (r: Record)
    requires forall st :: st in States ==> st in statuses
    ensures forall st :: st in States ==> StatusColumn(st) in r && r[StatusColumn(st)] == Str(statuses[st])
  {
    var r := map[
      StatusColumn("CT") := Str(statuses["CT"]),
      StatusColumn("MA") := Str(statuses["MA"]),
      StatusColumn("ME") := Str(statuses["ME"]),
      StatusColumn("NH") := Str(statuses["NH"]),
      StatusColumn("RI") := Str(statuses["RI"]),
      StatusColumn("VT") := Str(statuses["VT"])];
    assert StatusColumn("CT") == "conservation_status_ct";
    assert StatusColumn("MA") == "conservation_status_ma";
    assert StatusColumn("ME") == "conservation_status_me";
    assert StatusColumn("NH") == "conservation_status_nh";
    assert StatusColumn("RI") == "conservation_status_ri";
    assert StatusColumn("VT") == "conservation_status_vt";
    r
  }

  /** Every key touched in turn. */
  function TouchAll(rows: map<Record, Record>, keys: seq<Record>): (r: map<Record, Record>)
    ensures r.Keys == rows.Keys + set k | k in keys
    ensures forall k :: k in rows ==> r[k] == rows[k]
    decreases |keys|
  {
    if keys == [] then rows else Touched(TouchAll(rows, keys[..|keys| - 1]), keys[|keys| - 1])
  }

  /** Every synonym staged in turn with its full name. */
  function StageSynonyms(rows: map<Record, Record>, pairs: seq<(string, string)>, taxon: string): (r: map<Record, Record>)
    ensures r.Keys == rows.Keys + set p | p in pairs :: Key2("scientific_name", Str(p.0), "taxon_id", Str(taxon))
    decreases |pairs|
  {
    if pairs == [] then rows
    else
      var p := pairs[|pairs| - 1];
      var init := pairs[..|pairs| - 1];
      assert forall q :: q in pairs <==> q in init || q == p;
      Staged(StageSynonyms(rows, init, taxon), Key2("scientific_name", Str(p.0), "taxon_id", Str(taxon)),
             map["full_name" := Str(p.1)])
  }

  /** The staging tables _import_taxa fills, one map of rows each. */
  datatype Tables = Tables(
    families: map<Record, Record>,
    genera: map<Record, Record>,
    taxa: map<Record, Record>,
    partnerSpecies: map<Record, Record>,
    pileSpecies: map<Record, Record>,
    commonNames: map<Record, Record>,
    synonyms: map<Record, Record>)

  /** The import's staging area: the tables are updated row by row. */
  class TaxaStaging {
    var tables: Tables

    constructor()
      ensures tables == Tables(map[], map[], map[], map[], map[], map[], map[])
    {
      tables := Tables(map[], map[], map[], map[], map[], map[], map[]);
    }

    /** One row of _import_taxa. `familyIds` and `genusIds` are the slugs
        already in the database; `pileIds` maps pile slugs to ids. A row the
        import fails on leaves the error and, the import being aborted, no
        tables worth stating. */
    method ImportTaxonRow(row: TaxonRow, slugify: string -> string, familyIds: set<string>, genusIds: set<string>,
                          pileIds: map<string, int>, indicators: map<string, string>, gobotanyId: int)
      returns (err: Option<string>)
      modifies this
      ensures err == RowError(row, slugify, pileIds, indicators)
      ensures err.None? ==> tables == RowStaged(old(tables), row, slugify, familyIds, genusIds, pileIds, indicators, gobotanyId)
    {
      err := RowError(row, slugify, pileIds, indicators);
      if err.Some? {
        return;
      }
      var familySlug := slugify(row.family);
      var genusSlug := slugify(Genus(row));
      var name := row.scientificName;
      StageTaxonRows(row, familySlug, familyIds, genusSlug, genusIds, indicators, gobotanyId);
      StagePiles(PileIds(PileSlugs(row.pile, slugify), pileIds).value, name);
      StageCommonNames(CommonNames(row.commonName1, row.commonName2), name);
      StageSynonymList(Synonyms(row.comment), name);
    }

    /** The family and genus placeholders, the taxon with its state statuses,
        and its entry for the partner site. */
    method StageTaxonRows(row: TaxonRow, familySlug: string, familyIds: set<string>, genusSlug: string,
                          genusIds: set<string>, indicators: map<string, string>, gobotanyId: int)
      requires Words(row.scientificName) != []
      requires Wetland(row.wetlandStatus, indicators).Ok?
      requires forall st :: st in States ==> StatusColumn(st) in row.conservation
      modifies this
      ensures tables == old(tables).(
        families := Placeholder(old(tables).families, familySlug, familyIds, FamilyFields(row.family)),
        genera := Placeholder(old(tables).genera, genusSlug, genusIds, GenusFields(Genus(row), familySlug)),
        taxa := StagedTaxon(old(tables).taxa, row, familySlug, genusSlug, indicators),
        partnerSpecies := Staged(old(tables).partnerSpecies, PartnerKey(row.scientificName, gobotanyId),
                                 map["simple_key" := Bool(row.simpleKey == "TRUE")]))
    {
      var genusName := Genus(row);
      var name := row.scientificName;
      if familySlug !in familyIds {
        tables := tables.(families := Staged(tables.families, Key1("slug", Str(familySlug)), FamilyFields(row.family)));
      }
      if genusSlug !in genusIds {
        tables := tables.(genera := Staged(tables.genera, Key1("slug", Str(genusSlug)), GenusFields(genusName, familySlug)));
      }
      var key := Key1("scientific_name", Str(name));
      tables := tables.(taxa := Staged(tables.taxa, key, TaxonFields(row, familySlug, genusSlug,
                                                                     Wetland(row.wetlandStatus, indicators).value)));
      var statuses := GetAllStatesStatus(row.distribution, row.invasiveInStates, row.prohibitedInStates, row.conservation);
      tables := tables.(taxa := Staged(tables.taxa, key, StatusFields(statuses.value)));
      tables := tables.(partnerSpecies := Staged(tables.partnerSpecies, PartnerKey(name, gobotanyId),
                                                 map["simple_key" := Bool(row.simpleKey == "TRUE")]));
    }

    /** The taxon joins each of its piles. */
    method StagePiles(ids: seq<int>, name: string)
      modifies this
      ensures tables == old(tables).(pileSpecies := TouchAll(old(tables).pileSpecies, PileKeys(ids, name)))
    {
      ghost var keys := PileKeys(ids, name);
      for i := 0 to |ids|
        invariant tables == old(tables).(pileSpecies := TouchAll(old(tables).pileSpecies, keys[..i]))
      {
        assert keys[..i + 1][..i] == keys[..i];
        tables := tables.(pileSpecies := Touched(tables.pileSpecies, Key2("pile_id", Int(ids[i]), "taxon_id", Str(name))));
      }
      assert keys[..|ids|] == keys;
    }

    /** Each common name is recorded for the taxon. */
    method StageCommonNames(common: seq<string>, name: string)
      modifies this
      ensures tables == old(tables).(commonNames := TouchAll(old(tables).commonNames, CommonNameKeys(common, name)))
    {
      ghost var keys := CommonNameKeys(common, name);
      for i := 0 to |common|
        invariant tables == old(tables).(commonNames := TouchAll(old(tables).commonNames, keys[..i]))
      {
        assert keys[..i + 1][..i] == keys[..i];
        tables := tables.(commonNames := Touched(tables.commonNames,
                                                 Key2("common_name", Str(common[i]), "taxon_id", Str(name))));
      }
      assert keys[..|common|] == keys;
    }

    /** Each synonym is recorded for the taxon with its full name. */
    method StageSynonymList(pairs: seq<(string, string)>, name: string)
      modifies this
      ensures tables == old(tables).(synonyms := StageSynonyms(old(tables).synonyms, pairs, name))
    {
      for i := 0 to |pairs|
        invariant tables == old(tables).(synonyms := StageSynonyms(old(tables).synonyms, pairs[..i], name))
      {
        assert pairs[..i + 1][..i] == pairs[..i];
        tables := tables.(synonyms := Staged(tables.synonyms, Key2("scientific_name", Str(pairs[i].0), "taxon_id", Str(name)),
                                             map["full_name" := Str(pairs[i].1)]));
      }
      assert pairs[..|pairs|] == pairs;
    }
  }

  /** The tables after one row that raises no error. */
  function RowStaged(t: Tables, row: TaxonRow, slugify: string -> string, familyIds: set<string>, genusIds: set<string>,
                     pileIds: map<string, int>, indicators: map<string, string>, gobotanyId: int): Tables
    requires RowError(row, slugify, pileIds, indicators).None?
  {
    var familySlug := slugify(row.family);
    var genusSlug := slugify(Genus(row));
    var name := row.scientificName;
    Tables(
      Placeholder(t.families, familySlug, familyIds, FamilyFields(row.family)),
      Placeholder(t.genera, genusSlug, genusIds, GenusFields(Genus(row), familySlug)),
      StagedTaxon(t.taxa, row, familySlug, genusSlug, indicators),
      Staged(t.partnerSpecies, PartnerKey(name, gobotanyId), map["simple_key" := Bool(row.simpleKey == "TRUE")]),
      TouchAll(t.pileSpecies, PileKeys(PileIds(PileSlugs(row.pile, slugify), pileIds).value, name)),
      TouchAll(t.commonNames, CommonNameKeys(CommonNames(row.commonName1, row.commonName2), name)),
      StageSynonyms(t.synonyms, Synonyms(row.comment), name))
  }

  /** The genus: the first word of the scientific name. */
  function Genus(row: TaxonRow): string
    requires Words(row.scientificName) != []
  {
    Words(row.scientificName)[0]
  }

  /** The row for `slug`, staged with `fields` unless the database has it. */
  function Placeholder(rows: map<Record, Record>, slug: string, known: set<string>, fields: Record): map<Record, Record>
  {
    if slug in known then rows else Staged(rows, Key1("slug", Str(slug)), fields)
  }

  /** The fields of a placeholder family. */
  function FamilyFields(family: string): Record
  {
    map["common_name" := Str(""), "description" := Str(""), "name" := Str(family)]
  }

  /** The fields of a placeholder genus. */
  function GenusFields(genus: string, familySlug: string): Record
  {
    map["common_name" := Str(""), "description" := Str(""), "family_id" := Str(familySlug), "name" := Str(genus)]
  }

  /** The key of the taxon's membership of the Go Botany partner site. */
  function PartnerKey(name: string, gobotanyId: int): Record
  {
    Key2("species_id", Str(name), "partner_id", Int(gobotanyId))
  }

  /** The taxon table after the taxon row and its state statuses are set. */
  function StagedTaxon(taxa: map<Record, Record>, row: TaxonRow, familySlug: string, genusSlug: string,
                       indicators: map<string, string>): map<Record, Record>
    requires Wetland(row.wetlandStatus, indicators).Ok?
    requires forall st :: st in States ==> StatusColumn(st) in row.conservation
  {
    var key := Key1("scientific_name", Str(row.scientificName));
    Staged(Staged(taxa, key, TaxonFields(row, familySlug, genusSlug, Wetland(row.wetlandStatus, indicators).value)),
           key, StatusFields(AllStatesStatus(row.distribution, row.invasiveInStates, row.prohibitedInStates,
                                             row.conservation)))
  }

  /** The keys of the pile memberships of a taxon. */
  function PileKeys(ids: seq<int>, taxon: string): (r: seq<Record>)
    ensures |r| == |ids| && forall k :: 0 <= k < |ids| ==> r[k] == Key2("pile_id", Int(ids[k]), "taxon_id", Str(taxon))
  {
    seq(|ids|, k requires 0 <= k < |ids| => Key2("pile_id", Int(ids[k]), "taxon_id", Str(taxon)))
  }

  /** The keys of the common names of a taxon. */
  function CommonNameKeys(names: seq<string>, taxon: string): (r: seq<Record>)
    ensures |r| == |names| && forall k :: 0 <= k < |names| ==> r[k] == Key2("common_name", Str(names[k]), "taxon_id", Str(taxon))
  {
    seq(|names|, k requires 0 <= k < |names| => Key2("common_name", Str(names[k]), "taxon_id", Str(taxon)))
  }

  /** A synonym is staged for each listed name whose scientific name is
      neither empty nor starts with a space, under that scientific name. */
  lemma SynonymStaged(rows: map<Record, Record>, comment: string, taxon: string, full: string)
    requires full in StrippedNames(comment)
    requires StripAuthority(full) != [] && !StartsWith(StripAuthority(full), " ")
    ensures Key2("scientific_name", Str(StripAuthority(full)), "taxon_id", Str(taxon)) in
      StageSynonyms(rows, Synonyms(comment), taxon)
  {
    SynonymListed(comment, full);
    PairStaged(rows, Synonyms(comment), taxon, (StripAuthority(full), full));
  }

  /** The pair a kept name makes is among the synonyms. */
  lemma SynonymListed(comment: string, full: string)
    requires full in StrippedNames(comment)
    requires StripAuthority(full) != [] && !StartsWith(StripAuthority(full), " ")
    ensures (StripAuthority(full), full) in Synonyms(comment)
  {
  }

  /** Staging a list of synonyms stages each of them. */
  lemma PairStaged(rows: map<Record, Record>, pairs: seq<(string, string)>, taxon: string, p: (string, string))
    requires p in pairs
    ensures Key2("scientific_name", Str(p.0), "taxon_id", Str(taxon)) in StageSynonyms(rows, pairs, taxon)
  {
  }
}
