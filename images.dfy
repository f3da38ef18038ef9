/** _import_taxon_images of importer.py: each path of the image listing is
    checked, its file name taken apart into genus, species, image type and
    photographer, and a content image staged for the taxon; the first image
    of each (taxon, image type) is promoted to rank 1. */
module Images {
  import opened Wrappers
  import opened Text
  import opened Staging

  // ---------------------------------------------------------------------
  // The image categories

  /** One row of image_categories.csv. */
  datatype CategoryRow = CategoryRow(pile: string, code: string, category: string)

  /** Python's category.rsplit(',', 1)[0]: the text before the last ",",
      or all of it when there is none. */
  function CategoryName(category: string): (r: string)
    ensures ',' !in category ==> r == category
    ensures ',' in category ==> exists tail :: category == r + "," + tail && ',' !in tail
  {
    var parts := Split(category, ',');
    SplitCount(category, ',');
    if |parts| == 1 then category
    else
      JoinSplit(category, ',');
      JoinLast(parts, ",");
      assert category == Join(parts[..|parts| - 1], ",") + "," + parts[|parts| - 1];
      Join(parts[..|parts| - 1], ",")
  }

  /** The key a category row is stored under. */
  function CategoryKey(row: CategoryRow): (string, string)
  {
    (Lower(row.pile), row.code)
  }

  /** Row i is the last of rows with its key. */
  predicate LastWithKey(rows: seq<CategoryRow>, i: int)
    requires 0 <= i < |rows|
  {
    forall j :: i < j < |rows| ==> CategoryKey(rows[j]) != CategoryKey(rows[i])
  }

  /** The image type of each (lower-cased pile name, code); a later row
      overrides an earlier one with the same key. */
  function CategoryTypes(rows: seq<CategoryRow>): (r: map<(string, string), string>)
    ensures r.Keys == set row | row in rows :: CategoryKey(row)
    decreases |rows|
  {
    if rows == [] then map[]
    else
      var init := rows[..|rows| - 1];
      var row := rows[|rows| - 1];
      assert forall x :: x in rows <==> x in init || x == row;
      CategoryTypes(init)[CategoryKey(row) := CategoryName(row.category)]
  }

  /** The row that last names a key decides its image type. */
  lemma {:induction false} CategoryTypesLast(rows: seq<CategoryRow>, i: int)
    requires 0 <= i < |rows| && LastWithKey(rows, i)
    ensures CategoryKey(rows[i]) in CategoryTypes(rows)
    ensures CategoryTypes(rows)[CategoryKey(rows[i])] == CategoryName(rows[i].category)
    decreases |rows|
  {
    if i < |rows| - 1 {
      var init := rows[..|rows| - 1];
      assert LastWithKey(init, i) by {
        forall j | i < j < |init|
          ensures CategoryKey(init[j]) != CategoryKey(init[i])
        {
          assert init[j] == rows[j];
        }
      }
      CategoryTypesLast(init, i);
      assert CategoryKey(rows[|rows| - 1]) != CategoryKey(rows[i]);
    }
  }

  // ---------------------------------------------------------------------
  // File names

  /** Why a listed image is skipped: the import logs these and goes on. */
  datatype Skip = NoExtension | MultiplePeriods | Underscores | NotAnImage | UnknownTaxon | UnknownImageType

  const ImageExtensions: set<string> := {"jpg", "gif", "png", "tif"}

  /** Python's path.rsplit('/', 1)[1]: the text after the last "/"; None where
      there is no "/" (unpacking the single piece raises ValueError). */
  function FileName(path: string): (r: Option<string>)
    ensures r.None? <==> '/' !in path
    ensures r.Some? ==> '/' !in r.value && exists dir :: path == dir + "/" + r.value
  {
    if '/' !in path then None
    else
      var parts := Split(path, '/');
      SplitCount(path, '/');
      assert |parts| >= 2;
      JoinSplit(path, '/');
      JoinLast(parts, "/");
      Some(parts[|parts| - 1])
  }

  /** The checks on a file name, in the order the import makes them; on
      success the name and the extension around its only ".". */
  function CheckFilename(filename: string): (r: Result<(string, string), Skip>)
    ensures r == Err(NoExtension) <==> '.' !in filename
    ensures r == Err(MultiplePeriods) <==> multiset(filename)['.'] > 1
    ensures r == Err(Underscores) <==> multiset(filename)['.'] == 1 && '_' in filename
    ensures r.Ok? ==> filename == r.value.0 + "." + r.value.1
    ensures r.Ok? ==> '.' !in r.value.0 && '.' !in r.value.1 && '_' !in filename
    ensures r.Ok? ==> Lower(r.value.1) in ImageExtensions
    ensures r.Err? ==> r.error in {NoExtension, MultiplePeriods, Underscores, NotAnImage}
  {
    if '.' !in filename then Err(NoExtension)
    else if multiset(filename)['.'] > 1 then Err(MultiplePeriods)
    else if '_' in filename then Err(Underscores)
    else
      var parts := Split(filename, '.');
      SplitCount(filename, '.');
      JoinSplit(filename, '.');
      assert Join(parts, ".") == parts[0] + "." + parts[1] by {
        assert parts[1..] == [parts[1]];
      }
      if Lower(parts[1]) !in ImageExtensions then Err(NotAnImage)
      else Ok((parts[0], parts[1]))
  }

  /** A name with one "." and no "_" whose extension is an image extension in
      any case is accepted, and taken apart at its ".". */
  lemma FilenameAccepted(name: string, ext: string)
    requires '.' !in name && '.' !in ext && '_' !in name && '_' !in ext
    requires Lower(ext) in ImageExtensions
    ensures CheckFilename(name + "." + ext) == Ok((name, ext))
  {
    var filename := name + "." + ext;
    assert multiset(filename)['.'] == 1 by {
      assert multiset(filename) == multiset(name) + multiset{'.'} + multiset(ext);
      assert multiset(name)['.'] == 0 && multiset(ext)['.'] == 0;
    }
    SplitJoin([name, ext], '.');
    assert Join([name, ext], ".") == filename by {
      assert [name, ext][1..] == [ext];
    }
  }

  /** An extension outside jpg, gif, png and tif, in any case, is refused. */
  lemma OtherExtensionRefused(name: string, ext: string)
    requires '.' !in name && '.' !in ext && '_' !in name && '_' !in ext
    requires Lower(ext) !in ImageExtensions
    ensures CheckFilename(name + "." + ext) == Err(NotAnImage)
  {
    var filename := name + "." + ext;
    assert multiset(filename)['.'] == 1 by {
      assert multiset(filename) == multiset(name) + multiset{'.'} + multiset(ext);
      assert multiset(name)['.'] == 0 && multiset(ext)['.'] == 0;
    }
    SplitJoin([name, ext], '.');
    assert Join([name, ext], ".") == filename by {
      assert [name, ext][1..] == [ext];
    }
  }

  // ---------------------------------------------------------------------
  // The pieces of a name

  /** The index of the type field: the first piece of length 2 from index 2
      on, None where there is none (the scan raises IndexError). */
  function TypeField(pieces: seq<string>): (r: Option<nat>)
    ensures r.Some? ==> 2 <= r.value < |pieces| && |pieces[r.value]| == 2
    ensures r.Some? ==> forall j :: 2 <= j < r.value ==> |pieces[j]| != 2
    ensures r.None? <==> forall j :: 2 <= j < |pieces| ==> |pieces[j]| != 2
  {
    TypeFieldFrom(pieces, 2)
  }

  function TypeFieldFrom(pieces: seq<string>, i: nat): (r: Option<nat>)
    ensures r.Some? ==> i <= r.value < |pieces| && |pieces[r.value]| == 2
    ensures r.Some? ==> forall j :: i <= j < r.value ==> |pieces[j]| != 2
    ensures r.None? <==> forall j :: i <= j < |pieces| ==> |pieces[j]| != 2
    decreases |pieces| - i
  {
    if i >= |pieces| then None
    else if |pieces[i]| == 2 then Some(i)
    else TypeFieldFrom(pieces, i + 1)
  }

  /** The scan for the type field. */
  method FindTypeField(pieces: seq<string>) returns (r: Option<nat>)
    ensures r == TypeField(pieces)
  {
    var typeField := 2;
    while typeField < |pieces| && |pieces[typeField]| != 2
      invariant 2 <= typeField
      invariant TypeFieldFrom(pieces, typeField) == TypeField(pieces)
      decreases |pieces| - typeField
    {
      typeField := typeField + 1;
    }
    if typeField >= |pieces| {
      return None;
    }
    return Some(typeField);
  }

  /** Subspecies and variety pieces are passed over: in genus-species-ssp-ty-x
      the type is "ty". */
  lemma TypeAfterInfraspecificName(genus: string, species: string, extra: string, t: string, rest: seq<string>)
    requires |extra| != 2 && |t| == 2
    ensures TypeField([genus, species, extra, t] + rest) == Some(3)
  {
    var pieces := [genus, species, extra, t] + rest;
    assert |pieces[2]| != 2 && |pieces[3]| == 2;
  }

  /** The image type of the first of the taxon's piles for which the
      categories know the code; None where none does. */
  function FirstImageType(pileNames: seq<string>, code: string, types: map<(string, string), string>)
    : (r: Option<string>)
    ensures r.None? <==> forall k :: 0 <= k < |pileNames| ==> (Lower(pileNames[k]), code) !in types
    ensures r.Some? ==> exists k :: (0 <= k < |pileNames| && (Lower(pileNames[k]), code) in types &&
      r.value == types[(Lower(pileNames[k]), code)] &&
      forall j :: 0 <= j < k ==> (Lower(pileNames[j]), code) !in types)
    decreases |pileNames|
  {
    if pileNames == [] then None
    else if (Lower(pileNames[0]), code) in types then
      Some(types[(Lower(pileNames[0]), code)])
    else
      var r := FirstImageType(pileNames[1..], code, types);
      assert forall k :: 1 <= k < |pileNames| ==> pileNames[k] == pileNames[1..][k - 1];
      if r.Some? then
        var k :| 0 <= k < |pileNames[1..]| && (Lower(pileNames[1..][k]), code) in types &&
          r.value == types[(Lower(pileNames[1..][k]), code)] &&
          forall j :: 0 <= j < k ==> (Lower(pileNames[1..][j]), code) !in types;
        assert (Lower(pileNames[k + 1]), code) in types;
        r
      else r
  }

  /** The loop over the taxon's piles, leaving it at the first known key. */
  method FindImageType(pileNames: seq<string>, code: string, types: map<(string, string), string>)
    returns (r: Option<string>)
    ensures r == FirstImageType(pileNames, code, types)
  {
    for i := 0 to |pileNames|
      invariant FirstImageType(pileNames, code, types) == FirstImageType(pileNames[i..], code, types)
    {
      var key := (Lower(pileNames[i]), code);
      if key in types {
        return Some(types[key]);
      }
      assert pileNames[i..][1..] == pileNames[i + 1..];
    }
    return None;
  }

  // ---------------------------------------------------------------------
  // One listed image

  /** What the import reads from the database: the taxon ids by scientific
      name, the pile names of a taxon in the order the database lists them,
      the image types of the categories file, and the content type of Taxon. */
  datatype ImageLookups = ImageLookups(
    taxonIds: map<string, int>,
    pileNamesOf: int -> seq<string>,
    types: map<(string, string), string>,
    contentTypeId: int)

  /** What the import makes of one listed image: skipped with a logged
      reason, an exception that ends the import, or an image to stage. */
  datatype Outcome =
    | Skipped(reason: Skip)
    | Fails
    | Image(taxonId: int, scientificName: string, typeName: string, photographer: string)

  /** The scientific name the pieces name, and its taxon: first "Genus
      species"; failing that, with "-" and the third piece appended. */
  function TaxonOf(pieces: seq<string>, taxonIds: map<string, int>): (r: (string, Option<int>))
    requires |pieces| >= 3
    ensures var binomial := Capitalize(pieces[0] + " " + pieces[1]);
      if binomial in taxonIds then r == (binomial, Some(taxonIds[binomial]))
      else (r.0 == binomial + "-" + pieces[2] && (r.1.Some? <==> r.0 in taxonIds) &&
            (r.1.Some? ==> r.1.value == taxonIds[r.0]))
  {
    var scientificName := Capitalize(pieces[0] + " " + pieces[1]);
    if scientificName in taxonIds then (scientificName, Some(taxonIds[scientificName]))
    else
      var withThird := scientificName + "-" + pieces[2];
      (withThird, if withThird in taxonIds then Some(taxonIds[withThird]) else None)
  }

  /** The outcome for the name (without extension) of an accepted file. */
  function ExamineName(name: string, lk: ImageLookups): (r: Outcome)
    ensures r.Image? ==> r.typeName in lk.types.Values
    ensures r.Skipped? ==> r.reason in {UnknownTaxon, UnknownImageType}
  {
    var pieces := Split(name, '-');
    if |pieces| < 2 then Fails
    else match TypeField(pieces)
      case None => Fails
      case Some(typeField) =>
        if typeField + 1 >= |pieces| then Fails
        else ExamineTaxon(pieces, typeField, lk)
  }

  /** The taxon and the image type of a name whose type field and
      photographer field were found. */
  function ExamineTaxon(pieces: seq<string>, typeField: nat, lk: ImageLookups): (r: Outcome)
    requires 2 <= typeField && typeField + 1 < |pieces|
    ensures r.Image? ==> r.typeName in lk.types.Values
    ensures r.Skipped? ==> r.reason in {UnknownTaxon, UnknownImageType}
  {
    var (scientificName, taxon) := TaxonOf(pieces, lk.taxonIds);
    if taxon.None? then Skipped(UnknownTaxon)
    else match FirstImageType(lk.pileNamesOf(taxon.value), pieces[typeField], lk.types)
      case None => Skipped(UnknownImageType)
      case Some(typeName) => Image(taxon.value, scientificName, typeName, pieces[typeField + 1])
  }

  /** The outcome for one path of the listing. */
  function Examine(path: string, lk: ImageLookups): (r: Outcome)
    ensures '/' !in path ==> r == Fails
  {
    match FileName(path)
    case None => Fails
    case Some(filename) =>
      match CheckFilename(filename)
      case Err(why) => Skipped(why)
      case Ok(parts) => ExamineName(parts.0, lk)
  }

  /** A rejected file name is skipped whatever the rest of the listing holds. */
  lemma RejectedFileSkipped(path: string, lk: ImageLookups)
    requires FileName(path).Some? && CheckFilename(FileName(path).value).Err?
    ensures Examine(path, lk) == Skipped(CheckFilename(FileName(path).value).error)
    ensures Examine(path, lk).reason in {NoExtension, MultiplePeriods, Underscores, NotAnImage}
  {
  }

  // ---------------------------------------------------------------------
  // The import

  /** The tables and the set of (taxon, image type) pairs already seen. */
  datatype ImageState = ImageState(
    contentImages: map<Record, Record>,
    imageTypes: map<Record, Record>,
    alreadySeen: set<(int, string)>,
    count: nat)

  const StartState := ImageState(map[], map[], {}, 0)

  /** The key of a content image: its taxon and its path. */
  function ImageKey(taxonId: int, contentTypeId: int, path: string): Record
  {
    map["object_id" := Int(taxonId), "content_type_id" := Int(contentTypeId), "image" := Str(path)]
  }

  /** The fields of a content image; the alt text gets its rank later. */
  function ImageFields(scientificName: string, typeName: string, photographer: string, rank: int): Record
  {
    map["alt" := Str(scientificName + ": " + typeName), "creator" := Str(photographer),
        "description" := Str(""), "image_type_id" := Str(typeName), "rank" := Int(rank)]
  }

  /** The rank of a new image: 1 for the first of its taxon and type, 2 after. */
  function RankFor(alreadySeen: set<(int, string)>, taxonId: int, typeName: string): (r: int)
    ensures r == 1 <==> (taxonId, typeName) !in alreadySeen
    ensures r == 1 || r == 2
  {
    if (taxonId, typeName) in alreadySeen then 2 else 1
  }

  /** The state after an image is staged. */
  function StageImage(s: ImageState, path: string, o: Outcome, contentTypeId: int): (r: ImageState)
    requires o.Image?
    ensures r.alreadySeen == s.alreadySeen + {RankKey(o)} && r.count == s.count + 1
  {
    var rank := RankFor(s.alreadySeen, o.taxonId, o.typeName);
    ImageState(
      Staged(s.contentImages, ImageKey(o.taxonId, contentTypeId, path),
             ImageFields(o.scientificName, o.typeName, o.photographer, rank)),
      Touched(s.imageTypes, Key1("name", Str(o.typeName))),
      s.alreadySeen + {RankKey(o)},
      s.count + 1)
  }

  /** The state after one path; None where the import fails. */
  function ImageStep(s: ImageState, path: string, lk: ImageLookups): (r: Option<ImageState>)
    ensures r.None? <==> Examine(path, lk) == Fails
    ensures r.Some? && !Examine(path, lk).Image? ==> r.value == s
  {
    var o := Examine(path, lk);
    if o.Fails? then None
    else if o.Skipped? then Some(s)
    else Some(StageImage(s, path, o, lk.contentTypeId))
  }

  /** The state after the paths, one after the other; None where one fails. */
  function ImageSteps(s: ImageState, paths: seq<string>, lk: ImageLookups): Option<ImageState>
    decreases |paths|
  {
    if paths == [] then Some(s)
    else match ImageSteps(s, paths[..|paths| - 1], lk)
      case None => None
      case Some(t) => ImageStep(t, paths[|paths| - 1], lk)
  }

  /** The (taxon, image type) pair of an image. */
  function RankKey(o: Outcome): (int, string)
    requires o.Image?
  {
    (o.taxonId, o.typeName)
  }

  /** What the import makes of each path. */
  function Outcomes(paths: seq<string>, lk: ImageLookups): (r: seq<Outcome>)
    ensures |r| == |paths| && forall j :: 0 <= j < |paths| ==> r[j] == Examine(paths[j], lk)
  {
    seq(|paths|, j requires 0 <= j < |paths| => Examine(paths[j], lk))
  }

  /** The (taxon, image type) pairs of the images among the outcomes. */
  function PairsOf(os: seq<Outcome>): set<(int, string)>
  {
    set j | 0 <= j < |os| && os[j].Image? :: RankKey(os[j])
  }

  /** The (taxon, image type) pairs of the images among the paths. */
  function SeenPairs(paths: seq<string>, lk: ImageLookups): set<(int, string)>
  {
    PairsOf(Outcomes(paths, lk))
  }

  /** The pairs of the paths are those of all but the last, and the last's
      when it is an image. */
  lemma SeenPairsLast(paths: seq<string>, lk: ImageLookups)
    requires paths != []
    ensures var o := Examine(paths[|paths| - 1], lk);
      SeenPairs(paths, lk) == SeenPairs(paths[..|paths| - 1], lk) + (if o.Image? then {RankKey(o)} else {})
  {
    var os := Outcomes(paths, lk);
    assert Outcomes(paths[..|paths| - 1], lk) == os[..|os| - 1];
    PairsOfLast(os);
  }

  /** The pairs of the outcomes are those of all but the last, and the
      last's when it is an image. */
  lemma PairsOfLast(os: seq<Outcome>)
    requires os != []
    ensures var o := os[|os| - 1];
      PairsOf(os) == PairsOf(os[..|os| - 1]) + (if o.Image? then {RankKey(o)} else {})
  {
    var init := os[..|os| - 1];
    var o := os[|os| - 1];
    var extra: set<(int, string)> := if o.Image? then {RankKey(o)} else {};
    forall p | p in PairsOf(os) ensures p in PairsOf(init) + extra {
      var j :| 0 <= j < |os| && os[j].Image? && RankKey(os[j]) == p;
      if j < |init| {
        assert init[j] == os[j];
      }
    }
    forall p | p in PairsOf(init) ensures p in PairsOf(os) {
      var j :| 0 <= j < |init| && init[j].Image? && RankKey(init[j]) == p;
      assert init[j] == os[j];
    }
    if o.Image? {
      assert RankKey(os[|os| - 1]) in PairsOf(os);
    }
  }

  /** already_seen holds exactly the (taxon, image type) pairs of the images
      staged so far. */
  lemma {:induction false} AlreadySeenIsStagedPairs(paths: seq<string>, lk: ImageLookups)
    requires ImageSteps(StartState, paths, lk).Some?
    ensures ImageSteps(StartState, paths, lk).value.alreadySeen == SeenPairs(paths, lk)
    decreases |paths|
  {
    if paths != [] {
      var init := paths[..|paths| - 1];
      var before := ImageSteps(StartState, init, lk);
      assert before.Some?;
      assert ImageSteps(StartState, paths, lk) == ImageStep(before.value, paths[|paths| - 1], lk);
      AlreadySeenIsStagedPairs(init, lk);
      SeenPairsLast(paths, lk);
    }
  }

  /** An image is staged with rank 1 exactly when no earlier path of the
      listing was an image of the same taxon and image type. */
  lemma FirstImageRankOne(paths: seq<string>, k: int, lk: ImageLookups)
    requires 0 <= k < |paths| && ImageSteps(StartState, paths[..k], lk).Some?
    requires Examine(paths[k], lk).Image?
    ensures var o := Examine(paths[k], lk);
      RankFor(ImageSteps(StartState, paths[..k], lk).value.alreadySeen, o.taxonId, o.typeName) == 1 <==>
        forall j :: 0 <= j < k ==> !(Examine(paths[j], lk).Image? && RankKey(Examine(paths[j], lk)) == RankKey(o))
  {
    AlreadySeenIsStagedPairs(paths[..k], lk);
    var o := Examine(paths[k], lk);
    var os := Outcomes(paths[..k], lk);
    if RankKey(o) in PairsOf(os) {
      var j :| 0 <= j < |os| && os[j].Image? && RankKey(os[j]) == RankKey(o);
      assert os[j] == Examine(paths[j], lk);
    } else {
      forall j | 0 <= j < k
        ensures !(Examine(paths[j], lk).Image? && RankKey(Examine(paths[j], lk)) == RankKey(o))
      {
        assert os[j] == Examine(paths[j], lk);
        if os[j].Image? {
          assert RankKey(os[j]) in PairsOf(os);
        }
      }
    }
  }

  /** Every content image has a text alt and an integer rank. */
  ghost predicate RanksStaged(rows: map<Record, Record>)
  {
    forall key :: key in rows ==> ("alt" in rows[key] && rows[key]["alt"].Str? &&
      "rank" in rows[key] && rows[key]["rank"].Int?)
  }

  /** The steps keep every content image with an alt and a rank. */
  lemma {:induction false} StepsKeepRanksStaged(paths: seq<string>, lk: ImageLookups)
    requires ImageSteps(StartState, paths, lk).Some?
    ensures RanksStaged(ImageSteps(StartState, paths, lk).value.contentImages)
    decreases |paths|
  {
    if paths != [] {
      var init := paths[..|paths| - 1];
      StepsKeepRanksStaged(init, lk);
      var s := ImageSteps(StartState, init, lk).value;
      var o := Examine(paths[|paths| - 1], lk);
      if o.Image? {
        var key := ImageKey(o.taxonId, lk.contentTypeId, paths[|paths| - 1]);
        var fields := ImageFields(o.scientificName, o.typeName, o.photographer, RankFor(s.alreadySeen, o.taxonId, o.typeName));
        var rows := Staged(s.contentImages, key, fields);
        assert FieldOf(rows[key], "alt") == Some(fields["alt"]);
        assert FieldOf(rows[key], "rank") == Some(fields["rank"]);
      }
    }
  }

  /** The final pass: each alt text gets " " and the rank appended. */
  function AltWithRank(rows: map<Record, Record>): (r: map<Record, Record>)
    requires RanksStaged(rows)
    ensures r.Keys == rows.Keys
    ensures forall key :: key in rows ==> r[key].Keys == rows[key].Keys
  {
    map key | key in rows :: rows[key]["alt" := Str(rows[key]["alt"].s + " " + IntString(rows[key]["rank"].n))]
  }

  /** The alt text of a staged image ends up "name: type rank". */
  lemma ImageAlt(s: ImageState, path: string, lk: ImageLookups)
    requires RanksStaged(s.contentImages) && Examine(path, lk).Image?
    ensures var o := Examine(path, lk);
      var t := ImageStep(s, path, lk).value;
      var key := ImageKey(o.taxonId, lk.contentTypeId, path);
      RanksStaged(t.contentImages) && key in t.contentImages &&
      AltWithRank(t.contentImages)[key]["alt"] ==
        Str(o.scientificName + ": " + o.typeName + " " + IntString(RankFor(s.alreadySeen, o.taxonId, o.typeName)))
  {
    var o := Examine(path, lk);
    var key := ImageKey(o.taxonId, lk.contentTypeId, path);
    var fields := ImageFields(o.scientificName, o.typeName, o.photographer, RankFor(s.alreadySeen, o.taxonId, o.typeName));
    var rows := Staged(s.contentImages, key, fields);
    assert FieldOf(rows[key], "alt") == Some(fields["alt"]);
    assert FieldOf(rows[key], "rank") == Some(fields["rank"]);
    forall k | k in rows
      ensures "alt" in rows[k] && rows[k]["alt"].Str? && "rank" in rows[k] && rows[k]["rank"].Int?
    {
      if k != key {
        assert rows[k] == s.contentImages[k];
      }
    }
  }

  /** The import's running state. */
  class TaxonImages {
    var state: ImageState

    constructor()
      ensures state == StartState
    {
      state := StartState;
    }

    /** The loop body for one path of the listing; false where it raises. */
    method ImportImage(path: string, lk: ImageLookups) returns (ok: bool)
      modifies this
      ensures ok <==> ImageStep(old(state), path, lk).Some?
      ensures ok ==> state == ImageStep(old(state), path, lk).value
    {
      var filename := FileName(path);
      if filename.None? {
        return false;
      }
      var checked := CheckFilename(filename.value);
      if checked.Err? {
        assert Examine(path, lk) == Skipped(checked.error);
        return true;
      }
      var outcome := ExamineNameSteps(checked.value.0, lk);
      assert Examine(path, lk) == outcome;
      if outcome.Fails? {
        return false;
      }
      if outcome.Skipped? {
        return true;
      }
      Stage(path, outcome, lk.contentTypeId);
      return true;
    }

    /** Staging an image, and its rank from already_seen. */
    method Stage(path: string, o: Outcome, contentTypeId: int)
      modifies this
      requires o.Image?
      ensures state == StageImage(old(state), path, o, contentTypeId)
    {
      var taxonId, typeName := o.taxonId, o.typeName;
      var imageTypes := Touched(state.imageTypes, Key1("name", Str(typeName)));
      var rankKey := (taxonId, typeName);
      var rank;
      var alreadySeen := state.alreadySeen;
      if rankKey in alreadySeen {
        rank := 2;
      } else {
        rank := 1;
        alreadySeen := alreadySeen + {rankKey};
      }
      var contentImages := Staged(state.contentImages, ImageKey(taxonId, contentTypeId, path),
                                  ImageFields(o.scientificName, typeName, o.photographer, rank));
      state := ImageState(contentImages, imageTypes, alreadySeen, state.count + 1);
    }

    /** The steps that take the name of an accepted file apart. */
    static method ExamineNameSteps(name: string, lk: ImageLookups) returns (o: Outcome)
      ensures o == ExamineName(name, lk)
    {
      var pieces := Split(name, '-');
      if |pieces| < 2 {
        return Fails;
      }
      var typeField := FindTypeField(pieces);
      if typeField.None? || typeField.value + 1 >= |pieces| {
        return Fails;
      }
      o := ExamineTaxonSteps(pieces, typeField.value, lk);
    }

    /** The steps that find the taxon and the image type. */
    static method ExamineTaxonSteps(pieces: seq<string>, typeField: nat, lk: ImageLookups) returns (o: Outcome)
      requires 2 <= typeField && typeField + 1 < |pieces|
      ensures o == ExamineTaxon(pieces, typeField, lk)
    {
      var code := pieces[typeField];
      var photographer := pieces[typeField + 1];
      var (scientificName, taxon) := TaxonOf(pieces, lk.taxonIds);
      if taxon.None? {
        return Skipped(UnknownTaxon);
      }
      var typeName := FindImageType(lk.pileNamesOf(taxon.value), code, lk.types);
      if typeName.None? {
        return Skipped(UnknownImageType);
      }
      return Image(taxon.value, scientificName, typeName.value, photographer);
    }

    /** Every path of the listing, then the ranks appended to the alt texts;
        false where a path makes the import raise. */
    method ImportImages(paths: seq<string>, lk: ImageLookups) returns (ok: bool)
      modifies this
      requires state == StartState
      ensures ok <==> ImageSteps(StartState, paths, lk).Some?
      ensures ok ==> var s := ImageSteps(StartState, paths, lk).value;
        RanksStaged(s.contentImages) && state == s.(contentImages := AltWithRank(s.contentImages))
    {
      for i := 0 to |paths|
        invariant ImageSteps(StartState, paths[..i], lk) == Some(state)
      {
        assert paths[..i + 1][..i] == paths[..i];
        ok := ImportImage(paths[i], lk);
        if !ok {
          ImageStepsStayFailed(paths, i + 1, lk);
          return false;
        }
      }
      assert paths[..|paths|] == paths;
      StepsKeepRanksStaged(paths, lk);
      AppendRanks();
      return true;
    }

    /** The loop over the content image table appending each rank. */
    method AppendRanks()
      modifies this
      requires RanksStaged(state.contentImages)
      ensures state == old(state).(contentImages := AltWithRank(old(state.contentImages)))
    {
      var rows := state.contentImages;
      var done: map<Record, Record> := map[];
      var todo := rows.Keys;
      while todo != {}
        invariant todo <= rows.Keys
        invariant done.Keys == rows.Keys - todo
        invariant forall key :: key in done ==> done[key] == AltWithRank(rows)[key]
        decreases todo
      {
        var key :| key in todo;
        var row := rows[key];
        done := done[key := row["alt" := Str(row["alt"].s + " " + IntString(row["rank"].n))]];
        todo := todo - {key};
      }
      state := state.(contentImages := done);
    }
  }

  /** Once a path makes the import raise, no later path undoes it. */
  lemma {:induction false} ImageStepsStayFailed(paths: seq<string>, n: int, lk: ImageLookups)
    requires 0 <= n <= |paths| && ImageSteps(StartState, paths[..n], lk).None?
    ensures ImageSteps(StartState, paths, lk).None?
    decreases |paths| - n
  {
    if n < |paths| {
      assert paths[..n + 1][..n] == paths[..n];
      ImageStepsStayFailed(paths, n + 1, lk);
    } else {
      assert paths[..n] == paths;
    }
  }
}
