/** The layout logic of the species section of the results page
    (gobotany/static/gobotany/sk/SpeciesSectionHelper.js): grouping the
    results by genus, the image shown for a species, and the rows, slot
    classes and genus colours of the result grid. */
module SpeciesSection {
  import opened Wrappers

  /** An image of a species, as the results carry it. */
  datatype Image = Image(rank: int, imageType: string, thumbUrl: string)

  /** A species in the results. */
  datatype Species = Species(scientificName: string, genus: string, images: seq<Image>)

  /** A genus with its species, as organize_by_genera returns them. */
  datatype GenusGroup = GenusGroup(genus: string, species: seq<Species>)

  /** The species of the groups, one group after the other. */
  function Flatten(groups: seq<GenusGroup>): seq<Species>
    decreases |groups|
  {
    if groups == [] then [] else Flatten(groups[..|groups| - 1]) + groups[|groups| - 1].species
  }

  lemma FlattenAppend(groups: seq<GenusGroup>, g: GenusGroup)
    ensures Flatten(groups + [g]) == Flatten(groups) + g.species
  {
    assert (groups + [g])[..|groups|] == groups;
  }

  /** A group whose species all belong to its genus. */
  predicate Uniform(g: GenusGroup)
  {
    forall k :: 0 <= k < |g.species| ==> g.species[k].genus == g.genus
  }

  /** Consecutive groups are of different genera. */
  predicate Distinct(groups: seq<GenusGroup>)
  {
    forall j :: 0 < j < |groups| ==> groups[j - 1].genus != groups[j].genus
  }

  /** Groups as organize_by_genera builds them: each uniform and non-empty,
      consecutive ones of different genera. */
  predicate Grouped(groups: seq<GenusGroup>)
  {
    (forall j :: 0 <= j < |groups| ==> Uniform(groups[j]) && groups[j].species != []) &&
    Distinct(groups)
  }

  /** Closing a non-empty uniform group of a new genus keeps the groups
      well formed and their species in order. */
  lemma CloseGroup(groups: seq<GenusGroup>, g: GenusGroup)
    requires Grouped(groups) && Uniform(g) && g.species != []
    requires groups != [] ==> groups[|groups| - 1].genus != g.genus
    ensures Grouped(groups + [g])
    ensures Flatten(groups + [g]) == Flatten(groups) + g.species
  {
    var all := groups + [g];
    forall j | 0 <= j < |all| ensures Uniform(all[j]) && all[j].species != [] {
      if j < |groups| { assert all[j] == groups[j]; } else { assert all[j] == g; }
    }
    forall j | 0 < j < |all| ensures all[j - 1].genus != all[j].genus {
      assert all[j - 1] == groups[j - 1];
      if j < |groups| { assert all[j] == groups[j]; } else { assert all[j] == g; }
    }
    FlattenAppend(groups, g);
  }

  /** A species of the group's genus keeps the group uniform. */
  lemma GrowGroup(g: GenusGroup, x: Species)
    requires Uniform(g) && x.genus == g.genus
    ensures Uniform(GenusGroup(g.genus, g.species + [x]))
  {
  }

  /** The state of organize_by_genera after the first `i` items: the
      closed groups `genera` and the open group of `genus` with `species`. */
  predicate Organizing(items: seq<Species>, i: nat, genera: seq<GenusGroup>, genus: string, species: seq<Species>)
  {
    i <= |items| &&
    (i == 0 ==> genera == [] && genus == "" && species == []) &&
    (i > 0 ==> species != [] && genus == items[i - 1].genus) &&
    Flatten(genera) + species == items[..i] &&
    Uniform(GenusGroup(genus, species)) && Grouped(genera) &&
    (genera != [] ==> genera[|genera| - 1].genus != genus)
  }

  /** One step of the loop: a change of genus closes the open group. */
  lemma OrganizeStep(items: seq<Species>, i: nat, genera: seq<GenusGroup>, genus: string, species: seq<Species>)
    requires Organizing(items, i, genera, genus, species) && i < |items|
    ensures var closes := i > 0 && items[i].genus != genus;
      Organizing(items, i + 1,
        if closes then genera + [GenusGroup(genus, species)] else genera,
        items[i].genus,
        (if closes then [] else species) + [items[i]])
  {
    assert items[..i + 1] == items[..i] + [items[i]];
    if i > 0 && items[i].genus != genus {
      CloseGroup(genera, GenusGroup(genus, species));
      assert Flatten(genera + [GenusGroup(genus, species)]) + [items[i]] == items[..i + 1];
    } else {
      GrowGroup(GenusGroup(items[i].genus, species), items[i]);
      assert Flatten(genera) + (species + [items[i]]) == items[..i + 1];
    }
  }

  /** organize_by_genera: the runs of species of the same genus, in order.
      An empty list gives one empty group with genus "". */
  method OrganizeByGenera(items: seq<Species>) returns (genera: seq<GenusGroup>)
    ensures Flatten(genera) == items
    ensures forall j :: 0 <= j < |genera| ==> Uniform(genera[j])
    ensures Distinct(genera)
    ensures items == [] ==> genera == [GenusGroup("", [])]
    ensures items != [] ==> forall j :: 0 <= j < |genera| ==> genera[j].species != []
  {
    var genus, species;
    genera, genus, species := OrganizeLoop(items);
    OrganizeDone(items, genera, genus, species);
    genera := genera + [GenusGroup(genus, species)];
    if items == [] {
      assert genera == [GenusGroup("", [])];
    }
  }

  /** The loop of organize_by_genera, up to the last group, which is still
      open when it ends. */
  method OrganizeLoop(items: seq<Species>) returns (genera: seq<GenusGroup>, genus: string, species: seq<Species>)
    ensures Organizing(items, |items|, genera, genus, species)
  {
    genera := [];
    genus := "";
    species := [];
    for i := 0 to |items|
      invariant Organizing(items, i, genera, genus, species)
    {
      OrganizeStep(items, i, genera, genus, species);
      if i > 0 && items[i].genus != genus {
        genera := genera + [GenusGroup(genus, species)];
        species := [];
      }
      genus := items[i].genus;
      species := species + [items[i]];
    }
  }

  /** The final group closes the loop's work. */
  lemma OrganizeDone(items: seq<Species>, genera: seq<GenusGroup>, genus: string, species: seq<Species>)
    requires Organizing(items, |items|, genera, genus, species)
    ensures Flatten(genera + [GenusGroup(genus, species)]) == items
    ensures items == [] ==> genera + [GenusGroup(genus, species)] == [GenusGroup("", [])]
    ensures items != [] ==> Grouped(genera + [GenusGroup(genus, species)])
  {
    assert Flatten(genera) + species == items by {
      assert items[..|items|] == items;
    }
    FlattenAppend(genera, GenusGroup(genus, species));
    if items != [] {
      CloseGroup(genera, GenusGroup(genus, species));
    }
  }

  /** The image default_image looks for: a rank 1 habit image. */
  predicate IsDefault(image: Image)
  {
    image.rank == 1 && image.imageType == "habit"
  }

  /** Image `k` is the first default image of the list. */
  predicate FirstDefault(images: seq<Image>, k: int)
  {
    0 <= k < |images| && IsDefault(images[k]) && forall j :: 0 <= j < k ==> !IsDefault(images[j])
  }

  /** default_image: the first rank 1 habit image of the species; `{}`,
      here None, when it has none. */
  method DefaultImage(species: Species) returns (image: Option<Image>)
    ensures image.None? <==> forall j :: 0 <= j < |species.images| ==> !IsDefault(species.images[j])
    ensures image.Some? ==> exists k :: FirstDefault(species.images, k) && species.images[k] == image.value
  {
    for i := 0 to |species.images|
      invariant forall j :: 0 <= j < i ==> !IsDefault(species.images[j])
    {
      var candidate := species.images[i];
      if candidate.rank == 1 && candidate.imageType == "habit" {
        return Some(candidate);
      }
    }
    return None;
  }

  const SpeciesPerRow: nat := 4
  const NumGenusColors: nat := 5

  /** Math.ceil(n / SPECIES_PER_ROW): the number of rows of the grid. */
  function NumRows(n: nat): (r: nat)
  {
    (n + SpeciesPerRow - 1) / SpeciesPerRow
  }

  /** The rows hold every item, and no row is left empty. */
  lemma NumRowsIsCeiling(n: nat)
    ensures NumRows(n) * SpeciesPerRow >= n
    ensures n > 0 ==> (NumRows(n) - 1) * SpeciesPerRow < n
    ensures n == 0 <==> NumRows(n) == 0
  {
  }

  /** The genus colour of item `s`: it starts at 1 and moves to the next of
      the five colours, wrapping from 5 to 1, at each change of genus. */
  function Color(items: seq<Species>, s: nat): (r: nat)
    requires s < |items|
    ensures 1 <= r <= NumGenusColors
    decreases s
  {
    if s == 0 then 1
    else
      var c := Color(items, s - 1);
      if items[s].genus != items[s - 1].genus then (if c + 1 > NumGenusColors then 1 else c + 1)
      else c
  }

  /** How many changes of genus there are up to item `s`. */
  function Changes(items: seq<Species>, s: nat): nat
    requires s < |items|
    decreases s
  {
    if s == 0 then 0
    else Changes(items, s - 1) + (if items[s].genus != items[s - 1].genus then 1 else 0)
  }

  /** The colour counts the changes of genus, modulo five. */
  lemma {:induction false} ColorCountsChanges(items: seq<Species>, s: nat)
    requires s < |items|
    ensures Color(items, s) == Changes(items, s) % NumGenusColors + 1
    decreases s
  {
    if s > 0 {
      ColorCountsChanges(items, s - 1);
    }
  }

  /** The colour changes from one item to the next exactly when the genus
      does. */
  lemma ColorChangesWithGenus(items: seq<Species>, s: nat)
    requires 0 < s < |items|
    ensures Color(items, s) != Color(items, s - 1) <==> items[s].genus != items[s - 1].genus
  {
  }

  /** The place of a slot in its row, which gives its class. */
  datatype Position = First | Last | Middle

  /** The class of slot `s` among `n` items: "first" when it starts its row,
      otherwise "last" when it is the fourth of the row or the final item. */
  function PositionOf(s: nat, n: nat): Position
  {
    var start := (s / SpeciesPerRow) * SpeciesPerRow;
    if s == start then First
    else if s == start + SpeciesPerRow - 1 || s + 1 >= n then Last
    else Middle
  }

  /** A plant of the grid: its item, its class, and its genus colour;
      `clear` is the "clearit" division placed after a "last" plant. */
  datatype Plant = Plant(index: nat, position: Position, color: nat, clear: bool)

  /** A row of the grid, with the " last" class on the final row. */
  datatype Row = Row(last: bool, plants: seq<Plant>)

  /** The plant display_results builds for item `s`. */
  function PlantAt(items: seq<Species>, s: nat): Plant
    requires s < |items|
  {
    var position := PositionOf(s, |items|);
    Plant(s, position, Color(items, s), position == Last)
  }

  /** The items that row `r` holds. */
  function RowSize(n: nat, r: nat): nat
  {
    if n <= r * SpeciesPerRow then 0
    else if n - r * SpeciesPerRow < SpeciesPerRow then n - r * SpeciesPerRow
    else SpeciesPerRow
  }

  /** A row of the grid holds the following items in order, from the first
      of the row on. */
  predicate RowHolds(items: seq<Species>, row: Row, r: nat)
  {
    |row.plants| == RowSize(|items|, r) &&
    forall k :: 0 <= k < |row.plants| ==> r * SpeciesPerRow + k < |items| && row.plants[k] == PlantAt(items, r * SpeciesPerRow + k)
  }

  /** The first slot of each row gets "first", its last slot "last" and
      the others neither; a final row holding a single item therefore has
      no "last" slot. */
  lemma RowSlot(n: nat, r: nat, k: nat)
    requires k < RowSize(n, r)
    ensures PositionOf(r * SpeciesPerRow + k, n) ==
      if k == 0 then First else if k == RowSize(n, r) - 1 then Last else Middle
  {
    assert (r * SpeciesPerRow + k) / SpeciesPerRow == r;
  }

  /** display_results, for the arithmetic: the rows and, in each, the
      plants with their classes and genus colours. */
  method DisplayResults(items: seq<Species>) returns (rows: seq<Row>)
    ensures |rows| == NumRows(|items|)
    ensures forall r :: 0 <= r < |rows| ==> (rows[r].last <==> r == |rows| - 1)
    ensures forall r :: 0 <= r < |rows| ==> RowHolds(items, rows[r], r)
  {
    var genusColor := 1;
    var numRows := NumRows(|items|);
    rows := [];
    for r := 0 to numRows
      invariant |rows| == r
      invariant forall q :: 0 <= q < r ==> (rows[q].last <==> q == numRows - 1) && RowHolds(items, rows[q], q)
      invariant r * SpeciesPerRow < |items| + SpeciesPerRow
      invariant r > 0 && r * SpeciesPerRow <= |items| ==> genusColor == Color(items, r * SpeciesPerRow - 1)
      invariant r == 0 ==> genusColor == 1
    {
      var plants;
      plants, genusColor := DisplayRow(items, r, genusColor);
      rows := rows + [Row(r == numRows - 1, plants)];
    }
  }

  /** The inner loop of display_results over the four slots of row `r`. */
  method DisplayRow(items: seq<Species>, r: nat, color0: nat) returns (plants: seq<Plant>, color: nat)
    requires r * SpeciesPerRow < |items|
    requires r == 0 ==> color0 == 1
    requires r > 0 ==> color0 == Color(items, r * SpeciesPerRow - 1)
    ensures RowHolds(items, Row(false, plants), r)
    ensures (r + 1) * SpeciesPerRow <= |items| ==> color == Color(items, (r + 1) * SpeciesPerRow - 1)
  {
    plants := [];
    color := color0;
    var start := r * SpeciesPerRow;
    for s := start to start + SpeciesPerRow
      invariant |plants| == if s < |items| then s - start else RowSize(|items|, r)
      invariant forall k :: 0 <= k < |plants| ==> start + k < |items| && plants[k] == PlantAt(items, start + k)
      invariant s == 0 ==> color == 1
      invariant 0 < s <= |items| ==> color == Color(items, s - 1)
    {
      if s < |items| {
        var position;
        if s == start {
          position := First;
        } else if s == start + SpeciesPerRow - 1 || s + 1 >= |items| {
          position := Last;
        } else {
          position := Middle;
        }
        if s > 0 {
          if items[s].genus != items[s - 1].genus {
            color := color + 1;
            if color > NumGenusColors {
              color := 1;
            }
          }
        }
        assert s / SpeciesPerRow == r;
        plants := plants + [Plant(s, position, color, position == Last)];
      }
    }
  }
}
