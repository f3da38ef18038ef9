/** import_partner_species of importer.py: a partner site's species list
    is reconciled with the taxa the site knows. Each taxon, in order of
    scientific name, loses its partner species row when the partner does
    not list it and gains one when the partner lists it. */
module Partners {
  import opened Text

  /** ' '.join(cell.split()[:2]): the first two words of a cell. */
  function FirstTwoWords(cell: string): (r: string)
    ensures var w := Words(cell);
      (|w| >= 2 ==> r == w[0] + " " + w[1]) && (|w| == 1 ==> r == w[0]) && (w == [] ==> r == [])
  {
    var words := Words(cell);
    var kept := words[..if |words| < 2 then |words| else 2];
    if |words| >= 2 then
      assert kept == [words[0], words[1]] && kept[1..] == [words[1]];
      assert Join(kept, " ") == words[0] + " " + Join([words[1]], " ");
      Join(kept, " ")
    else
      assert |words| == 1 ==> kept == [words[0]];
      Join(kept, " ")
  }

  /** The names the partner lists: the first two words of each cell below
      the title row. */
  function Theirs(cells: seq<string>): set<string>
  {
    set cell | cell in cells :: FirstTwoWords(cell)
  }

  /** The partner's species, and the names removed and added, in the order
      the loop reaches them. */
  datatype Reconciled = Reconciled(partner: set<string>, removed: seq<string>, added: seq<string>)

  /** The loop over the taxa, one after the other. */
  function Reconcile(partner: set<string>, species: seq<string>, theirs: set<string>): (r: Reconciled)
    ensures partner * theirs <= r.partner <= partner + theirs
    decreases |species|
  {
    if species == [] then Reconciled(partner, [], [])
    else
      var r := Reconcile(partner, species[..|species| - 1], theirs);
      var name := species[|species| - 1];
      if name in r.partner && name !in theirs then r.(partner := r.partner - {name}, removed := r.removed + [name])
      else if name !in r.partner && name in theirs then r.(partner := r.partner + {name}, added := r.added + [name])
      else r
  }

  /** The loop of import_partner_species over the taxa, sorted by
      scientific name; `partner` holds the names with a partner species row. */
  method ReconcilePartner(species: seq<string>, theirs: set<string>, partner0: set<string>)
    returns (partner: set<string>, removed: seq<string>, added: seq<string>)
    ensures Reconciled(partner, removed, added) == Reconcile(partner0, species, theirs)
  {
    partner, removed, added := partner0, [], [];
    for i := 0 to |species|
      invariant Reconciled(partner, removed, added) == Reconcile(partner0, species[..i], theirs)
    {
      assert species[..i + 1][..i] == species[..i];
      var name := species[i];
      var ps := name in partner;
      if ps && name !in theirs {
        removed := removed + [name];
        partner := partner - {name};
      } else if !ps && name in theirs {
        added := added + [name];
        partner := partner + {name};
      }
    }
    assert species[..|species|] == species;
  }

  /** import_partner_species: the names the partner lists are read from the
      spreadsheet column below its title, and the taxa are reconciled with
      them. Every taxon ends with a partner row exactly when one of those
      cells names it, and any other name keeps the row it had. */
  method ImportPartnerSpecies(column: seq<string>, species: seq<string>, partner0: set<string>)
    returns (partner: set<string>, removed: seq<string>, added: seq<string>)
    ensures var cells := if column == [] then [] else column[1..];
      Reconciled(partner, removed, added) == Reconcile(partner0, species, Theirs(cells))
    ensures forall name :: name in species ==>
      (name in partner <==> exists k :: 1 <= k < |column| && FirstTwoWords(column[k]) == name)
    ensures forall name :: name !in species ==> (name in partner <==> name in partner0)
  {
    var cells := if column == [] then [] else column[1..];
    var theirs := Theirs(cells);
    partner, removed, added := ReconcilePartner(species, theirs, partner0);
    forall name | name in species
      ensures name in partner <==> exists k :: 1 <= k < |column| && FirstTwoWords(column[k]) == name
    {
      ReconcileName(partner0, species, theirs, name);
      if name in theirs {
        var cell :| cell in cells && FirstTwoWords(cell) == name;
        var k :| 0 <= k < |cells| && cells[k] == cell;
        assert column[k + 1] == cell;
      }
    }
    forall name | name !in species ensures name in partner <==> name in partner0 {
      ReconcileName(partner0, species, theirs, name);
    }
  }

  /** What happens to one name: a taxon keeps a partner row exactly when
      the partner lists it, a name that is no taxon keeps its status; it is
      removed when it had a row and is not listed, added when it had none
      and is listed. */
  lemma {:induction false} ReconcileName(partner: set<string>, species: seq<string>, theirs: set<string>, name: string)
    ensures var r := Reconcile(partner, species, theirs);
      (name in r.partner <==> if name in species then name in theirs else name in partner) &&
      (name in r.removed <==> name in species && name in partner && name !in theirs) &&
      (name in r.added <==> name in species && name !in partner && name in theirs)
    decreases |species|
  {
    if species != [] {
      var init := species[..|species| - 1];
      var last := species[|species| - 1];
      assert forall x :: x in species <==> x in init || x == last;
      ReconcileName(partner, init, theirs, name);
      if last != name {
        ReconcileName(partner, init, theirs, last);
      }
    }
  }

  /** When every partner row names a taxon, the partner ends up with
      exactly the known species: those both sides list. */
  lemma PartnerIsKnowns(partner: set<string>, species: seq<string>, theirs: set<string>)
    requires forall name :: name in partner ==> name in species
    ensures Reconcile(partner, species, theirs).partner == theirs * set name | name in species
  {
    var r := Reconcile(partner, species, theirs);
    forall name | name in r.partner ensures name in theirs && name in species {
      ReconcileName(partner, species, theirs, name);
    }
    forall name | name in theirs && name in species ensures name in r.partner {
      ReconcileName(partner, species, theirs, name);
    }
  }

  /** Reconciling again against the same list changes nothing more. */
  lemma ReconcileSettles(partner: set<string>, species: seq<string>, theirs: set<string>)
    ensures var once := Reconcile(partner, species, theirs);
      var twice := Reconcile(once.partner, species, theirs);
      twice.partner == once.partner && twice.removed == [] && twice.added == []
  {
    var once := Reconcile(partner, species, theirs);
    var twice := Reconcile(once.partner, species, theirs);
    forall name ensures name in twice.partner <==> name in once.partner {
      ReconcileName(partner, species, theirs, name);
      ReconcileName(once.partner, species, theirs, name);
    }
    if twice.removed != [] {
      var name := twice.removed[0];
      ReconcileName(partner, species, theirs, name);
      ReconcileName(once.partner, species, theirs, name);
    }
    if twice.added != [] {
      var name := twice.added[0];
      ReconcileName(partner, species, theirs, name);
      ReconcileName(once.partner, species, theirs, name);
    }
  }
}
