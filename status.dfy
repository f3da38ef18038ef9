/** Per-state distribution and conservation status, and the roll-up of
    subspecies and variety status onto the species (gobotany/core/importer.py). */
module Status {
  import opened Wrappers
  import opened Text
  import opened Staging

  /** The qualifier a conservation status code adds to a present plant. */
  function Qualifier(code: string): (r: seq<string>)
    ensures |r| <= 1
    ensures r != [] ==> r[0] in QualifierWords
    ensures code == "X" || code == "" ==> r == []
  {
    if code == "E" then ["endangered"]
    else if code == "T" then ["threatened"]
    else if code in ["SC", "SC*"] then ["special concern"]
    else if code == "H" then ["historic"]
    else if code in ["C", "WL", "W", "Ind"] then ["rare"]
    else []
  }

  const QualifierWords: set<string> := {"endangered", "threatened", "special concern", "historic", "rare"}

  /** The status tokens of a plant listed in the state. */
  function PresentStatus(code: string, invasive: bool): seq<string>
  {
    ["present"] + Qualifier(code) + (if invasive then ["invasive"] else [])
  }

  /** The status tokens of a plant in one state, before they are joined
      with ", ". */
  function StateStatus(stateCode: string, distribution: seq<string>, code: string,
                       invasive: bool, prohibited: bool): seq<string>
  {
    var listed := if stateCode in distribution then PresentStatus(code, invasive) else ["absent"];
    var extirpated :=
      if code == "X" then (if listed == ["present"] || listed == ["absent"] then [] else listed) + ["extirpated"]
      else listed;
    extirpated + (if prohibited then ["prohibited"] else [])
  }

  /** _get_state_status. */
  method GetStateStatus(stateCode: string, distribution: seq<string>, code: string,
                        invasive: bool, prohibited: bool) returns (r: string)
    ensures r == Join(StateStatus(stateCode, distribution, code, invasive, prohibited), ", ")
  {
    var status := ["absent"];
    for i := 0 to |distribution|
      invariant status == if stateCode in distribution[..i] then PresentStatus(code, invasive) else ["absent"]
    {
      assert distribution[..i + 1] == distribution[..i] + [distribution[i]];
      if distribution[i] == stateCode {
        status := ["present"];
        if code == "E" {
          status := status + ["endangered"];
        } else if code == "T" {
          status := status + ["threatened"];
        } else if code in ["SC", "SC*"] {
          status := status + ["special concern"];
        } else if code == "H" {
          status := status + ["historic"];
        } else if code in ["C", "WL", "W", "Ind"] {
          status := status + ["rare"];
        }
        if invasive {
          status := status + ["invasive"];
        }
      }
    }
    assert distribution[..|distribution|] == distribution;
    if code == "X" {
      if status == ["present"] || status == ["absent"] {
        status := [];
      }
      status := status + ["extirpated"];
    }
    if prohibited {
      status := status + ["prohibited"];
    }
    assert status == StateStatus(stateCode, distribution, code, invasive, prohibited);
    r := Join(status, ", ");
  }

  /** "present" is reported exactly for a listed plant, unless code X leaves
      "extirpated" alone. */
  lemma PresentIffListed(stateCode: string, distribution: seq<string>, code: string, invasive: bool, prohibited: bool)
    ensures var r := StateStatus(stateCode, distribution, code, invasive, prohibited);
      "present" in r <==> stateCode in distribution && (code != "X" || invasive)
  {
    var r := StateStatus(stateCode, distribution, code, invasive, prohibited);
    if stateCode in distribution && code == "X" && invasive {
      assert r[0] == "present";
    }
  }

  /** "absent" is reported exactly for an unlisted plant without code X. */
  lemma AbsentIffUnlisted(stateCode: string, distribution: seq<string>, code: string, invasive: bool, prohibited: bool)
    ensures var r := StateStatus(stateCode, distribution, code, invasive, prohibited);
      "absent" in r <==> stateCode !in distribution && code != "X"
  {
    var r := StateStatus(stateCode, distribution, code, invasive, prohibited);
    if stateCode !in distribution && code != "X" {
      assert r[0] == "absent";
    }
  }

  /** "invasive" is reported only for a listed plant. */
  lemma InvasiveIffListed(stateCode: string, distribution: seq<string>, code: string, invasive: bool, prohibited: bool)
    ensures var r := StateStatus(stateCode, distribution, code, invasive, prohibited);
      "invasive" in r <==> stateCode in distribution && invasive
  {
    var r := StateStatus(stateCode, distribution, code, invasive, prohibited);
    var q := Qualifier(code);
    if stateCode in distribution && invasive {
      assert r[1 + |q|] == "invasive";
    }
  }

  /** At most one qualifier is reported, right after "present". */
  lemma QualifierFollowsPresent(stateCode: string, distribution: seq<string>, code: string, invasive: bool, prohibited: bool)
    ensures var r := StateStatus(stateCode, distribution, code, invasive, prohibited);
      forall i :: 0 <= i < |r| && r[i] in QualifierWords ==>
        i == 1 && r[0] == "present" && r[1] == Qualifier(code)[0]
  {
  }

  /** A plant listed in the state reports the qualifier of its code, and
      only that one: E endangered, T threatened, SC or SC* special concern,
      H historic, and C, WL, W or Ind rare. */
  lemma ListedQualifier(stateCode: string, distribution: seq<string>, code: string, invasive: bool, prohibited: bool)
    requires stateCode in distribution
    ensures var r := StateStatus(stateCode, distribution, code, invasive, prohibited);
      ("endangered" in r <==> code == "E") &&
      ("threatened" in r <==> code == "T") &&
      ("special concern" in r <==> code in ["SC", "SC*"]) &&
      ("historic" in r <==> code == "H") &&
      ("rare" in r <==> code in ["C", "WL", "W", "Ind"])
  {
    var r := StateStatus(stateCode, distribution, code, invasive, prohibited);
    var q := Qualifier(code);
    if q != [] {
      assert r[1] == q[0];
    }
    QualifierFollowsPresent(stateCode, distribution, code, invasive, prohibited);
  }

  /** Code X reports "extirpated"; without an earlier qualifier or invasive
      flag it stands alone, followed only by "prohibited". */
  lemma ExtirpatedAlone(stateCode: string, distribution: seq<string>, code: string, invasive: bool, prohibited: bool)
    ensures var r := StateStatus(stateCode, distribution, code, invasive, prohibited);
      ("extirpated" in r <==> code == "X") &&
      (code == "X" && !(stateCode in distribution && invasive) ==>
        r == ["extirpated"] + (if prohibited then ["prohibited"] else []))
  {
    var r := StateStatus(stateCode, distribution, code, invasive, prohibited);
    if code == "X" {
      assert "extirpated" in r[..|r| - (if prohibited then 1 else 0)];
    }
  }

  /** "prohibited" is reported, last, exactly for prohibited plants, listed or not. */
  lemma ProhibitedLast(stateCode: string, distribution: seq<string>, code: string, invasive: bool, prohibited: bool)
    ensures var r := StateStatus(stateCode, distribution, code, invasive, prohibited);
      r != [] && ("prohibited" in r <==> prohibited) && (prohibited ==> r[|r| - 1] == "prohibited")
  {
  }

  const States: seq<string> := ["CT", "MA", "ME", "NH", "RI", "VT"]

  /** The data-row column holding a state's conservation status code. */
  function StatusColumn(state: string): string
  {
    "conservation_status_" + Lower(state)
  }

  /** A "|"-separated list of states with spaces removed; an empty field is no state. */
  function ParseStates(field: string): seq<string>
  {
    if field == [] then [] else Split(Replace(field, " ", []), '|')
  }

  /** A list written with "|" between the states is read back as written. */
  lemma ParseStatesOfJoin(states: seq<string>)
    requires forall k :: 0 <= k < |states| ==> states[k] != [] && ' ' !in states[k] && '|' !in states[k]
    ensures ParseStates(Join(states, "|")) == states
  {
    if states != [] {
      var field := Join(states, "|");
      JoinPrefix(states, "|", 1);
      assert states[..1] == [states[0]];
      assert field != [];
      NoSpaceInJoin(states);
      ReplaceAbsent(field, " ", []);
      SplitJoin(states, '|');
    }
  }

  lemma {:induction false} NoSpaceInJoin(states: seq<string>)
    requires forall k :: 0 <= k < |states| ==> ' ' !in states[k]
    ensures ' ' !in Join(states, "|") && !Contains(Join(states, "|"), " ")
  {
    if |states| > 1 {
      NoSpaceInJoin(states[1..]);
    }
    var field := Join(states, "|");
    forall j ensures !OccursAt(field, " ", j) {
      if 0 <= j && j + 1 <= |field| {
        assert field[j..j + 1][0] == field[j];
      }
    }
  }

  /** The joined status of every state. */
  function AllStatesStatus(distribution: string, invasiveInStates: string, prohibitedInStates: string,
                           row: map<string, string>): (r: map<string, string>)
    requires forall st :: st in States ==> StatusColumn(st) in row
    ensures forall st :: st in r <==> st in States
  {
    map st | st in States ::
      Join(StateStatus(st, ParseStates(distribution), row[StatusColumn(st)],
                       st in ParseStates(invasiveInStates), st in ParseStates(prohibitedInStates)), ", ")
  }

  /** _get_all_states_status: the joined status of every state, or a KeyError
      when the data row lacks a state's status column. */
  method GetAllStatesStatus(distribution: string, invasiveInStates: string, prohibitedInStates: string,
                            row: map<string, string>) returns (r: Result<map<string, string>, string>)
    ensures r.Ok? <==> forall st :: st in States ==> StatusColumn(st) in row
    ensures r.Ok? ==> r.value == AllStatesStatus(distribution, invasiveInStates, prohibitedInStates, row)
  {
    r := StatusesOf(States, ParseStates(distribution), ParseStates(invasiveInStates),
                    ParseStates(prohibitedInStates), row);
  }

  /** The loop of _get_all_states_status over a list of states. */
  method StatusesOf(states: seq<string>, listed: seq<string>, invasive: seq<string>, prohibited: seq<string>,
                    row: map<string, string>) returns (r: Result<map<string, string>, string>)
    ensures r.Ok? <==> forall st :: st in states ==> StatusColumn(st) in row
    ensures r.Ok? ==> (r.value == map st | st in states ::
      Join(StateStatus(st, listed, row[StatusColumn(st)], st in invasive, st in prohibited), ", "))
  {
    var statuses: map<string, string> := map st | st in states :: "";
    for i := 0 to |states|
      invariant statuses.Keys == set st | st in states
      invariant forall st :: st in states[..i] ==> StatusColumn(st) in row
      invariant forall st :: st in states[..i] ==>
        statuses[st] == Join(StateStatus(st, listed, row[StatusColumn(st)], st in invasive, st in prohibited), ", ")
    {
      assert forall st :: st in states[..i + 1] <==> st in states[..i] || st == states[i];
      var st := states[i];
      if StatusColumn(st) !in row {
        return Err("KeyError");
      }
      var s := GetStateStatus(st, listed, row[StatusColumn(st)], st in invasive, st in prohibited);
      statuses := statuses[st := s];
    }
    assert states[..|states|] == states;
    r := Ok(statuses);
  }

  /** status_precedence: higher values override lower ones. */
  const StatusPrecedence: map<string, int> := map[
    "Species noxious" := 13,
    "Species present in state and exotic" := 12,
    "Species exotic and present" := 11,
    "Species waif" := 10,
    "Species present in state and native" := 9,
    "Species present and not rare" := 8,
    "Species native, but adventive in state" := 7,
    "Species present and rare" := 6,
    "Species extirpated (historic)" := 5,
    "Species extinct" := 4,
    "Species not present in state" := 3,
    "Species eradicated" := 2,
    "Questionable Presence (cross-hatched)" := 1,
    "" := 0]

  /** No status ranks below the missing status, and no two statuses tie. */
  lemma PrecedenceOrder()
    ensures forall s :: s in StatusPrecedence ==> 0 <= StatusPrecedence[s] <= 13
    ensures forall s, t :: s in StatusPrecedence && t in StatusPrecedence && s != t ==>
      StatusPrecedence[s] != StatusPrecedence[t]
    ensures StatusPrecedence[""] == 0
  {
  }

  /** _extract_scientific_name: the species of a variety or subspecies name,
      the name itself otherwise. */
  function ExtractScientificName(name: string): (r: string)
    ensures |r| <= |name|
  {
    if !(Contains(name, "var.") || Contains(name, "ssp.")) then name
    else if Contains(name, "var.") then Strip(name[..Find(name, "var.")], Whitespace)
    else Strip(name[..Find(name, "ssp.")], Whitespace)
  }

  /** A name is its own species exactly when it names no variety or subspecies. */
  lemma ExtractUnchangedIff(name: string)
    ensures ExtractScientificName(name) == name <==> !(Contains(name, "var.") || Contains(name, "ssp."))
  {
    if Contains(name, "var.") {
      assert Find(name, "var.") + 4 <= |name|;
    } else if Contains(name, "ssp.") {
      assert Find(name, "ssp.") + 4 <= |name|;
    }
  }

  /** The species of "<species> var. <epithet>" is <species>. */
  lemma ExtractOfVariety(species: string, epithet: string)
    requires species != [] && species[0] !in Whitespace && species[|species| - 1] !in Whitespace
    requires '.' !in species
    ensures ExtractScientificName(species + " var. " + epithet) == species
  {
    var name := species + " var. " + epithet;
    VarAfterSpecies(species, epithet);
    assert name[..|species| + 1] == species + " ";
    StripTrailingSpace(species);
  }

  /** In "<species> var. <epithet>" the first "var." follows the species and a space. */
  lemma VarAfterSpecies(species: string, epithet: string)
    requires '.' !in species
    ensures Find(species + " var. " + epithet, "var.") == |species| + 1
  {
    var name := species + " var. " + epithet;
    var n := |species|;
    assert OccursAt(name, "var.", n + 1) by {
      assert name[n + 1..n + 5] == "var.";
    }
    forall j | 0 <= j < n + 1 ensures !OccursAt(name, "var.", j) {
      if j + 4 <= |name| {
        assert name[j + 3] != '.' by {
          if j + 3 < n {
            assert name[j + 3] == species[j + 3];
          }
        }
        assert name[j..j + 4][3] == name[j + 3];
      }
    }
  }

  /** Stripping "<species> " gives the species when its ends are not whitespace. */
  lemma StripTrailingSpace(species: string)
    requires species != [] && species[0] !in Whitespace && species[|species| - 1] !in Whitespace
    ensures Strip(species + " ", Whitespace) == species
  {
    var p := species + " ";
    assert StripLeft(p, Whitespace) == p;
    assert p[..|p| - 1] == species;
    assert StripRight(p, Whitespace) == species;
    assert StripRight(species, Whitespace) == species;
  }

  /** The key of a distribution row. */
  function DistributionKey(name: string, state: string, county: string): Record
  {
    map["scientific_name" := Str(name), "state" := Str(state), "county" := Str(county)]
  }

  /** `row.get('status') or ''`. */
  function StatusOf(rec: Record): string
  {
    match FieldOf(rec, "status")
    case Some(Str(s)) => s
    case _ => ""
  }

  /** _apply_subspecies_status on the distribution table's rows: a variety or
      subspecies row passes its status up to the species row for the same
      state and county when it ranks strictly higher. */
  function SubspeciesStep(rows: map<Record, Record>, row: map<string, string>): (r: Result<map<Record, Record>, string>)
    ensures r.Ok? ==> rows.Keys <= r.value.Keys
  {
    if !("status" in row && "scientific_name" in row && "state" in row && "county" in row) then Err("KeyError")
    else
      var full := row["scientific_name"];
      var name := ExtractScientificName(full);
      if name == full then Ok(rows)
      else
        var key := DistributionKey(name, row["state"], row["county"]);
        if row["status"] !in StatusPrecedence || CurrentStatus(rows, key) !in StatusPrecedence then Err("KeyError")
        else Ok(RollUp(rows, key, row["status"]))
  }

  /** The status of the row for `key`, "" when there is none. */
  function CurrentStatus(rows: map<Record, Record>, key: Record): string
  {
    if key in rows then StatusOf(rows[key]) else ""
  }

  /** The species row takes `status` when it ranks strictly higher than its own. */
  function RollUp(rows: map<Record, Record>, key: Record, status: string): (r: map<Record, Record>)
    requires status in StatusPrecedence && CurrentStatus(rows, key) in StatusPrecedence
    ensures r.Keys == rows.Keys + {key}
  {
    if StatusPrecedence[status] > StatusPrecedence[CurrentStatus(rows, key)] then
      Staged(rows, key, map["status" := Str(status)])
    else Touched(rows, key)
  }

  /** After a roll-up the row holds whichever of the two statuses ranks
      higher, and every other row is as it was. */
  lemma RollUpTakesHigher(rows: map<Record, Record>, key: Record, status: string)
    requires status in StatusPrecedence && CurrentStatus(rows, key) in StatusPrecedence
    ensures var m := RollUp(rows, key, status);
      var p := StatusPrecedence[status];
      var q := StatusPrecedence[CurrentStatus(rows, key)];
      key in m && StatusOf(m[key]) in StatusPrecedence &&
      StatusPrecedence[StatusOf(m[key])] == (if p > q then p else q) &&
      forall k :: k in rows && k != key ==> k in m && m[k] == rows[k]
  {
    var m := RollUp(rows, key, status);
    if StatusPrecedence[status] > StatusPrecedence[CurrentStatus(rows, key)] {
      assert FieldOf(m[key], "status") == Some(Str(status));
    } else if key !in rows {
      assert FieldOf(m[key], "status") == None;
    }
  }

  method ApplySubspeciesStatus(row: map<string, string>, distribution: Table) returns (err: Option<string>)
    modifies distribution
    ensures err.None? <==> SubspeciesStep(old(distribution.rows), row).Ok?
    ensures err.None? ==> distribution.rows == SubspeciesStep(old(distribution.rows), row).value
  {
    if !("status" in row && "scientific_name" in row && "state" in row && "county" in row) {
      return Some("KeyError");
    }
    var status := row["status"];
    var full := row["scientific_name"];
    var name := ExtractScientificName(full);
    if name == full {
      return None;
    }
    var key := DistributionKey(name, row["state"], row["county"]);
    distribution.Get(key);
    var current := StatusOf(distribution.rows[key]);
    assert current == CurrentStatus(old(distribution.rows), key);
    if status !in StatusPrecedence || current !in StatusPrecedence {
      return Some("KeyError");
    }
    if StatusPrecedence[status] > StatusPrecedence[current] {
      distribution.GetSet(key, map["status" := Str(status)]);
    }
    err := None;
  }

  /** A name without variety or subspecies changes nothing. */
  lemma SubspeciesNoOp(rows: map<Record, Record>, row: map<string, string>)
    requires "status" in row && "scientific_name" in row && "state" in row && "county" in row
    requires !(Contains(row["scientific_name"], "var.") || Contains(row["scientific_name"], "ssp."))
    ensures SubspeciesStep(rows, row) == Ok(rows)
  {
  }

  /** After a roll-up the species row holds whichever of the two statuses
      ranks higher (a missing status counting as "" = 0), and every other row
      is as it was. */
  lemma SubspeciesTakesHigher(rows: map<Record, Record>, row: map<string, string>)
    requires "status" in row && "scientific_name" in row && "state" in row && "county" in row
    requires Contains(row["scientific_name"], "var.") || Contains(row["scientific_name"], "ssp.")
    requires SubspeciesStep(rows, row).Ok?
    ensures var key := DistributionKey(ExtractScientificName(row["scientific_name"]), row["state"], row["county"]);
      var m := SubspeciesStep(rows, row).value;
      var p := StatusPrecedence[row["status"]];
      var q := StatusPrecedence[CurrentStatus(rows, key)];
      key in m && StatusOf(m[key]) in StatusPrecedence &&
      StatusPrecedence[StatusOf(m[key])] == (if p > q then p else q) &&
      forall k :: k in rows && k != key ==> k in m && m[k] == rows[k]
  {
    ExtractUnchangedIff(row["scientific_name"]);
    var key := DistributionKey(ExtractScientificName(row["scientific_name"]), row["state"], row["county"]);
    RollUpTakesHigher(rows, key, row["status"]);
  }

  /** The roll-up fails exactly on a status missing from the precedence table. */
  lemma SubspeciesKeyError(rows: map<Record, Record>, row: map<string, string>)
    requires "status" in row && "scientific_name" in row && "state" in row && "county" in row
    requires Contains(row["scientific_name"], "var.") || Contains(row["scientific_name"], "ssp.")
    ensures var key := DistributionKey(ExtractScientificName(row["scientific_name"]), row["state"], row["county"]);
      SubspeciesStep(rows, row).Err? <==> row["status"] !in StatusPrecedence || CurrentStatus(rows, key) !in StatusPrecedence
  {
    ExtractUnchangedIff(row["scientific_name"]);
  }

  /** The column _import_distributions reads statuses from: "edited data"
      when the first row has it, "status" otherwise. */
  function ChosenColumn(rows: seq<map<string, string>>): (c: string)
    ensures c == "edited data" <==> rows != [] && "edited data" in rows[0]
  {
    if rows != [] && "edited data" in rows[0] then "edited data" else "status"
  }

  /** One row of _import_distributions: stage the row's status, then roll it
      up when the plain status column is in use. */
  function ImportRow(rows: map<Record, Record>, row: map<string, string>, column: string): (r: Result<map<Record, Record>, string>)
    ensures r.Ok? ==> (Keyed(row, column) && rows.Keys <= r.value.Keys &&
      DistributionKey(row["scientific_name"], row["state"], row["county"]) in r.value)
  {
    if !Keyed(row, column) then Err("KeyError")
    else
      var staged := Staged(rows, DistributionKey(row["scientific_name"], row["state"], row["county"]),
                           map["status" := Str(row[column])]);
      if column == "status" then SubspeciesStep(staged, row) else Ok(staged)
  }

  /** The rows imported in order, stopping at the first error. */
  function ImportAll(rows: map<Record, Record>, data: seq<map<string, string>>, column: string): Result<map<Record, Record>, string>
    decreases |data|
  {
    if data == [] then Ok(rows)
    else match ImportAll(rows, data[..|data| - 1], column)
      case Err(e) => Err(e)
      case Ok(m) => ImportRow(m, data[|data| - 1], column)
  }

  /** _import_distributions. */
  method ImportDistributions(data: seq<map<string, string>>, distribution: Table) returns (err: Option<string>)
    modifies distribution
    ensures var r := ImportAll(old(distribution.rows), data, ChosenColumn(data));
      (err.None? <==> r.Ok?) && (err.None? ==> distribution.rows == r.value)
  {
    var column := ChosenColumn(data);
    ghost var start := distribution.rows;
    for i := 0 to |data|
      invariant ImportAll(start, data[..i], column) == Ok(distribution.rows)
    {
      assert data[..i + 1][..i] == data[..i];
      var row := data[i];
      if !("scientific_name" in row && "state" in row && "county" in row && column in row) {
        assert ImportAll(start, data[..i + 1], column).Err?;
        ErrorPersists(start, data, column, i + 1);
        return Some("KeyError");
      }
      distribution.GetSet(DistributionKey(row["scientific_name"], row["state"], row["county"]),
                          map["status" := Str(row[column])]);
      if column == "status" {
        err := ApplySubspeciesStatus(row, distribution);
        if err.Some? {
          ErrorPersists(start, data, column, i + 1);
          return err;
        }
      }
    }
    assert data[..|data|] == data;
    err := None;
  }

  /** Once a prefix of the rows fails, the whole import fails. */
  lemma {:induction false} ErrorPersists(rows: map<Record, Record>, data: seq<map<string, string>>, column: string, n: nat)
    requires n <= |data| && ImportAll(rows, data[..n], column).Err?
    ensures ImportAll(rows, data, column).Err?
    decreases |data| - n
  {
    if n < |data| {
      assert data[..n + 1][..n] == data[..n];
      ErrorPersists(rows, data, column, n + 1);
    } else {
      assert data[..n] == data;
    }
  }

  /** The last row imported decides its own row's status: a roll-up only
      ever writes to a species row, whose name differs from the variety's. */
  lemma LastRowStatus(rows: map<Record, Record>, data: seq<map<string, string>>, column: string)
    requires data != [] && ImportAll(rows, data, column).Ok?
    ensures var last := data[|data| - 1];
      var key := DistributionKey(last["scientific_name"], last["state"], last["county"]);
      var m := ImportAll(rows, data, column).value;
      key in m && StatusOf(m[key]) == last[column]
  {
    var prev := ImportAll(rows, data[..|data| - 1], column).value;
    ImportRowOwnStatus(prev, data[|data| - 1], column);
  }

  lemma ImportRowOwnStatus(rows: map<Record, Record>, row: map<string, string>, column: string)
    requires ImportRow(rows, row, column).Ok?
    ensures var key := DistributionKey(row["scientific_name"], row["state"], row["county"]);
      var m := ImportRow(rows, row, column).value;
      key in m && StatusOf(m[key]) == row[column]
  {
    var key := DistributionKey(row["scientific_name"], row["state"], row["county"]);
    var staged := Staged(rows, key, map["status" := Str(row[column])]);
    StagedStatus(rows, key, row[column]);
    if column == "status" {
      assert ImportRow(rows, row, column) == SubspeciesStep(staged, row);
      SubspeciesKeepsOwnRow(staged, row, key);
    } else {
      assert ImportRow(rows, row, column) == Ok(staged);
    }
  }

  /** A staged status is the row's status. */
  lemma StagedStatus(rows: map<Record, Record>, key: Record, status: string)
    ensures var m := Staged(rows, key, map["status" := Str(status)]);
      key in m && StatusOf(m[key]) == status
  {
    var m := Staged(rows, key, map["status" := Str(status)]);
    assert FieldOf(m[key], "status") == Some(Str(status));
  }

  /** The roll-up of a variety's status leaves the variety's own row alone. */
  lemma SubspeciesKeepsOwnRow(rows: map<Record, Record>, row: map<string, string>, key: Record)
    requires SubspeciesStep(rows, row).Ok?
    requires key in rows && "scientific_name" in key && key["scientific_name"] == Str(row["scientific_name"])
    ensures key in SubspeciesStep(rows, row).value && SubspeciesStep(rows, row).value[key] == rows[key]
  {
    var full := row["scientific_name"];
    var name := ExtractScientificName(full);
    if name != full {
      var parent := DistributionKey(name, row["state"], row["county"]);
      assert parent["scientific_name"] != key["scientific_name"];
      RollUpTakesHigher(rows, parent, row["status"]);
    }
  }

  /** The columns a distribution row needs. */
  predicate Keyed(row: map<string, string>, column: string)
  {
    "scientific_name" in row && "state" in row && "county" in row && column in row
  }

  /** Rows, once staged, stay: the import only adds rows. */
  lemma {:induction false} ImportKeepsRows(rows: map<Record, Record>, data: seq<map<string, string>>, column: string)
    requires ImportAll(rows, data, column).Ok?
    ensures rows.Keys <= ImportAll(rows, data, column).value.Keys
    decreases |data|
  {
    if data != [] {
      var init := data[..|data| - 1];
      ImportKeepsRows(rows, init, column);
    }
  }

  /** A successful import read every row and staged a row for its key. */
  lemma {:induction false} ImportStagesEveryRow(rows: map<Record, Record>, data: seq<map<string, string>>, column: string)
    requires ImportAll(rows, data, column).Ok?
    ensures forall k :: 0 <= k < |data| ==> (Keyed(data[k], column) &&
      DistributionKey(data[k]["scientific_name"], data[k]["state"], data[k]["county"]) in ImportAll(rows, data, column).value)
    decreases |data|
  {
    if data != [] {
      var init := data[..|data| - 1];
      ImportStagesEveryRow(rows, init, column);
      var m := ImportAll(rows, init, column).value;
      var m' := ImportAll(rows, data, column).value;
      assert m.Keys <= m'.Keys;
      forall k | 0 <= k < |data| - 1
        ensures Keyed(data[k], column) &&
          DistributionKey(data[k]["scientific_name"], data[k]["state"], data[k]["county"]) in m'
      {
        assert data[k] == init[k];
      }
    }
  }
}
