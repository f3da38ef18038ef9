/** Name helpers of the importer (gobotany/core/importer.py): scientific names
    without their taxonomic authority, character short names and the
    character names derived from them. */
module Names {
  import opened Wrappers
  import opened Text

  // ---------------------------------------------------------------------
  // Scientific names

  /** Words that introduce an infraspecific epithet. */
  const Connectors: seq<string> := ["subsp.", "ssp.", "var.", "subvar.", "f.", "forma", "subf."]

  /** Characters that stand for a space in exported names: no-break space,
      dagger, euro sign and a-circumflex. */
  const Unexpected: set<char> := {'\U{A0}', '\U{2020}', '\U{20AC}', '\U{E2}'}

  /** Every unexpected character replaced by a space (the four one-character
      replace calls, whose order does not matter). */
  function Respace(s: string): (r: string)
    ensures |r| == |s| && NoneOf(r, Unexpected)
    ensures forall i :: 0 <= i < |s| ==> (r[i] == ' ' <==> s[i] == ' ' || s[i] in Unexpected)
  {
    seq(|s|, i requires 0 <= i < |s| => if s[i] in Unexpected then ' ' else s[i])
  }

  /** The epithet cut at its first character other than a lower-case letter
      or a hyphen: re.search('[^a-z\-]'). */
  function CutEpithet(e: string): (r: string)
    ensures |r| <= |e| && r == e[..|r|]
    ensures forall i :: 0 <= i < |r| ==> IsLower(r[i]) || r[i] == '-'
    ensures |r| < |e| ==> !(IsLower(e[|r|]) || e[|r|] == '-')
    decreases |e|
  {
    if e == [] || !(IsLower(e[0]) || e[0] == '-') then []
    else
      var rest := CutEpithet(e[1..]);
      assert e[..|rest| + 1] == [e[0]] + e[1..][..|rest|];
      [e[0]] + rest
  }

  /** The connector and epithet found from word `i` on: the first connector
      not followed by another connector, with the word after it cut, or
      nothing when that connector ends the name or there is none. */
  function Infraspecific(words: seq<string>, i: nat): (r: seq<string>)
    ensures r == [] || (|r| == 2 && r[0] in Connectors)
    decreases |words| - i
  {
    if i >= |words| then []
    else if words[i] in Connectors then
      if i + 1 < |words| && words[i + 1] in Connectors then Infraspecific(words, i + 1)
      else if i + 1 < |words| then [words[i], CutEpithet(words[i + 1])]
      else []
    else Infraspecific(words, i + 1)
  }

  /** Word `j` is a connector and the next word is not. */
  predicate Introduces(words: seq<string>, j: int)
  {
    0 <= j < |words| - 1 && words[j] in Connectors && words[j + 1] !in Connectors
  }

  /** _strip_taxonomic_authority: genus, specific epithet without trailing
      commas, and at most one connector with its epithet; "" for a single word. */
  function StripAuthority(fullName: string): (r: string)
    ensures r == "" <==> |Split(Respace(fullName), ' ')| <= 1
  {
    var words := Split(Respace(fullName), ' ');
    if |words| > 1 then
      var parts := [words[0], Strip(words[1], {','})] + Infraspecific(words, 2);
      JoinLast(parts, " ");
      Join(parts, " ")
    else ""
  }

  /** _strip_taxonomic_authority, scanning the words as the source does. */
  method StripTaxonomicAuthority(fullName: string) returns (r: string)
    ensures r == StripAuthority(fullName)
  {
    var words := Split(Respace(fullName), ' ');
    var name: seq<string> := [];
    if |words| > 1 {
      name := [words[0], Strip(words[1], {','})];
      ghost var base := name;
      var i := 2;
      while i < |words|
        invariant 2 <= i <= |words|
        invariant name == base
        invariant Infraspecific(words, 2) == Infraspecific(words, i)
      {
        if words[i] in Connectors {
          var next := i + 1;
          if |words| > next && words[next] in Connectors {
            i := i + 1;
            continue;
          }
          if |words| > next {
            name := name + [words[i], CutEpithet(words[next])];
          }
          break;
        }
        i := i + 1;
      }
      assert name == base + Infraspecific(words, 2);
    }
    r := Join(name, " ");
  }

  /** A connector and epithet are added exactly when some connector is
      followed by a word that is not one; then they are the first such
      connector and its cut epithet. */
  lemma {:induction false} InfraspecificFound(words: seq<string>, i: nat) returns (j: nat)
    requires exists j :: i <= j && Introduces(words, j)
    ensures i <= j && Introduces(words, j)
    ensures forall m :: i <= m < j ==> !Introduces(words, m)
    ensures Infraspecific(words, i) == [words[j], CutEpithet(words[j + 1])]
    decreases |words| - i
  {
    if Introduces(words, i) {
      j := i;
    } else {
      var k :| i <= k && Introduces(words, k);
      assert k != i && i + 1 < |words|;
      j := InfraspecificFound(words, i + 1);
      InfraspecificSkip(words, i);
    }
  }

  /** A word that introduces nothing is passed over. */
  lemma InfraspecificSkip(words: seq<string>, i: nat)
    requires i + 1 < |words| && !Introduces(words, i)
    ensures Infraspecific(words, i) == Infraspecific(words, i + 1)
  {
  }

  lemma {:induction false} InfraspecificNone(words: seq<string>, i: nat)
    requires forall j :: i <= j ==> !Introduces(words, j)
    ensures Infraspecific(words, i) == []
    decreases |words| - i
  {
    if i < |words| {
      assert !Introduces(words, i);
      InfraspecificNone(words, i + 1);
    }
  }

  /** Something is added exactly when a connector is followed by a word that is not one. */
  lemma InfraspecificIff(words: seq<string>, i: nat)
    ensures Infraspecific(words, i) != [] <==> exists j :: i <= j && Introduces(words, j)
  {
    if exists j :: i <= j && Introduces(words, j) {
      var j := InfraspecificFound(words, i);
    } else {
      InfraspecificNone(words, i);
    }
  }

  /** The added part is empty or a connector with an epithet of lower-case
      letters and hyphens. */
  lemma InfraspecificShape(words: seq<string>, i: nat)
    ensures var r := Infraspecific(words, i);
      r == [] || (|r| == 2 && r[0] in Connectors &&
                  forall k :: 0 <= k < |r[1]| ==> IsLower(r[1][k]) || r[1][k] == '-')
  {
    if exists j :: i <= j && Introduces(words, j) {
      var j := InfraspecificFound(words, i);
    } else {
      InfraspecificNone(words, i);
    }
  }

  /** A name without spaces (or characters standing for them) is a single
      word and yields "". */
  lemma SingleWordEmpty(fullName: string)
    requires ' ' !in fullName && NoneOf(fullName, Unexpected)
    ensures StripAuthority(fullName) == ""
  {
    var s := Respace(fullName);
    assert ' ' !in s;
    NoDelimiterSplit(s, ' ');
  }

  lemma {:induction false} NoDelimiterSplit(s: string, d: char)
    requires d !in s
    ensures Split(s, d) == [s]
    decreases |s|
  {
    if s != [] {
      NoDelimiterSplit(s[1..], d);
      assert Split(s[1..], d) == SplitAny(s[1..], {d});
      assert [s[0]] + s[1..] == s;
    }
  }

  /** The result starts with the genus and the specific epithet, commas stripped. */
  lemma StripAuthorityStart(fullName: string)
    requires |Split(Respace(fullName), ' ')| > 1
    ensures var words := Split(Respace(fullName), ' ');
      StartsWith(StripAuthority(fullName), words[0] + " " + Strip(words[1], {','}))
  {
    var words := Split(Respace(fullName), ' ');
    var parts := [words[0], Strip(words[1], {','})] + Infraspecific(words, 2);
    InfraspecificShape(words, 2);
    JoinPrefix(parts, " ", 2);
    assert parts[..2] == [words[0], Strip(words[1], {','})];
    assert parts[..2][1..] == [Strip(words[1], {','})];
    assert Join(parts[..2], " ") == words[0] + " " + Join([Strip(words[1], {','})], " ");
    assert StripAuthority(fullName) == Join(parts, " ");
  }

  // ---------------------------------------------------------------------
  // Character names

  /** character_short_name: every "_min", then every "_max", deleted. */
  function CharacterShortName(rawName: string): (r: string)
    ensures |r| <= |rawName|
    ensures !Contains(rawName, "_min") && !Contains(rawName, "_max") ==> r == rawName
  {
    var noMin := Replace(rawName, "_min", []);
    ReplaceByEmptyShrinks(rawName, "_min");
    ReplaceByEmptyShrinks(noMin, "_max");
    assert !Contains(rawName, "_min") && !Contains(rawName, "_max") ==> Replace(noMin, "_max", []) == rawName by {
      if !Contains(rawName, "_min") && !Contains(rawName, "_max") {
        ReplaceAbsent(rawName, "_min", []);
        ReplaceAbsent(rawName, "_max", []);
      }
    }
    Replace(noMin, "_max", [])
  }

  /** The minimum and maximum columns of a range character share one short
      name, e.g. "leaf_length_min_ca" and "leaf_length_max_ca". */
  lemma MinMaxShortName(x: string, y: string)
    requires !Contains(x, "_min") && !Contains(x, "_max")
    requires !Contains(y, "_min") && !Contains(y, "_max")
    requires y == [] || y[0] == '_'
    ensures CharacterShortName(x + "_min" + y) == x + y
    ensures CharacterShortName(x + "_max" + y) == x + y
  {
    ReplaceInfix(x, "_min", y, []);
    assert x + [] + y == x + y;
    NotContainsAround(x, y, "_max");
    ReplaceAbsent(x + y, "_max", []);
    MaxHasNoMin(x, y);
    ReplaceAbsent(x + "_max" + y, "_min", []);
    ReplaceInfix(x, "_max", y, []);
  }

  /** No occurrence of `pat` starts inside `x` when `x` has none and the text
      after it starts with pat's first character, which pat does not repeat. */
  lemma NoOccurrenceBefore(x: string, rest: string, pat: string)
    requires pat != [] && !Contains(x, pat) && pat[0] !in pat[1..]
    requires rest != [] && rest[0] == pat[0]
    ensures forall j :: 0 <= j < |x| ==> !OccursAt(x + rest, pat, j)
  {
    var s := x + rest;
    forall j | 0 <= j < |x| ensures !OccursAt(s, pat, j) {
      if j + |pat| <= |x| {
        assert s[j..j + |pat|] == x[j..j + |pat|];
        assert !OccursAt(x, pat, j);
      } else if j + |pat| <= |s| {
        var k := |x| - j;
        assert s[|x|] == pat[0];
        assert s[j..j + |pat|][k] == s[|x|];
        assert pat[1..][k - 1] == pat[k];
      }
    }
  }

  lemma ReplaceInfix(x: string, pat: string, y: string, rep: string)
    requires pat != [] && !Contains(x, pat) && pat[0] !in pat[1..] && !Contains(y, pat)
    ensures Replace(x + pat + y, pat, rep) == x + rep + y
  {
    NoOccurrenceBefore(x, pat + y, pat);
    assert x + pat + y == x + (pat + y);
    ReplaceUnmatchedPrefix(x, pat + y, pat, rep);
    ReplaceAtFront(y, pat, rep);
    ReplaceAbsent(y, pat, rep);
  }

  lemma NotContainsAround(x: string, y: string, pat: string)
    requires pat != [] && !Contains(x, pat) && pat[0] !in pat[1..] && !Contains(y, pat)
    requires y == [] || y[0] == pat[0]
    ensures !Contains(x + y, pat)
  {
    if y == [] {
      assert x + y == x;
    } else {
      NoOccurrenceBefore(x, y, pat);
      forall j | |x| <= j ensures !OccursAt(x + y, pat, j) {
        if j + |pat| <= |x + y| {
          assert (x + y)[j..j + |pat|] == y[j - |x|..j - |x| + |pat|];
          assert !OccursAt(y, pat, j - |x|);
        }
      }
      assert forall j :: !OccursAt(x + y, pat, j);
    }
  }

  lemma MaxHasNoMin(x: string, y: string)
    requires !Contains(x, "_min") && !Contains(y, "_min")
    ensures !Contains(x + "_max" + y, "_min")
  {
    var pat := "_min";
    var s := x + "_max" + y;
    NoOccurrenceBefore(x, "_max" + y, pat);
    assert s == x + ("_max" + y);
    forall j | |x| <= j ensures !OccursAt(s, pat, j) {
      if j + 4 <= |s| {
        if j == |x| {
          assert s[j..j + 4][3] == 'x';
        } else if j < |x| + 4 {
          assert s[j] != '_';
          assert s[j..j + 4][0] == s[j];
        } else {
          assert s[j..j + 4] == y[j - |x| - 4..j - |x|];
          assert !OccursAt(y, pat, j - |x| - 4);
        }
      }
    }
    assert forall j :: !OccursAt(s, pat, j);
  }

  /** The name ends in "_" and two lower-case letters. */
  predicate EndsInPileSuffix(name: string)
  {
    |name| >= 3 && name[|name| - 3] == '_' && IsLower(name[|name| - 2]) && IsLower(name[|name| - 1])
  }

  /** re.search('_[a-z]{2}$'): Python's "$" also matches just before a
      final newline. */
  predicate HasPileSuffix(name: string)
  {
    EndsInPileSuffix(name) || (|name| >= 1 && name[|name| - 1] == '\n' && EndsInPileSuffix(name[..|name| - 1]))
  }

  /** _create_character_name: the pile suffix dropped, underscores turned
      into spaces, and the first letter capitalised. */
  function CreateCharacterName(shortName: string): (r: string)
    ensures |r| == if HasPileSuffix(shortName) then |shortName| - 3 else |shortName|
    ensures '_' !in r
  {
    var name := if HasPileSuffix(shortName) then shortName[..|shortName| - 3] else shortName;
    var spaced := Replace(name, "_", " ");
    ReplaceSameLength(name, "_", " ");
    ReplaceRemovesChar(name, "_", " ");
    var r := Capitalize(spaced);
    assert forall i :: 0 <= i < |r| ==> r[i] != '_' by {
      forall i | 0 <= i < |r| ensures r[i] != '_' {
        if i == 0 {
          assert r[0] == ToUpper(spaced[0]);
        } else {
          assert r[1..][i - 1] == r[i];
          assert r[i] == ToLower(spaced[i]);
        }
      }
    }
    r
  }

  /** A name with a pile suffix is named after the text before the suffix,
      e.g. "leaf_arrangement_ca" gives "Leaf arrangement". */
  lemma CharacterNameOfSuffixed(base: string, suffix: string)
    requires |suffix| == 2 && IsLower(suffix[0]) && IsLower(suffix[1])
    ensures CreateCharacterName(base + "_" + suffix) == Capitalize(Replace(base, "_", " "))
  {
    var s := base + "_" + suffix;
    assert HasPileSuffix(s);
    assert s[..|s| - 3] == base;
  }

  /** A pile suffix before a final newline is matched too, and name[:-3]
      then keeps its "_", so "leaf_ca\n" gives "Leaf ". */
  lemma CharacterNameBeforeNewline(base: string, suffix: string)
    requires |suffix| == 2 && IsLower(suffix[0]) && IsLower(suffix[1])
    ensures CreateCharacterName(base + "_" + suffix + "\n") == Capitalize(Replace(base + "_", "_", " "))
  {
    var s := base + "_" + suffix + "\n";
    assert s[..|s| - 1] == base + "_" + suffix;
    assert HasPileSuffix(s);
    assert s[..|s| - 3] == base + "_";
  }

  /** _get_character_friendly_name: the given friendly name, or one made from
      the short name when it is empty. */
  function FriendlyName(shortName: string, friendlyName: string): (r: string)
    ensures friendlyName != [] ==> r == friendlyName
    ensures friendlyName == [] ==> '_' !in r && |r| <= |shortName|
  {
    if friendlyName == [] then CreateCharacterName(shortName) else friendlyName
  }

  /** _has_unexpected_delimiter. */
  function HasUnexpectedDelimiter(text: string, delimiter: string): (r: bool)
    ensures r <==> exists j :: OccursAt(text, delimiter, j)
  {
    Find(text, delimiter) > -1
  }

  /** An empty delimiter is found in any text. */
  lemma EmptyDelimiterFound(text: string)
    ensures HasUnexpectedDelimiter(text, [])
  {
    assert OccursAt(text, [], 0);
  }
}
