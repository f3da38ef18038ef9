/** Search suggestions for the Simple Key pages (gobotany/search/models.py).
    The regular-expression split of each input string is a parameter: it
    yields the pieces of the string, a piece being None where an optional
    group of the pattern did not take part in the match. */
module Search {
  import opened Wrappers
  import opened Text

  /** The constants of the pipeline. The proofs hold for any rules that count
      None as junk; the page functions use SimpleKeyRules. */
  datatype Rules = Rules(
    junk: seq<Option<string>>,    // pieces left over by the split that are never suggestions
    maxLength: int,               // only suggestions shorter than this are kept
    words: seq<string>,           // words and characters deleted, in this order
    prefixes: seq<string>)        // suggestions starting with one of these are dropped

  const SimpleKeyRules := Rules(
    [None, Some(""), Some(" "), Some(", "), Some("and "), Some("for "), Some("with ")],
    30,
    ["all", "others", "other", "long", "plus", "herbaceous", "\""],
    ["plants", "relatives", "related", "no", "lacking", "leaves", "stems", "obvious"])

  /** The pieces of all input strings, in order. */
  function Pieces(inputs: seq<string>, split: string -> seq<Option<string>>): seq<Option<string>>
  {
    if inputs == [] then [] else split(inputs[0]) + Pieces(inputs[1..], split)
  }

  /** The lower-cased pieces that are not junk. */
  function DropJunk(pieces: seq<Option<string>>, junk: seq<Option<string>>): (r: seq<string>)
    requires None in junk
    ensures forall s :: s in r <==>
      exists k :: 0 <= k < |pieces| && pieces[k] !in junk && s == Lower(pieces[k].value)
  {
    if pieces == [] then []
    else
      var rest := DropJunk(pieces[1..], junk);
      assert forall k :: 1 <= k < |pieces| ==> pieces[k] == pieces[1..][k - 1];
      if pieces[0] in junk then rest
      else [Lower(pieces[0].value)] + rest
  }

  /** The suggestions shorter than the maximum length. */
  function KeepShort(ss: seq<string>, maxLength: int): (r: seq<string>)
    ensures forall s :: s in r <==> s in ss && |s| < maxLength
  {
    if ss == [] then []
    else if |ss[0]| < maxLength then [ss[0]] + KeepShort(ss[1..], maxLength)
    else KeepShort(ss[1..], maxLength)
  }

  /** str.replace(word, ''); replacing the empty word by nothing changes nothing. */
  function Delete(s: string, word: string): string
  {
    if word == [] then s else Replace(s, word, [])
  }

  /** Every occurrence of each word deleted in turn. */
  function RemoveAll(s: string, words: seq<string>): string
    decreases |words|
  {
    if words == [] then s else RemoveAll(Delete(s, words[0]), words[1..])
  }

  /** One pass of the word-removal loop over every suggestion. */
  function RemoveWord(ss: seq<string>, word: string): (r: seq<string>)
    ensures |r| == |ss| && forall i :: 0 <= i < |ss| ==> r[i] == Delete(ss[i], word)
  {
    seq(|ss|, i requires 0 <= i < |ss| => Delete(ss[i], word))
  }

  /** The word-removal loop: one pass per word, in order. */
  function RemoveWords(ss: seq<string>, words: seq<string>): (r: seq<string>)
    ensures |r| == |ss| && forall i :: 0 <= i < |ss| ==> r[i] == RemoveAll(ss[i], words)
    decreases |words|
  {
    if words == [] then ss else RemoveWords(RemoveWord(ss, words[0]), words[1..])
  }

  /** Every suggestion stripped of surrounding whitespace. */
  function StripEach(ss: seq<string>): (r: seq<string>)
    ensures |r| == |ss| && forall i :: 0 <= i < |ss| ==> r[i] == Strip(ss[i], Whitespace)
  {
    seq(|ss|, i requires 0 <= i < |ss| => Strip(ss[i], Whitespace))
  }

  /** The suggestions for which find(prefix) is not 0. */
  function DropPrefix(ss: seq<string>, prefix: string): (r: seq<string>)
    ensures forall s :: s in r <==> s in ss && Find(s, prefix) != 0
  {
    if ss == [] then []
    else if Find(ss[0], prefix) != 0 then [ss[0]] + DropPrefix(ss[1..], prefix)
    else DropPrefix(ss[1..], prefix)
  }

  /** The prefix loop: one filtering pass per prefix. */
  function DropPrefixes(ss: seq<string>, prefixes: seq<string>): (r: seq<string>)
    ensures forall s :: s in r <==>
      s in ss && forall k :: 0 <= k < |prefixes| ==> Find(s, prefixes[k]) != 0
    decreases |prefixes|
  {
    if prefixes == [] then ss
    else
      var r := DropPrefixes(DropPrefix(ss, prefixes[0]), prefixes[1..]);
      assert forall s :: (forall k :: 0 <= k < |prefixes| ==> Find(s, prefixes[k]) != 0) <==>
        Find(s, prefixes[0]) != 0 && forall k :: 0 <= k < |prefixes[1..]| ==> Find(s, prefixes[1..][k]) != 0;
      r
  }

  /** _get_search_suggestions after the split: the distinct suggestions drawn
      from the pieces. */
  function Suggestions(pieces: seq<Option<string>>, rules: Rules): (r: set<string>)
    requires None in rules.junk
    ensures [] !in r
  {
    var short := KeepShort(DropJunk(pieces, rules.junk), rules.maxLength);
    var cleaned := StripEach(RemoveWords(short, rules.words));
    var kept := DropPrefixes(NonEmpty(cleaned), rules.prefixes);
    set s | s in kept
  }

  /** _get_search_suggestions of a list of input strings. */
  function GetSearchSuggestions(inputs: seq<string>, split: string -> seq<Option<string>>): (r: set<string>)
    ensures forall s :: s in r <==> Suggested(s, Pieces(inputs, split), SimpleKeyRules)
  {
    SuggestionsCharacterized(Pieces(inputs, split), SimpleKeyRules);
    Suggestions(Pieces(inputs, split), SimpleKeyRules)
  }

  /** What one piece becomes when it is kept. */
  function Normalize(piece: string, rules: Rules): string
  {
    Strip(RemoveAll(Lower(piece), rules.words), Whitespace)
  }

  /** A piece survives every filter of the pipeline. */
  predicate Accepted(piece: Option<string>, rules: Rules)
  {
    piece !in rules.junk && piece.Some? && |piece.value| < rules.maxLength &&
    Normalize(piece.value, rules) != [] &&
    forall k :: 0 <= k < |rules.prefixes| ==> !StartsWith(Normalize(piece.value, rules), rules.prefixes[k])
  }

  /** `s` is what some accepted piece becomes. */
  predicate Suggested(s: string, pieces: seq<Option<string>>, rules: Rules)
  {
    exists k :: 0 <= k < |pieces| && Accepted(pieces[k], rules) && s == Normalize(pieces[k].value, rules)
  }

  /** The suggestions are exactly the normalised forms of the accepted pieces. */
  lemma {:induction false} SuggestionsCharacterized(pieces: seq<Option<string>>, rules: Rules)
    requires None in rules.junk
    ensures forall s :: s in Suggestions(pieces, rules) <==> Suggested(s, pieces, rules)
  {
    forall s ensures s in Suggestions(pieces, rules) <==> Suggested(s, pieces, rules) {
      if s in Suggestions(pieces, rules) {
        SuggestionSound(pieces, rules, s);
      }
      if Suggested(s, pieces, rules) {
        SuggestionComplete(pieces, rules, s);
      }
    }
  }

  lemma SuggestionSound(pieces: seq<Option<string>>, rules: Rules, s: string)
    requires None in rules.junk && s in Suggestions(pieces, rules)
    ensures Suggested(s, pieces, rules)
  {
    var short := KeepShort(DropJunk(pieces, rules.junk), rules.maxLength);
    var cleaned := StripEach(RemoveWords(short, rules.words));
    var nonEmpty := NonEmpty(cleaned);
    var kept := DropPrefixes(nonEmpty, rules.prefixes);
    assert s in kept;
    PrefixesByStartsWith(s, rules.prefixes);
    assert s in nonEmpty && s != [];
    var i :| 0 <= i < |cleaned| && cleaned[i] == s;
    assert short[i] in short;
    var k :| 0 <= k < |pieces| && pieces[k] !in rules.junk && short[i] == Lower(pieces[k].value);
    assert s == Normalize(pieces[k].value, rules);
    assert Accepted(pieces[k], rules);
  }

  lemma SuggestionComplete(pieces: seq<Option<string>>, rules: Rules, s: string)
    requires None in rules.junk && Suggested(s, pieces, rules)
    ensures s in Suggestions(pieces, rules)
  {
    var k :| 0 <= k < |pieces| && Accepted(pieces[k], rules) && s == Normalize(pieces[k].value, rules);
    var short := KeepShort(DropJunk(pieces, rules.junk), rules.maxLength);
    AcceptedIsShort(pieces, rules, k);
    var nonEmpty := NonEmpty(StripEach(RemoveWords(short, rules.words)));
    ShortIsCleaned(short, rules, Lower(pieces[k].value));
    ClearedIsKept(nonEmpty, rules, s);
  }

  /** An accepted piece, lower-cased, passes the junk and length filters. */
  lemma AcceptedIsShort(pieces: seq<Option<string>>, rules: Rules, k: int)
    requires None in rules.junk && 0 <= k < |pieces| && Accepted(pieces[k], rules)
    ensures Lower(pieces[k].value) in KeepShort(DropJunk(pieces, rules.junk), rules.maxLength)
  {
    assert Lower(pieces[k].value) in DropJunk(pieces, rules.junk);
  }

  /** A short suggestion whose cleaned form is not empty keeps that form. */
  lemma ShortIsCleaned(short: seq<string>, rules: Rules, y: string)
    requires y in short && Strip(RemoveAll(y, rules.words), Whitespace) != []
    ensures Strip(RemoveAll(y, rules.words), Whitespace) in NonEmpty(StripEach(RemoveWords(short, rules.words)))
  {
    var i :| 0 <= i < |short| && short[i] == y;
    var cleaned := StripEach(RemoveWords(short, rules.words));
    assert cleaned[i] == Strip(RemoveAll(y, rules.words), Whitespace);
  }

  /** A cleaned suggestion that starts with no omitted prefix is kept. */
  lemma ClearedIsKept(nonEmpty: seq<string>, rules: Rules, s: string)
    requires s in nonEmpty
    requires forall j :: 0 <= j < |rules.prefixes| ==> !StartsWith(s, rules.prefixes[j])
    ensures s in DropPrefixes(nonEmpty, rules.prefixes)
  {
    PrefixesByStartsWith(s, rules.prefixes);
  }

  /** The prefix filter, stated with startswith. */
  lemma PrefixesByStartsWith(s: string, prefixes: seq<string>)
    ensures (forall k :: 0 <= k < |prefixes| ==> Find(s, prefixes[k]) != 0) <==>
      (forall k :: 0 <= k < |prefixes| ==> !StartsWith(s, prefixes[k]))
  {
    forall k | 0 <= k < |prefixes| {
      FindZeroIffStartsWith(s, prefixes[k]);
    }
  }

  /** Every suggestion is lower-case, shorter than the maximum length,
      non-empty, without surrounding whitespace, and starts with none of the
      omitted prefixes. */
  lemma SuggestionsWellFormed(pieces: seq<Option<string>>, rules: Rules, s: string)
    requires None in rules.junk
    requires s in Suggestions(pieces, rules)
    ensures IsLowerCase(s) && |s| < rules.maxLength
    ensures s != [] && s[0] !in Whitespace && s[|s| - 1] !in Whitespace
    ensures forall k :: 0 <= k < |rules.prefixes| ==> !StartsWith(s, rules.prefixes[k])
  {
    SuggestionSound(pieces, rules, s);
    var k :| 0 <= k < |pieces| && Accepted(pieces[k], rules) && s == Normalize(pieces[k].value, rules);
    AcceptedShape(pieces[k].value, rules);
  }

  /** What an accepted piece becomes is lower-case, no longer than the piece,
      and has no surrounding whitespace. */
  lemma AcceptedShape(piece: string, rules: Rules)
    ensures IsLowerCase(Normalize(piece, rules)) && |Normalize(piece, rules)| <= |piece|
    ensures var s := Normalize(piece, rules);
      s != [] ==> s[0] !in Whitespace && s[|s| - 1] !in Whitespace
  {
    var y := Lower(piece);
    RemoveAllShrinks(y, rules.words);
    StripLowerCase(RemoveAll(y, rules.words), Whitespace);
  }

  /** Deleting words only shortens a lower-case suggestion and keeps it lower-case. */
  lemma {:induction false} RemoveAllShrinks(s: string, words: seq<string>)
    requires IsLowerCase(s)
    ensures |RemoveAll(s, words)| <= |s| && IsLowerCase(RemoveAll(s, words))
    decreases |words|
  {
    if words != [] {
      var t := Delete(s, words[0]);
      if words[0] != [] {
        ReplaceByEmptyShrinks(s, words[0]);
        forall i | 0 <= i < |t| ensures !IsUpper(t[i]) {
          var c := t[i];
          assert c in s;
        }
      }
      RemoveAllShrinks(t, words[1..]);
    }
  }

  /** A junk piece adds no suggestion, wherever it comes. */
  lemma JunkIgnored(pieces: seq<Option<string>>, rules: Rules, junk: Option<string>)
    requires None in rules.junk
    requires junk in rules.junk
    ensures Suggestions(pieces + [junk], rules) == Suggestions(pieces, rules)
  {
    var p := pieces + [junk];
    forall s ensures s in Suggestions(p, rules) <==> s in Suggestions(pieces, rules) {
      JunkNotSuggested(s, pieces, rules, junk);
      if s in Suggestions(p, rules) {
        SuggestionSound(p, rules, s);
        SuggestionComplete(pieces, rules, s);
      }
      if s in Suggestions(pieces, rules) {
        SuggestionSound(pieces, rules, s);
        SuggestionComplete(p, rules, s);
      }
    }
  }

  lemma JunkNotSuggested(s: string, pieces: seq<Option<string>>, rules: Rules, junk: Option<string>)
    requires junk in rules.junk
    ensures Suggested(s, pieces + [junk], rules) <==> Suggested(s, pieces, rules)
  {
    var p := pieces + [junk];
    if Suggested(s, p, rules) {
      var k :| 0 <= k < |p| && Accepted(p[k], rules) && s == Normalize(p[k].value, rules);
      assert k < |pieces| && p[k] == pieces[k];
    }
    if Suggested(s, pieces, rules) {
      var k :| 0 <= k < |pieces| && Accepted(pieces[k], rules) && s == Normalize(pieces[k].value, rules);
      assert p[k] == pieces[k];
    }
  }

  /** A pile group or pile: the two names its pages draw suggestions from. */
  datatype Named = Named(friendlyName: string, friendlyTitle: string)

  /** The first Simple Key page, listing the plant groups. */
  datatype GroupsListPage = GroupsListPage(title: string, mainHeading: string, groups: seq<Named>)
  {
    /** Suggestions come from the page title alone. */
    function SearchSuggestions(split: string -> seq<Option<string>>): (r: set<string>)
      ensures forall s :: s in r <==> Suggested(s, split(title), SimpleKeyRules)
    {
      OneInput(title, split);
      GetSearchSuggestions([title], split)
    }
  }

  /** A second-level page, listing the subgroups of one group. */
  datatype SubgroupsListPage = SubgroupsListPage(title: string, mainHeading: string, group: Named)
  {
    /** Suggestions come from the group's friendly name and friendly title. */
    function SearchSuggestions(split: string -> seq<Option<string>>): (r: set<string>)
      ensures forall s :: s in r <==>
        Suggested(s, split(group.friendlyName) + split(group.friendlyTitle), SimpleKeyRules)
    {
      TwoInputs(group.friendlyName, group.friendlyTitle, split);
      GetSearchSuggestions([group.friendlyName, group.friendlyTitle], split)
    }
  }

  /** A third-level page, with the results and questions for one subgroup. */
  datatype SubgroupResultsPage = SubgroupResultsPage(title: string, mainHeading: string, subgroup: Named)
  {
    /** Suggestions come from the subgroup's friendly name and friendly title. */
    function SearchSuggestions(split: string -> seq<Option<string>>): (r: set<string>)
      ensures forall s :: s in r <==>
        Suggested(s, split(subgroup.friendlyName) + split(subgroup.friendlyTitle), SimpleKeyRules)
    {
      TwoInputs(subgroup.friendlyName, subgroup.friendlyTitle, split);
      GetSearchSuggestions([subgroup.friendlyName, subgroup.friendlyTitle], split)
    }
  }

  lemma OneInput(a: string, split: string -> seq<Option<string>>)
    ensures Pieces([a], split) == split(a)
  {
    assert Pieces([a], split) == split(a) + [];
  }

  lemma TwoInputs(a: string, b: string, split: string -> seq<Option<string>>)
    ensures Pieces([a, b], split) == split(a) + split(b)
  {
    assert [a, b][1..] == [b];
    assert Pieces([b], split) == split(b) + [];
  }
}
