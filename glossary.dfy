/** _create_glossary_pages of importer.py: a help page per letter that
    starts a glossary term, and every term attached to the page of its
    first letter. */
module Glossary {
  import opened Wrappers
  import opened Text
  import opened Staging

  /** The letters of the pages: the first character, lower-cased, of each
      term that starts with a letter. */
  function Letters(terms: set<string>): (r: set<char>)
    ensures forall l :: l in r ==> IsLower(l)
    ensures forall t :: t in terms && t != [] && IsAlpha(t[0]) ==> ToLower(t[0]) in r
    ensures forall l :: l in r ==> exists t :: t in terms && t != [] && IsAlpha(t[0]) && ToLower(t[0]) == l
  {
    set t | t in terms && t != [] && IsAlpha(t[0]) :: ToLower(t[0])
  }

  /** The key and the fields of the page of a letter. */
  function PageKey(letter: char): (r: Record)
    ensures "letter" in r && r["letter"] == Str([letter])
  {
    Key1("letter", Str([letter]))
  }

  function PageFields(letter: char): Record
  {
    map["title" := Str("Glossary: " + Upper([letter])), "url_path" := Str("/help/glossary/" + [letter] + "/")]
  }

  /** The page table after the loop over the letters. */
  function PageRows(letters: set<char>): map<Record, Record>
  {
    map l | l in letters :: PageKey(l) := PageFields(l)
  }

  /** Each letter has its page, and every page is a letter's. */
  lemma PageRowsOfLetters(letters: set<char>)
    ensures forall l :: l in letters ==> PageKey(l) in PageRows(letters) && PageRows(letters)[PageKey(l)] == PageFields(l)
    ensures forall key :: key in PageRows(letters) ==> exists l :: l in letters && key == PageKey(l)
  {
  }

  /** The loop that registers a page per letter. */
  method StagePages(letters: set<char>) returns (rows: map<Record, Record>)
    ensures rows == PageRows(letters)
  {
    rows := map[];
    var todo := letters;
    while todo != {}
      invariant todo <= letters
      invariant rows == PageRows(letters - todo)
      decreases todo
    {
      var letter :| letter in todo;
      PageRowsAdd(letters - todo, letter);
      StagedNew(rows, PageKey(letter), PageFields(letter));
      rows := Staged(rows, PageKey(letter), PageFields(letter));
      assert letters - (todo - {letter}) == (letters - todo) + {letter};
      todo := todo - {letter};
    }
    assert letters - todo == letters;
  }

  /** Pages of different letters have different keys. */
  lemma PageKeyInjective(a: char, b: char)
    requires PageKey(a) == PageKey(b)
    ensures a == b
  {
    assert Str([a]) == Str([b]);
    assert [a][0] == [b][0];
  }

  /** The page of a letter not yet seen is not registered yet. */
  lemma PageKeyFresh(letters: set<char>, letter: char)
    requires letter !in letters
    ensures PageKey(letter) !in PageRows(letters)
  {
    PageRowsOfLetters(letters);
    forall l | l in letters ensures PageKey(l) != PageKey(letter) {
      assert [l][0] != [letter][0];
    }
  }

  /** One more letter adds its page, under a key no other letter has. */
  lemma PageRowsAdd(letters: set<char>, letter: char)
    requires letter !in letters
    ensures PageKey(letter) !in PageRows(letters)
    ensures PageRows(letters)[PageKey(letter) := PageFields(letter)] == PageRows(letters + {letter})
  {
    PageKeyFresh(letters, letter);
    var a := PageRows(letters)[PageKey(letter) := PageFields(letter)];
    var b := PageRows(letters + {letter});
    PageRowsAddKeeps(letters, letter);
    PageRowsAddOnly(letters, letter);
    SameRows(a, b);
  }

  /** Two tables with the same keys and the same rows are equal. */
  lemma SameRows(a: map<Record, Record>, b: map<Record, Record>)
    requires forall k :: k in b ==> k in a && a[k] == b[k]
    requires forall k :: k in a ==> k in b
    ensures a == b
  {
    assert a.Keys == b.Keys;
  }

  lemma PageRowsAddKeeps(letters: set<char>, letter: char)
    requires letter !in letters
    ensures var a := PageRows(letters)[PageKey(letter) := PageFields(letter)];
      forall k :: k in PageRows(letters + {letter}) ==> k in a && a[k] == PageRows(letters + {letter})[k]
  {
    PageKeyFresh(letters, letter);
    PageRowsOfLetters(letters);
    PageRowsOfLetters(letters + {letter});
    var a := PageRows(letters)[PageKey(letter) := PageFields(letter)];
    var b := PageRows(letters + {letter});
    forall k | k in b ensures k in a && a[k] == b[k] {
      var l :| l in letters + {letter} && k == PageKey(l);
      assert b[k] == PageFields(l);
      if l != letter {
        assert PageKey(l) in PageRows(letters);
      }
    }
  }

  lemma PageRowsAddOnly(letters: set<char>, letter: char)
    ensures forall k :: k in PageRows(letters) ==> k in PageRows(letters + {letter})
  {
    PageRowsOfLetters(letters);
    PageRowsOfLetters(letters + {letter});
    forall k | k in PageRows(letters) ensures k in PageRows(letters + {letter}) {
      var l :| l in letters && k == PageKey(l);
      assert l in letters + {letter};
    }
  }

  /** The terms linked to pages as written: every term is looked up by its
      first letter among the letters that have a page, so the empty term
      (IndexError) or a term whose first character has no page (KeyError)
      makes the import fail. */
  function LinksAsWritten(terms: set<string>, pageLetters: set<char>): (r: Option<set<(char, string)>>)
    ensures r.None? <==> exists t :: t in terms && (t == [] || ToLower(t[0]) !in pageLetters)
    ensures r.Some? ==> forall t :: t in terms ==> (ToLower(t[0]), t) in r.value
  {
    if exists t :: t in terms && (t == [] || ToLower(t[0]) !in pageLetters) then None
    else Some(set t | t in terms :: (ToLower(t[0]), t))
  }

  /** The loop that attaches each term to its page, as written. */
  method LinkTerms(terms: set<string>, pageLetters: set<char>) returns (links: Option<set<(char, string)>>)
    ensures links == LinksAsWritten(terms, pageLetters)
  {
    var done: set<(char, string)> := {};
    var todo := terms;
    while todo != {}
      invariant todo <= terms
      invariant forall t :: t in terms - todo ==> t != [] && ToLower(t[0]) in pageLetters
      invariant done == set t | t in terms - todo :: (ToLower(t[0]), t)
      decreases todo
    {
      var term :| term in todo;
      if term == [] {
        return None;
      }
      var letter := ToLower(term[0]);
      if letter !in pageLetters {
        return None;
      }
      done := done + {(letter, term)};
      todo := todo - {term};
    }
    assert terms - todo == terms;
    return Some(done);
  }

  /** A term that starts with a digit gets no page, and then makes the
      import fail: "2-merous" is such a term. */
  lemma NonLetterTermFails()
    ensures Letters({"2-merous"}) == {}
    ensures LinksAsWritten({"2-merous"}, Letters({"2-merous"})) == None
  {
    var t := "2-merous";
    assert !IsAlpha(t[0]);
    assert forall u :: u in {t} ==> !(u != [] && IsAlpha(u[0]));
    assert t in {t} && ToLower(t[0]) !in Letters({t});
  }

  /** The terms linked to pages as evidently intended: the terms that start
      with a letter, each on the page of that letter; the others are left
      without a page, as the page loop leaves them. */
  function TermLinks(terms: set<string>): set<(char, string)>
  {
    set t | t in terms && t != [] && IsAlpha(t[0]) :: (ToLower(t[0]), t)
  }

  /** Every link of the intended version points at a page the page loop
      registers, and every term that starts with a letter is linked. */
  lemma TermLinksOnPages(terms: set<string>)
    ensures forall link :: link in TermLinks(terms) ==> PageKey(link.0) in PageRows(Letters(terms))
    ensures forall t :: t in terms && t != [] && IsAlpha(t[0]) ==> (ToLower(t[0]), t) in TermLinks(terms)
    ensures forall link :: link in TermLinks(terms) ==> link.1 in terms && ToLower(link.1[0]) == link.0
  {
    PageRowsOfLetters(Letters(terms));
    forall link | link in TermLinks(terms) ensures PageKey(link.0) in PageRows(Letters(terms)) {
      var t :| t in terms && t != [] && IsAlpha(t[0]) && link == (ToLower(t[0]), t);
      assert link.0 in Letters(terms);
    }
  }

  /** Where every term starts with a letter, the import as written and the
      intended one agree. */
  lemma AgreeOnLetterTerms(terms: set<string>)
    requires forall t :: t in terms ==> t != [] && IsAlpha(t[0])
    ensures LinksAsWritten(terms, Letters(terms)) == Some(TermLinks(terms))
  {
    forall t | t in terms ensures ToLower(t[0]) in Letters(terms) {
    }
    assert (set t | t in terms :: (ToLower(t[0]), t)) == TermLinks(terms);
  }
}
