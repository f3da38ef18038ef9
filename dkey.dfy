/** The string helpers of the dichotomous key's pages and leads
    (gobotany/dkey/models.py). */
module DkeyModels {
  import opened Wrappers
  import opened Text

  /** A lead's excerpt keeps at most this many words. */
  const MaxExcerptWords := 7

  /** slug_to_title: the page title a URL slug names. */
  function SlugToTitle(slug: string): (r: string)
  {
    Replace(Replace(Capitalize(Replace(slug, "-", " ")), " families", " Families"), " group ", " Group ")
  }

  /** Every dash becomes a space and the first character is capitalised; no
      step changes the length. */
  lemma SlugToTitleShape(slug: string)
    ensures |SlugToTitle(slug)| == |slug|
    ensures '-' !in SlugToTitle(slug)
    ensures slug != [] ==>
      SlugToTitle(slug)[0] == ToUpper(if slug[0] == '-' then ' ' else slug[0])
  {
    var a := Replace(slug, "-", " ");
    ReplaceSameLength(slug, "-", " ");
    ReplaceRemovesChar(slug, "-", " ");
    var b := Capitalize(a);
    assert '-' !in b by {
      forall i | 0 <= i < |b| ensures b[i] != '-' {
        if i > 0 {
          assert b[i] == ToLower(a[i]) by { assert b[1..][i - 1] == b[i]; }
        }
      }
    }
    var c := Replace(b, " families", " Families");
    ReplaceSameLength(b, " families", " Families");
    ReplaceKeepsOut(b, " families", " Families", '-');
    ReplaceSameLength(c, " group ", " Group ");
    ReplaceKeepsOut(c, " group ", " Group ", '-');
    if slug != [] {
      if |slug| >= 1 && slug[..1] == "-" {
        assert a[0] == ' ';
      } else {
        assert a == [slug[0]] + Replace(slug[1..], "-", " ");
      }
      assert a[0] == (if slug[0] == '-' then ' ' else slug[0]);
      ReplaceFirstChar(b, " families", " Families");
      ReplaceFirstChar(c, " group ", " Group ");
    }
  }

  /** A slug ending in "-families" gets the title "... Families". */
  lemma SlugToTitleFamilies(w: string)
    requires w != [] && forall i :: 0 <= i < |w| ==> IsLower(w[i])
    ensures SlugToTitle(w + "-families") == Capitalize(w) + " Families"
  {
    var v := "families";
    assert '-' !in w by {
      forall i | 0 <= i < |w| ensures w[i] != '-' {
        assert IsLower(w[i]);
      }
    }
    assert w + "-families" == w + "-" + v;
    assert w + " families" == w + " " + v;
    DashBetween(w, v);
    FamiliesCapitalize(w);
    FamiliesRestore(Capitalize(w));
    FamiliesNoGroup(Capitalize(w));
  }

  /** A slug "w-group-x" gets the title "W Group x". */
  lemma SlugToTitleGroup(w: string, x: string)
    requires w != [] && forall i :: 0 <= i < |w| ==> IsLower(w[i])
    requires x != [] && x[0] != 'f' && forall i :: 0 <= i < |x| ==> IsLower(x[i])
    ensures SlugToTitle(w + "-group-" + x) == Capitalize(w) + " Group " + x
  {
    var cw := Capitalize(w);
    var a := Replace(w + "-group-" + x, "-", " ");
    assert a == w + " group " + x by {
      GroupLiteral(w, x, cw);
      assert '-' !in w by {
        forall i | 0 <= i < |w| ensures w[i] != '-' { assert IsLower(w[i]); }
      }
      assert '-' !in x by {
        forall i | 0 <= i < |x| ensures x[i] != '-' { assert IsLower(x[i]); }
      }
      DashesAround(w, "group", x);
    }
    assert Capitalize(a) == cw + " group " + x by {
      GroupCapitalize(w, x);
    }
    assert ' ' !in cw by {
      forall i | 0 <= i < |cw| ensures cw[i] != ' ' {
        if i > 0 { assert cw[i] == Lower(w[1..])[i - 1]; }
      }
    }
    assert ' ' !in x by {
      forall i | 0 <= i < |x| ensures x[i] != ' ' { assert IsLower(x[i]); }
    }
    assert Replace(cw + " group " + x, " families", " Families") == cw + " group " + x by {
      GroupLiteral(w, x, cw);
      TwoSpacesUnmatched(cw, "group", x, " families", " Families");
    }
    GroupRestore(cw, x);
  }

  lemma GroupLiteral(w: string, x: string, cw: string)
    ensures w + "-group-" + x == w + "-" + "group" + "-" + x
    ensures w + " group " + x == w + " " + "group" + " " + x
    ensures cw + " group " + x == cw + " " + "group" + " " + x
    ensures '-' !in "group" && ' ' !in "group" && "group"[0] == 'g'
    ensures |" families"| >= 2 && " families"[0] == ' ' && " families"[1] == 'f'
  {
  }

  /** Both dashes of "w-g-x" become spaces. */
  lemma DashesAround(w: string, g: string, x: string)
    requires '-' !in w && '-' !in g && '-' !in x
    ensures Replace(w + "-" + g + "-" + x, "-", " ") == w + " " + g + " " + x
  {
    assert w + "-" + g + "-" + x == w + "-" + (g + "-" + x);
    DashFirst(w, g + "-" + x);
    DashBetween(g, x);
    assert w + " " + (g + " " + x) == w + " " + g + " " + x;
  }

  lemma GroupCapitalize(w: string, x: string)
    requires w != [] && forall i :: 0 <= i < |x| ==> IsLower(x[i])
    ensures Capitalize(w + " group " + x) == Capitalize(w) + " group " + x
  {
    var a := w + " group " + x;
    assert a[1..] == w[1..] + (" group " + x);
    LowerConcat(w[1..], " group " + x);
    LowerOfLowerCase(" group " + x);
  }

  lemma GroupRestore(cw: string, x: string)
    requires ' ' !in cw && ' ' !in x
    ensures Replace(cw + " group " + x, " group ", " Group ") == cw + " Group " + x
  {
    var pat := " group ";
    assert cw + " group " + x == cw + (pat + x);
    NoMatchBefore(cw + (pat + x), pat, |cw|);
    ReplaceUnmatchedPrefix(cw, pat + x, pat, " Group ");
    ReplaceAtFront(x, pat, " Group ");
    NoMatchBefore(x + [], pat, |x|);
    ReplaceUnmatchedPrefix(x, [], pat, " Group ");
    assert x + [] == x;
    assert cw + (" Group " + x) == cw + " Group " + x;
  }

  /** A pattern that starts with a space and a character that begins neither
      of the following words does not occur in "cw g x". */
  lemma TwoSpacesUnmatched(cw: string, g: string, x: string, pat: string, rep: string)
    requires ' ' !in cw && ' ' !in g && ' ' !in x
    requires |pat| >= 2 && pat[0] == ' '
    requires g != [] && g[0] != pat[1] && x != [] && x[0] != pat[1]
    ensures Replace(cw + " " + g + " " + x, pat, rep) == cw + " " + g + " " + x
  {
    var b := cw + " " + g + " " + x;
    forall j | 0 <= j < |b| ensures !OccursAt(b, pat, j) {
      if j + |pat| <= |b| {
        assert b[j..j + |pat|][0] == b[j] && b[j..j + |pat|][1] == b[j + 1];
        if j < |cw| {
          assert b[j] == cw[j];
        } else if j == |cw| {
          assert b[j + 1] == g[0];
        } else if j < |cw| + 1 + |g| {
          assert b[j] == g[j - |cw| - 1];
        } else if j == |cw| + 1 + |g| {
          assert b[j + 1] == x[0];
        } else {
          assert b[j] == x[j - |cw| - 2 - |g|];
        }
      }
    }
    assert b + [] == b;
    ReplaceUnmatchedPrefix(b, [], pat, rep);
  }

  /** A dash after a dash-free word becomes a space; scanning goes on after it. */
  lemma DashFirst(w: string, v: string)
    requires '-' !in w
    ensures Replace(w + "-" + v, "-", " ") == w + " " + Replace(v, "-", " ")
  {
    assert w + "-" + v == w + ("-" + v);
    NoMatchBefore(w + ("-" + v), "-", |w|);
    ReplaceUnmatchedPrefix(w, "-" + v, "-", " ");
    ReplaceAtFront(v, "-", " ");
  }

  /** One dash between two dash-free words becomes a space. */
  lemma DashBetween(w: string, v: string)
    requires '-' !in w && '-' !in v
    ensures Replace(w + "-" + v, "-", " ") == w + " " + v
  {
    assert w + "-" + v == w + ("-" + v);
    NoMatchBefore(w + ("-" + v), "-", |w|);
    ReplaceUnmatchedPrefix(w, "-" + v, "-", " ");
    ReplaceAtFront(v, "-", " ");
    NoMatchBefore(v + [], "-", |v|);
    ReplaceUnmatchedPrefix(v, [], "-", " ");
    assert v + [] == v;
  }

  lemma FamiliesCapitalize(w: string)
    requires w != []
    ensures Capitalize(w + " families") == Capitalize(w) + " families"
  {
    var a := w + " families";
    assert a[1..] == w[1..] + " families";
    assert Lower(" families") == " families";
    assert Lower(a[1..]) == Lower(w[1..]) + Lower(" families");
  }

  lemma FamiliesRestore(cw: string)
    requires forall i :: 0 <= i < |cw| ==> IsAlpha(cw[i])
    ensures Replace(cw + " families", " families", " Families") == cw + " Families"
  {
    var b := cw + " families";
    NoMatchBefore(b, " families", |cw|);
    assert b == cw + (" families" + []);
    ReplaceUnmatchedPrefix(cw, " families" + [], " families", " Families");
    ReplaceAtFront([], " families", " Families");
  }

  lemma FamiliesNoGroup(cw: string)
    requires forall i :: 0 <= i < |cw| ==> IsAlpha(cw[i])
    ensures Replace(cw + " Families", " group ", " Group ") == cw + " Families"
  {
    FamiliesLiteral(cw);
    SpacedWordUnmatched(cw, "Families", " group ", " Group ");
  }

  lemma FamiliesLiteral(cw: string)
    ensures cw + " Families" == cw + " " + "Families"
    ensures "Families"[0] == 'F' && ' ' !in "Families"
    ensures |" group "| >= 2 && " group "[0] == ' ' && " group "[1] == 'g'
  {
  }

  /** Letters followed by one space and a word that does not continue the
      pattern hold no occurrence of a pattern that starts with a space. */
  lemma SpacedWordUnmatched(cw: string, u: string, pat: string, rep: string)
    requires forall i :: 0 <= i < |cw| ==> IsAlpha(cw[i])
    requires |pat| >= 2 && pat[0] == ' '
    requires u != [] && u[0] != pat[1] && ' ' !in u
    ensures Replace(cw + " " + u, pat, rep) == cw + " " + u
  {
    var c := cw + " " + u;
    NoMatchBefore(c, pat, |cw|);
    assert !OccursAt(c, pat, |cw|) by {
      if |cw| + |pat| <= |c| {
        assert c[|cw|..|cw| + |pat|][1] == u[0];
      }
    }
    forall j | |cw| + 1 <= j < |c| ensures c[j] != pat[0] {
      assert c[j] == u[j - |cw| - 1];
    }
    NoMatchFrom(c, pat, |cw| + 1);
    assert c + [] == c;
    ReplaceUnmatchedPrefix(c, [], pat, rep);
  }

  /** No occurrence can start before index `k` when the pattern's first
      character does not occur there. */
  lemma NoMatchBefore(s: string, pat: string, k: nat)
    requires pat != [] && k <= |s|
    requires forall j :: 0 <= j < k ==> s[j] != pat[0]
    ensures forall j :: 0 <= j < k ==> !OccursAt(s, pat, j)
  {
    forall j | 0 <= j < k ensures !OccursAt(s, pat, j) {
      if j + |pat| <= |s| {
        assert s[j..j + |pat|][0] == s[j];
      }
    }
  }

  /** No occurrence can start at or after index `k` when the pattern's first
      character does not occur there. */
  lemma NoMatchFrom(s: string, pat: string, k: nat)
    requires pat != []
    requires forall j :: k <= j < |s| ==> s[j] != pat[0]
    ensures forall j :: k <= j ==> !OccursAt(s, pat, j)
  {
    forall j | k <= j ensures !OccursAt(s, pat, j) {
      if j + |pat| <= |s| {
        assert s[j..j + |pat|][0] == s[j];
      }
    }
  }

  /** Lead.number: the letter with its leading and trailing 'a' and 'b' removed. */
  function LeadNumber(letter: string): (r: string)
    ensures r != [] ==> r[0] !in {'a', 'b'} && r[|r| - 1] !in {'a', 'b'}
    ensures StrippedFrom(letter, r, {'a', 'b'})
  {
    Strip(letter, {'a', 'b'})
  }

  /** The number of lead "12a" is "12". */
  lemma LeadNumberOfLead(n: nat, c: char)
    requires c == 'a' || c == 'b'
    ensures LeadNumber(Decimal(n) + [c]) == Decimal(n)
  {
    var d := Decimal(n);
    var l := d + [c];
    assert l[0] == d[0] && IsDigit(d[0]);
    assert StripLeft(l, {'a', 'b'}) == l;
    assert l[..|l| - 1] == d;
    assert StripRight(d, {'a', 'b'}) == d;
    assert StripRight(l, {'a', 'b'}) == d;
  }

  /** The key Lead.sort_key returns: (n,) or (n, letter). */
  datatype SortKey = Number(n: int) | NumberLetter(n: int, letter: char)

  /** Lead.sort_key; Err is the ValueError int() raises on a malformed number. */
  function LeadSortKey(letter: string): (r: Result<SortKey, string>)
    ensures letter == [] ==> r == Ok(Number(0))
    ensures r.Ok? && r.value.NumberLetter? ==>
      letter != [] && r.value.letter == letter[|letter| - 1] && !IsDigit(r.value.letter)
    ensures letter != [] && IsDigit(letter[|letter| - 1]) ==> r.Err? || r.value.Number?
  {
    if letter == [] then Ok(Number(0))
    else if IsDigit(letter[|letter| - 1]) then
      match ParseInt(letter)
      case None => Err("ValueError")
      case Some(n) => Ok(Number(n))
    else
      match ParseInt(letter[..|letter| - 1])
      case None => Err("ValueError")
      case Some(n) => Ok(NumberLetter(n, letter[|letter| - 1]))
  }

  /** "12a" sorts as (12, 'a'). */
  lemma SortKeyOfLead(n: nat, c: char)
    requires !IsDigit(c)
    ensures LeadSortKey(Decimal(n) + [c]) == Ok(NumberLetter(n, c))
  {
    var l := Decimal(n) + [c];
    assert l[..|l| - 1] == Decimal(n);
    ParseIntOfDecimal(n);
  }

  /** "12" sorts as (12,). */
  lemma SortKeyOfNumber(n: nat)
    ensures LeadSortKey(Decimal(n)) == Ok(Number(n))
  {
    ParseIntOfDecimal(n);
  }

  /** "- 3" sorts as (-3,): int() allows whitespace between the sign and the digits. */
  lemma SortKeyOfSpacedSign(sign: char, ws: string, n: nat)
    requires sign == '+' || sign == '-'
    requires forall i :: 0 <= i < |ws| ==> ws[i] in Whitespace
    ensures LeadSortKey([sign] + ws + Decimal(n)) == Ok(Number(if sign == '-' then -(n as int) else n))
  {
    var d := Decimal(n);
    var l := [sign] + ws + d;
    assert l[|l| - 1] == d[|d| - 1];
    ParseIntSpacedSign(sign, ws, n);
  }

  /** A non-empty letter without any digit makes int() raise. */
  lemma SortKeyWithoutDigits(letter: string)
    requires letter != [] && forall i :: 0 <= i < |letter| ==> !IsDigit(letter[i])
    ensures LeadSortKey(letter).Err?
  {
    var p := letter[..|letter| - 1];
    assert forall i :: 0 <= i < |p| ==> p[i] == letter[i];
  }

  /** The characters separating excerpt segments. */
  const SegmentSeparators: set<char> := {';', ','}

  /** The first non-empty segment of `text` between runs of ';' and ','. */
  function FirstSegment(text: string): (r: Option<string>)
    ensures r.Some? ==> r.value != [] && NoneOf(r.value, SegmentSeparators)
    ensures r.None? <==> forall i :: 0 <= i < |text| ==> text[i] in SegmentSeparators
  {
    var segments := NonEmpty(SplitAny(text, SegmentSeparators));
    NonEmptySplitAnyEmpty(text, SegmentSeparators);
    if segments == [] then None else Some(segments[0])
  }

  /** Lead.text_excerpt: the first seven space-separated words of the first
      segment. Err is the IndexError raised when the text has no segment. */
  function TextExcerpt(text: string): (r: Result<string, string>)
  {
    match FirstSegment(text)
    case None => Err("IndexError")
    case Some(segment) =>
      var words := Split(segment, ' ');
      Ok(Join(words[..if |words| < MaxExcerptWords then |words| else MaxExcerptWords], " "))
  }

  /** The excerpt is the beginning of the first segment, holds no separator and
      at most seven words, and is the whole segment when that is short enough;
      it raises exactly when the text is nothing but separators. */
  lemma TextExcerptShape(text: string)
    ensures TextExcerpt(text).Err? <==> forall i :: 0 <= i < |text| ==> text[i] in SegmentSeparators
    ensures TextExcerpt(text).Ok? ==>
      var r := TextExcerpt(text).value;
      var segment := FirstSegment(text).value;
      StartsWith(segment, r) && NoneOf(r, SegmentSeparators) &&
      |Split(r, ' ')| <= MaxExcerptWords &&
      (|Split(segment, ' ')| <= MaxExcerptWords ==> r == segment)
  {
    if FirstSegment(text).Some? {
      var segment := FirstSegment(text).value;
      var words := Split(segment, ' ');
      var k := if |words| < MaxExcerptWords then |words| else MaxExcerptWords;
      var r := Join(words[..k], " ");
      assert TextExcerpt(text).value == r;
      JoinSplit(segment, ' ');
      JoinPrefix(words, " ", k);
      SplitJoin(words[..k], ' ');
      assert |Split(r, ' ')| == k;
      if |words| <= MaxExcerptWords {
        assert words[..k] == words;
      }
    }
  }

  /** Python's `a or b or ''` on the two optional targets of a lead. */
  function GotoText(gotoPageId: Option<nat>, gotoNum: Option<int>): (r: string)
    ensures gotoPageId.Some? && gotoPageId.value != 0 ==> ParseInt(r) == Some(gotoPageId.value as int)
    ensures !(gotoPageId.Some? && gotoPageId.value != 0) && gotoNum.Some? && gotoNum.value != 0 ==>
      ParseInt(r) == Some(gotoNum.value)
    ensures !(gotoPageId.Some? && gotoPageId.value != 0) && !(gotoNum.Some? && gotoNum.value != 0) ==>
      r == []
  {
    if gotoPageId.Some? && gotoPageId.value != 0 then
      ParseIntOfIntString(gotoPageId.value);
      IntString(gotoPageId.value)
    else if gotoNum.Some? && gotoNum.value != 0 then
      ParseIntOfIntString(gotoNum.value);
      IntString(gotoNum.value)
    else []
  }

  /** Lead.__str__: "id:letter." followed by the lead's target. */
  function LeadString(id: nat, letter: string, gotoPageId: Option<nat>, gotoNum: Option<int>): (r: string)
  {
    Decimal(id) + ":" + letter + "." + GotoText(gotoPageId, gotoNum)
  }

  /** The id is read back as the number before the first ':', the letter
      follows it, and the target comes last. */
  lemma LeadStringParts(id: nat, letter: string, gotoPageId: Option<nat>, gotoNum: Option<int>)
    ensures var r := LeadString(id, letter, gotoPageId, gotoNum);
      var colon := Find(r, ":");
      colon == |Decimal(id)| && ParseInt(r[..colon]) == Some(id as int) &&
      StartsWith(r[colon + 1..], letter + ".") &&
      r[colon + 1 + |letter| + 1..] == GotoText(gotoPageId, gotoNum)
  {
    ColonParts(Decimal(id), letter, GotoText(gotoPageId, gotoNum));
    ParseIntOfDecimal(id);
  }

  /** In "digits:letter.tail" the first ':' follows the digits, and the letter
      and the tail can be cut back out. */
  lemma ColonParts(d: string, letter: string, tail: string)
    requires AllDigits(d)
    ensures var r := d + ":" + letter + "." + tail;
      Find(r, ":") == |d| && r[..|d|] == d &&
      StartsWith(r[|d| + 1..], letter + ".") && r[|d| + 1 + |letter| + 1..] == tail
  {
    var r := d + ":" + letter + "." + tail;
    assert OccursAt(r, ":", |d|) by { assert r[|d|..|d| + 1] == ":"; }
    forall j | 0 <= j < |d| ensures !OccursAt(r, ":", j) {
      assert r[j..j + 1] == [d[j]];
    }
    assert r[..|d|] == d;
    assert r[|d| + 1..] == letter + "." + tail;
    assert (letter + "." + tail)[..|letter| + 1] == letter + ".";
    assert r[|d| + 1 + |letter| + 1..] == tail;
  }
}
