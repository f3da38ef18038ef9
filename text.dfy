/** The string builtins of Python and JavaScript that the core relies on
    (lower, upper, capitalize, strip, replace, find, split, join, int).
    Case mapping and whitespace are those of ASCII; the Unicode tables of
    Python's str methods are not modelled. */
module Text {
  import opened Wrappers

  predicate IsDigit(c: char) { '0' <= c <= '9' }
  predicate IsUpper(c: char) { 'A' <= c <= 'Z' }
  predicate IsLower(c: char) { 'a' <= c <= 'z' }
  predicate IsAlpha(c: char) { IsUpper(c) || IsLower(c) }

  /** The ASCII-range characters Python 2's unicode.strip(), unicode.split()
      and int() treat as whitespace: the C-locale six and the four
      separators U+001C to U+001F. */
  const Whitespace: set<char> := {' ', '\t', '\n', '\r', '\U{0B}', '\U{0C}', '\U{1C}', '\U{1D}', '\U{1E}', '\U{1F}'}

  /** No character of `s` belongs to `cs`. */
  predicate NoneOf(s: string, cs: set<char>) {
    forall i :: 0 <= i < |s| ==> s[i] !in cs
  }

  predicate AllDigits(s: string) {
    forall i :: 0 <= i < |s| ==> IsDigit(s[i])
  }

  /** No ASCII upper-case letter occurs in `s`. */
  predicate IsLowerCase(s: string) {
    forall i :: 0 <= i < |s| ==> !IsUpper(s[i])
  }

  function ToLower(c: char): (r: char)
    ensures !IsUpper(r)
    ensures IsAlpha(r) == IsAlpha(c)
    ensures !IsAlpha(c) ==> r == c
  {
    if IsUpper(c) then (c as int + 32) as char else c
  }

  function ToUpper(c: char): (r: char)
    ensures !IsLower(r)
    ensures IsAlpha(r) == IsAlpha(c)
    ensures !IsAlpha(c) ==> r == c
  {
    if IsLower(c) then (c as int - 32) as char else c
  }

  /** Python's str.lower(). */
  function Lower(s: string): (r: string)
    ensures |r| == |s| && IsLowerCase(r)
    ensures forall i :: 0 <= i < |s| ==> r[i] == ToLower(s[i])
  {
    seq(|s|, i requires 0 <= i < |s| => ToLower(s[i]))
  }

  lemma LowerConcat(a: string, b: string)
    ensures Lower(a + b) == Lower(a) + Lower(b)
  {
  }

  /** Lower-casing text without upper-case letters changes nothing. */
  lemma LowerOfLowerCase(s: string)
    requires IsLowerCase(s)
    ensures Lower(s) == s
  {
  }

  /** Python's str.upper(). */
  function Upper(s: string): (r: string)
    ensures |r| == |s|
    ensures forall i :: 0 <= i < |s| ==> r[i] == ToUpper(s[i])
  {
    seq(|s|, i requires 0 <= i < |s| => ToUpper(s[i]))
  }

  /** Python's str.capitalize(): the first character upper-case, every other lower-case. */
  function Capitalize(s: string): (r: string)
    ensures |r| == |s|
    ensures s != [] ==> r[0] == ToUpper(s[0]) && IsLowerCase(r[1..])
  {
    if s == [] then [] else [ToUpper(s[0])] + Lower(s[1..])
  }

  function StripLeft(s: string, cs: set<char>): (r: string)
    ensures |r| <= |s| && r == s[|s| - |r|..]
    ensures r != [] ==> r[0] !in cs
    ensures forall i :: 0 <= i < |s| - |r| ==> s[i] in cs
  {
    if s != [] && s[0] in cs then StripLeft(s[1..], cs) else s
  }

  function StripRight(s: string, cs: set<char>): (r: string)
    ensures |r| <= |s| && r == s[..|r|]
    ensures r != [] ==> r[|r| - 1] !in cs
    ensures forall i :: |r| <= i < |s| ==> s[i] in cs
  {
    if s != [] && s[|s| - 1] in cs then StripRight(s[..|s| - 1], cs) else s
  }

  /** Python's str.strip(chars): drop the leading and trailing characters in `cs`. */
  function Strip(s: string, cs: set<char>): (r: string)
    ensures |r| <= |s|
    ensures r != [] ==> r[0] !in cs && r[|r| - 1] !in cs
    ensures StrippedFrom(s, r, cs)
  {
    StripBothFramed(s, cs);
    StripRight(StripLeft(s, cs), cs)
  }

  /** What the two strips leave sits in `s` between runs of characters from `cs`. */
  lemma StripBothFramed(s: string, cs: set<char>)
    ensures StrippedFrom(s, StripRight(StripLeft(s, cs), cs), cs)
  {
    var l := StripLeft(s, cs);
    var r := StripRight(l, cs);
    var k := |s| - |l|;
    assert OccursAt(s, r, k) by {
      assert r == s[k..][..|r|] == s[k..k + |r|];
    }
    assert Framed(s, k, k + |r|, cs) by {
      forall x | k + |r| <= x < |s| ensures s[x] in cs {
        assert s[x] == l[x - k] && |r| <= x - k < |l|;
      }
    }
  }

  /** Stripping adds no character. */
  lemma StripKeepsOut(s: string, cs: set<char>, c: char)
    requires c !in s
    ensures c !in Strip(s, cs)
  {
    var r := Strip(s, cs);
    assert StrippedFrom(s, r, cs);
    var k :| OccursAt(s, r, k);
    forall i | 0 <= i < |r| ensures r[i] != c {
      assert r[i] == s[k..k + |r|][i] == s[k + i];
    }
  }

  /** Text whose ends are not in `cs` is stripped of nothing. */
  lemma StripClean(s: string, cs: set<char>)
    requires s == [] || (s[0] !in cs && s[|s| - 1] !in cs)
    ensures Strip(s, cs) == s
  {
    assert StripLeft(s, cs) == s;
    assert StripRight(s, cs) == s;
  }

  /** Stripping keeps a lower-case string lower-case. */
  lemma StripLowerCase(s: string, cs: set<char>)
    requires IsLowerCase(s)
    ensures IsLowerCase(Strip(s, cs))
  {
    var r := Strip(s, cs);
    assert StrippedFrom(s, r, cs);
    var k :| OccursAt(s, r, k);
    forall i | 0 <= i < |r| ensures !IsUpper(r[i]) {
      assert r[i] == s[k..k + |r|][i] == s[k + i];
    }
  }

  /** `r` is `s` less a prefix and a suffix made of characters in `cs`. */
  ghost predicate StrippedFrom(s: string, r: string, cs: set<char>) {
    exists k :: OccursAt(s, r, k) && Framed(s, k, k + |r|, cs)
  }

  /** Every character of `s` before index `i` and from index `j` on is in `cs`. */
  predicate Framed(s: string, i: int, j: int, cs: set<char>) {
    0 <= i <= j <= |s| &&
    (forall x :: 0 <= x < i ==> s[x] in cs) &&
    (forall x :: j <= x < |s| ==> s[x] in cs)
  }

  /** `pat` occurs in `s` at index `j`. */
  predicate OccursAt(s: string, pat: string, j: int) {
    0 <= j && j + |pat| <= |s| && s[j..j + |pat|] == pat
  }

  /** Python's str.find(): the first index where `pat` occurs, or -1. */
  function Find(s: string, pat: string): (r: int)
    ensures -1 <= r <= |s|
    ensures r >= 0 ==> OccursAt(s, pat, r) && forall j :: 0 <= j < r ==> !OccursAt(s, pat, j)
    ensures r == -1 ==> forall j :: !OccursAt(s, pat, j)
    decreases |s|
  {
    if |s| < |pat| then -1
    else if s[..|pat|] == pat then 0
    else
      var k := Find(s[1..], pat);
      assert forall j :: 1 <= j ==> (OccursAt(s, pat, j) <==> OccursAt(s[1..], pat, j - 1));
      if k < 0 then -1 else k + 1
  }

  /** Python's `pat in s` on strings. */
  predicate Contains(s: string, pat: string) {
    Find(s, pat) >= 0
  }

  predicate StartsWith(s: string, prefix: string) {
    |prefix| <= |s| && s[..|prefix|] == prefix
  }

  /** find(prefix) == 0 says exactly that `s` starts with `prefix`. */
  lemma FindZeroIffStartsWith(s: string, prefix: string)
    ensures Find(s, prefix) == 0 <==> StartsWith(s, prefix)
  {
    if StartsWith(s, prefix) {
      assert OccursAt(s, prefix, 0);
    }
  }

  /** Python's str.replace(pat, rep): every non-overlapping occurrence of
      `pat`, scanning from the left, replaced by `rep`. */
  function Replace(s: string, pat: string, rep: string): string
    requires pat != []
    decreases |s|
  {
    if |s| < |pat| then s
    else if s[..|pat|] == pat then rep + Replace(s[|pat|..], pat, rep)
    else [s[0]] + Replace(s[1..], pat, rep)
  }

  lemma {:induction false} ReplaceSameLength(s: string, pat: string, rep: string)
    requires pat != [] && |rep| == |pat|
    ensures |Replace(s, pat, rep)| == |s|
    decreases |s|
  {
    if |s| < |pat| {
    } else if s[..|pat|] == pat {
      ReplaceSameLength(s[|pat|..], pat, rep);
    } else {
      ReplaceSameLength(s[1..], pat, rep);
    }
  }

  /** A character found neither in `s` nor in `rep` is not in the result. */
  lemma {:induction false} ReplaceKeepsOut(s: string, pat: string, rep: string, c: char)
    requires pat != [] && c !in s && c !in rep
    ensures c !in Replace(s, pat, rep)
    decreases |s|
  {
    if |s| < |pat| {
    } else if s[..|pat|] == pat {
      ReplaceKeepsOut(s[|pat|..], pat, rep, c);
    } else {
      ReplaceKeepsOut(s[1..], pat, rep, c);
    }
  }

  /** Replacing a one-character pattern by text without it removes that character. */
  lemma {:induction false} ReplaceRemovesChar(s: string, pat: string, rep: string)
    requires |pat| == 1 && pat[0] !in rep
    ensures pat[0] !in Replace(s, pat, rep)
    decreases |s|
  {
    if |s| < |pat| {
      assert s == [];
    } else if s[..|pat|] == pat {
      ReplaceRemovesChar(s[|pat|..], pat, rep);
    } else {
      assert s[0] != pat[0] by { assert s[..1] == [s[0]]; }
      ReplaceRemovesChar(s[1..], pat, rep);
    }
  }

  /** Deleting a pattern only shortens and only keeps characters of the input. */
  lemma {:induction false} ReplaceByEmptyShrinks(s: string, pat: string)
    requires pat != []
    ensures |Replace(s, pat, [])| <= |s|
    ensures forall i :: 0 <= i < |Replace(s, pat, [])| ==> Replace(s, pat, [])[i] in s
    decreases |s|
  {
    if |s| < |pat| {
    } else if s[..|pat|] == pat {
      ReplaceByEmptyShrinks(s[|pat|..], pat);
      var r := Replace(s[|pat|..], pat, []);
      assert Replace(s, pat, []) == r;
      forall i | 0 <= i < |r| ensures r[i] in s {
        assert r[i] in s[|pat|..];
      }
    } else {
      ReplaceByEmptyShrinks(s[1..], pat);
      var r := Replace(s[1..], pat, []);
      assert Replace(s, pat, []) == [s[0]] + r;
      forall i | 0 <= i < |r| ensures r[i] in s {
        assert r[i] in s[1..];
      }
    }
  }

  /** Text before the first occurrence of the pattern is copied unchanged. */
  lemma {:induction false} ReplaceUnmatchedPrefix(x: string, s: string, pat: string, rep: string)
    requires pat != []
    requires forall j :: 0 <= j < |x| ==> !OccursAt(x + s, pat, j)
    ensures Replace(x + s, pat, rep) == x + Replace(s, pat, rep)
    decreases |x|
  {
    if x == [] {
      assert x + s == s;
    } else if |x + s| < |pat| {
    } else {
      var xs := x + s;
      assert !OccursAt(xs, pat, 0);
      HeadAndTail(x, s);
      assert Replace(xs, pat, rep) == [xs[0]] + Replace(xs[1..], pat, rep);
      NoOccurrenceAfterFirst(x, s, pat);
      ReplaceUnmatchedPrefix(x[1..], s, pat, rep);
      HeadAndTail(x, Replace(s, pat, rep));
    }
  }

  /** A non-empty prefix splits into its first character and the rest. */
  lemma HeadAndTail(x: string, t: string)
    requires x != []
    ensures (x + t)[0] == x[0] && (x + t)[1..] == x[1..] + t && [x[0]] + (x[1..] + t) == x + t
  {
    assert x == [x[0]] + x[1..];
  }

  /** Dropping the first character of the prefix keeps it free of the pattern. */
  lemma NoOccurrenceAfterFirst(x: string, s: string, pat: string)
    requires x != []
    requires forall j :: 0 <= j < |x| ==> !OccursAt(x + s, pat, j)
    ensures forall j :: 0 <= j < |x| - 1 ==> !OccursAt(x[1..] + s, pat, j)
  {
    forall j | 0 <= j < |x| - 1 ensures !OccursAt(x[1..] + s, pat, j) {
      assert !OccursAt(x + s, pat, j + 1);
      if j + |pat| <= |x[1..] + s| {
        assert (x + s)[j + 1..j + 1 + |pat|] == (x[1..] + s)[j..j + |pat|];
      }
    }
  }

  /** Text without the pattern is left as it is. */
  lemma ReplaceAbsent(s: string, pat: string, rep: string)
    requires pat != [] && !Contains(s, pat)
    ensures Replace(s, pat, rep) == s
  {
    var e: string := [];
    assert s + e == s;
    ReplaceUnmatchedPrefix(s, e, pat, rep);
  }

  /** An occurrence at the front is replaced and scanning resumes after it. */
  lemma ReplaceAtFront(s: string, pat: string, rep: string)
    requires pat != []
    ensures Replace(pat + s, pat, rep) == rep + Replace(s, pat, rep)
  {
    assert (pat + s)[..|pat|] == pat;
    assert (pat + s)[|pat|..] == s;
  }

  /** A replacement whose text starts like the pattern keeps the first character. */
  lemma ReplaceFirstChar(s: string, pat: string, rep: string)
    requires pat != [] && rep != [] && rep[0] == pat[0] && s != []
    ensures Replace(s, pat, rep) != [] && Replace(s, pat, rep)[0] == s[0]
  {
    if |s| >= |pat| && s[..|pat|] == pat {
      assert s[0] == s[..|pat|][0];
    }
  }

  /** Python's str.split(d) for a set of single-character delimiters
      (one delimiter gives str.split; several give re.split on a character class). */
  function SplitAny(s: string, ds: set<char>): (r: seq<string>)
    ensures |r| >= 1
    ensures forall k :: 0 <= k < |r| ==> NoneOf(r[k], ds)
    decreases |s|
  {
    if s == [] then [[]]
    else
      var rest := SplitAny(s[1..], ds);
      if s[0] in ds then [[]] + rest
      else [[s[0]] + rest[0]] + rest[1..]
  }

  /** Splitting a join recovers the parts when no part holds a delimiter. */
  lemma {:induction false} SplitAnyJoin(ps: seq<string>, d: char, ds: set<char>)
    requires |ps| >= 1 && d in ds
    requires forall k :: 0 <= k < |ps| ==> NoneOf(ps[k], ds)
    ensures SplitAny(Join(ps, [d]), ds) == ps
    decreases |ps|
  {
    if |ps| == 1 {
      SplitAnyPrefix(ps[0], [], ds);
      assert SplitAny([], ds) == [[]];
      assert ps[0] + [] == ps[0];
      assert Join(ps, [d]) == ps[0];
    } else {
      SplitAnyJoin(ps[1..], d, ds);
      var tail := Join(ps[1..], [d]);
      assert Join(ps, [d]) == ps[0] + ([d] + tail);
      SplitAnyPrefix(ps[0], [d] + tail, ds);
      assert ([d] + tail)[1..] == tail;
      assert ([d] + tail)[0] == d;
      assert SplitAny([d] + tail, ds) == [[]] + SplitAny(tail, ds);
      var e: string := [];
      assert ps[0] + e == ps[0];
      assert ps == [ps[0]] + ps[1..];
    }
  }

  /** The same for a single delimiter. */
  lemma SplitJoin(ps: seq<string>, d: char)
    requires |ps| >= 1
    requires forall k :: 0 <= k < |ps| ==> d !in ps[k]
    ensures Split(Join(ps, [d]), d) == ps
  {
    SplitAnyJoin(ps, d, {d});
  }

  /** Splitting text that starts with a delimiter-free part `a` puts `a` at
      the front of the first piece. */
  lemma {:induction false} SplitAnyPrefix(a: string, b: string, ds: set<char>)
    requires NoneOf(a, ds)
    ensures SplitAny(a + b, ds) == [a + SplitAny(b, ds)[0]] + SplitAny(b, ds)[1..]
    decreases |a|
  {
    if a == [] {
      assert a + b == b;
      var r := SplitAny(b, ds);
      assert a + r[0] == r[0];
      assert r == [r[0]] + r[1..];
    } else {
      var r := SplitAny(b, ds);
      assert NoneOf(a[1..], ds) by {
        assert forall i :: 0 <= i < |a[1..]| ==> a[1..][i] == a[i + 1];
      }
      SplitAnyPrefix(a[1..], b, ds);
      var rest := SplitAny(a[1..] + b, ds);
      assert rest == [a[1..] + r[0]] + r[1..];
      assert SplitAny(a + b, ds) == [[a[0]] + rest[0]] + rest[1..] by {
        assert (a + b)[1..] == a[1..] + b;
        assert (a + b)[0] == a[0] && a[0] !in ds;
      }
      assert [a[0]] + (a[1..] + r[0]) == a + r[0];
    }
  }

  /** Joining the first `k` parts gives a prefix of joining them all. */
  lemma {:induction false} JoinPrefix(ps: seq<string>, sep: string, k: nat)
    requires k <= |ps|
    ensures StartsWith(Join(ps, sep), Join(ps[..k], sep))
    decreases |ps|
  {
    if k == 0 || k == |ps| {
      assert ps[..|ps|] == ps;
    } else if k == 1 {
      assert ps[..1] == [ps[0]];
    } else {
      JoinPrefix(ps[1..], sep, k - 1);
      assert ps[..k][1..] == ps[1..][..k - 1];
      var j := Join(ps[1..][..k - 1], sep);
      assert Join(ps[..k], sep) == ps[0] + sep + j;
      assert Join(ps, sep) == ps[0] + sep + Join(ps[1..], sep);
    }
  }

  /** Python's str.split(d). */
  function Split(s: string, d: char): (r: seq<string>)
    ensures |r| >= 1
    ensures forall k :: 0 <= k < |r| ==> d !in r[k]
  {
    var r := SplitAny(s, {d});
    assert forall k :: 0 <= k < |r| ==> NoneOf(r[k], {d});
    r
  }

  /** Python's sep.join(parts). */
  function Join(parts: seq<string>, sep: string): string
  {
    if parts == [] then []
    else if |parts| == 1 then parts[0]
    else parts[0] + sep + Join(parts[1..], sep)
  }

  /** Joining the pieces of a split with the delimiter gives the input back. */
  lemma {:induction false} JoinSplit(s: string, d: char)
    ensures Join(Split(s, d), [d]) == s
    decreases |s|
  {
    if s != [] {
      JoinSplit(s[1..], d);
      var rest := SplitAny(s[1..], {d});
      assert Split(s[1..], d) == rest;
      if s[0] == d {
        assert Join([[]] + rest, [d]) == [] + [d] + Join(rest, [d]);
      } else if |rest| == 1 {
        assert Join([[s[0]] + rest[0]] + rest[1..], [d]) == [s[0]] + rest[0];
      } else {
        var p := [[s[0]] + rest[0]] + rest[1..];
        assert p[1..] == rest[1..];
        assert Join(p, [d]) == [s[0]] + rest[0] + [d] + Join(rest[1..], [d]);
        assert Join(rest, [d]) == rest[0] + [d] + Join(rest[1..], [d]);
      }
    }
  }

  /** Joining splits off the last part. */
  lemma {:induction false} JoinLast(ps: seq<string>, sep: string)
    requires |ps| >= 2
    ensures Join(ps, sep) == Join(ps[..|ps| - 1], sep) + sep + ps[|ps| - 1]
    decreases |ps|
  {
    if |ps| > 2 {
      JoinLast(ps[1..], sep);
      assert ps[1..][..|ps| - 2] == ps[..|ps| - 1][1..];
    } else {
      assert ps[..1] == [ps[0]];
    }
  }

  /** A split has one more part than the text has delimiters. */
  lemma {:induction false} SplitCount(s: string, d: char)
    ensures |Split(s, d)| == multiset(s)[d] + 1
    decreases |s|
  {
    if s != [] {
      SplitCount(s[1..], d);
      assert s == [s[0]] + s[1..];
      assert multiset(s) == multiset{s[0]} + multiset(s[1..]);
      assert Split(s[1..], d) == SplitAny(s[1..], {d});
    }
  }

  /** The parts of a Python str.split() on whitespace: the non-empty runs of
      non-whitespace characters. */
  function Words(s: string): (r: seq<string>)
    ensures forall k :: 0 <= k < |r| ==> r[k] != [] && NoneOf(r[k], Whitespace)
  {
    NonEmpty(SplitAny(s, Whitespace))
  }

  /** The non-empty strings of `ps`, in order. */
  function NonEmpty(ps: seq<string>): (r: seq<string>)
    ensures |r| <= |ps|
    ensures forall k :: 0 <= k < |r| ==> r[k] != [] && r[k] in ps
    ensures forall p :: p in ps && p != [] ==> p in r
  {
    if ps == [] then []
    else if ps[0] == [] then NonEmpty(ps[1..])
    else [ps[0]] + NonEmpty(ps[1..])
  }

  function Digit(d: nat): (c: char)
    requires d < 10
    ensures IsDigit(c)
  {
    ('0' as int + d) as char
  }

  /** The decimal digits of `n`: Python's str(n), JavaScript's String(n) for integers. */
  function Decimal(n: nat): (r: string)
    ensures r != [] && AllDigits(r)
    decreases n
  {
    if n < 10 then [Digit(n)] else Decimal(n / 10) + [Digit(n % 10)]
  }

  /** The number a non-empty run of decimal digits denotes. */
  function DigitsValue(s: string): nat
    requires AllDigits(s)
    decreases |s|
  {
    if s == [] then 0
    else DigitsValue(s[..|s| - 1]) * 10 + (s[|s| - 1] as int - '0' as int)
  }

  lemma {:induction false} DigitsValueOfDecimal(n: nat)
    ensures DigitsValue(Decimal(n)) == n
    decreases n
  {
    if n >= 10 {
      DigitsValueOfDecimal(n / 10);
      var d := Decimal(n / 10) + [Digit(n % 10)];
      assert d[..|d| - 1] == Decimal(n / 10);
    }
  }

  /** Python 2's int(s): optional surrounding whitespace, an optional sign,
      optional whitespace after the sign (the digit scanner skips whitespace
      again), then at least one ASCII digit; anything else raises ValueError
      (None). */
  function ParseInt(s: string): (r: Option<int>)
    ensures r.Some? ==> exists k :: 0 <= k < |s| && IsDigit(s[k])
  {
    var t := Strip(s, Whitespace);
    StripInside(s, Whitespace);
    assert ParseStripped(t).Some? ==> exists k :: 0 <= k < |t| && IsDigit(t[k]) by {
      if t != [] && (t[0] == '+' || t[0] == '-') {
        var d := SkipSpaces(t[1..]);
        SkipSpacesSuffix(t[1..]);
        if d != [] && AllDigits(d) {
          assert IsDigit(t[|t| - |d|]);
        }
      } else if t != [] && AllDigits(t) {
        assert IsDigit(t[0]);
      }
    }
    ParseStripped(t)
  }

  /** int() on text whose ends are not whitespace: a sign, whitespace, digits. */
  function ParseStripped(t: string): Option<int>
  {
    if t != [] && (t[0] == '+' || t[0] == '-') then
      var d := SkipSpaces(t[1..]);
      if d != [] && AllDigits(d) then
        var v: int := DigitsValue(d);
        Some(if t[0] == '-' then -v else v)
      else None
    else if t != [] && AllDigits(t) then Some(DigitsValue(t))
    else None
  }

  /** The text after its leading whitespace, as the digit scanner skips it. */
  function SkipSpaces(s: string): string
    decreases |s|
  {
    if s != [] && s[0] in Whitespace then SkipSpaces(s[1..]) else s
  }

  /** What SkipSpaces leaves is a suffix of its input. */
  lemma {:induction false} SkipSpacesSuffix(s: string)
    ensures |SkipSpaces(s)| <= |s| && SkipSpaces(s) == s[|s| - |SkipSpaces(s)|..]
    decreases |s|
  {
    if s != [] && s[0] in Whitespace {
      SkipSpacesSuffix(s[1..]);
    }
  }

  /** Leading whitespace before text that starts with something else is skipped. */
  lemma {:induction false} SkipSpacesPrefix(ws: string, d: string)
    requires forall i :: 0 <= i < |ws| ==> ws[i] in Whitespace
    requires d == [] || d[0] !in Whitespace
    ensures SkipSpaces(ws + d) == d
    decreases |ws|
  {
    if ws == [] {
      assert ws + d == d;
    } else {
      assert (ws + d)[0] == ws[0] && (ws + d)[1..] == ws[1..] + d;
      SkipSpacesPrefix(ws[1..], d);
    }
  }

  /** Text whose ends are not whitespace is parsed as it stands. */
  lemma ParseIntClean(s: string)
    requires Strip(s, Whitespace) == s
    ensures ParseInt(s) == ParseStripped(s)
  {
  }

  /** A sign, whitespace and digits read as the signed value of the digits. */
  lemma ParseStrippedSigned(t: string, d: string)
    requires t != [] && (t[0] == '+' || t[0] == '-')
    requires SkipSpaces(t[1..]) == d && d != [] && AllDigits(d)
    ensures ParseStripped(t) == Some(if t[0] == '-' then -(DigitsValue(d) as int) else DigitsValue(d))
  {
  }

  /** Every character of a stripped text occurs in the text. */
  lemma StripInside(s: string, cs: set<char>)
    ensures forall c :: c in Strip(s, cs) ==> c in s
  {
    forall c | c in Strip(s, cs) ensures c in s {
      if c !in s {
        StripKeepsOut(s, cs, c);
      }
    }
  }

  /** A sign, whitespace and a run of digits read as the signed value of the digits. */
  lemma ParseIntSignedDigits(s: string, ws: string, d: string, r: int)
    requires s != [] && (s[0] == '+' || s[0] == '-') && s[1..] == ws + d
    requires forall i :: 0 <= i < |ws| ==> ws[i] in Whitespace
    requires d != [] && AllDigits(d)
    requires r == if s[0] == '-' then -(DigitsValue(d) as int) else DigitsValue(d)
    ensures ParseInt(s) == Some(r)
  {
    assert s[|s| - 1] == d[|d| - 1];
    NotWhitespace(s[0]);
    NotWhitespace(d[0]);
    NotWhitespace(d[|d| - 1]);
    StripClean(s, Whitespace);
    SkipSpacesPrefix(ws, d);
    ParseStrippedSigned(s, d);
    ParseIntClean(s);
  }

  /** int("- 5") == -5 and int("+ 5") == 5: whitespace may follow the sign. */
  lemma ParseIntSpacedSign(sign: char, ws: string, n: nat)
    requires sign == '+' || sign == '-'
    requires forall i :: 0 <= i < |ws| ==> ws[i] in Whitespace
    ensures ParseInt([sign] + ws + Decimal(n)) == Some(if sign == '-' then -(n as int) else n)
  {
    var d := Decimal(n);
    SignThenRest(sign, ws, d);
    DigitsValueOfDecimal(n);
    ParseIntSignedDigits([sign] + ws + d, ws, d, if sign == '-' then -(n as int) else n);
  }

  /** The parts of a sign followed by more text. */
  lemma SignThenRest(sign: char, ws: string, d: string)
    ensures ([sign] + ws + d)[0] == sign && ([sign] + ws + d)[1..] == ws + d
  {
    assert ([sign] + ws + d)[1..] == ws + d;
  }

  /** Digits and the signs are not whitespace. */
  lemma NotWhitespace(c: char)
    requires IsDigit(c) || c == '-' || c == '+'
    ensures c !in Whitespace
  {
  }

  /** Python's str(n) for any integer. */
  function IntString(n: int): (r: string)
    ensures r != [] && (r[0] == '-' <==> n < 0)
  {
    if n < 0 then "-" + Decimal(-n) else Decimal(n)
  }

  /** int(str(n)) == n. */
  lemma ParseIntOfIntString(n: int)
    ensures ParseInt(IntString(n)) == Some(n)
  {
    if n >= 0 {
      ParseIntOfDecimal(n);
    } else {
      var s := IntString(n);
      var e: string := [];
      assert s[0] == '-' && s[1..] == e + Decimal(-n);
      DigitsValueOfDecimal(-n);
      ParseIntSignedDigits(s, e, Decimal(-n), n);
    }
  }

  /** A split has no non-empty piece exactly when every character is a delimiter. */
  lemma {:induction false} NonEmptySplitAnyEmpty(s: string, ds: set<char>)
    ensures NonEmpty(SplitAny(s, ds)) == [] <==> forall i :: 0 <= i < |s| ==> s[i] in ds
    decreases |s|
  {
    if s != [] {
      NonEmptySplitAnyEmpty(s[1..], ds);
      var rest := SplitAny(s[1..], ds);
      if s[0] in ds {
        assert ([[]] + rest)[1..] == rest;
        assert forall i :: 1 <= i < |s| ==> s[i] == s[1..][i - 1];
      } else {
        var p := [[s[0]] + rest[0]] + rest[1..];
        assert SplitAny(s, ds) == p && p[0] != [];
      }
    }
  }

  lemma ParseIntOfDecimal(n: nat)
    ensures ParseInt(Decimal(n)) == Some(n)
  {
    var d := Decimal(n);
    NotWhitespace(d[0]);
    NotWhitespace(d[|d| - 1]);
    StripClean(d, Whitespace);
    assert !(d[0] == '+' || d[0] == '-');
    DigitsValueOfDecimal(n);
  }
}
