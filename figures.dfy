/** The figure number an archive member's path names
    (gobotany/dkey/import_figures.py). */
module Figures {
  import opened Wrappers
  import opened Text

  /** The text after the last '/' of a path (all of it when there is none). */
  function FinalComponent(name: string): string
    decreases |name|
  {
    if name == [] then []
    else if name[|name| - 1] == '/' then []
    else FinalComponent(name[..|name| - 1]) + [name[|name| - 1]]
  }

  /** The final component is a suffix of the path, holds no '/', and is
      preceded by a '/' unless it is the whole path. */
  lemma {:induction false} FinalComponentSuffix(name: string)
    ensures var r := FinalComponent(name);
      '/' !in r && |r| <= |name| && r == name[|name| - |r|..] &&
      (|r| < |name| ==> name[|name| - |r| - 1] == '/')
    decreases |name|
  {
    if name != [] && name[|name| - 1] != '/' {
      var p := name[..|name| - 1];
      var q := FinalComponent(p);
      FinalComponentSuffix(p);
      assert name == p + [name[|name| - 1]];
      assert name[|name| - |q| - 1..] == p[|p| - |q|..] + [name[|name| - 1]];
      assert |q| < |p| ==> name[|name| - |q| - 2] == p[|p| - |q| - 1];
    }
  }

  /** The length of the run of digits at the end of `s`. */
  function TrailingDigits(s: string): (n: nat)
    ensures n <= |s| && AllDigits(s[|s| - n..])
    ensures n < |s| ==> !IsDigit(s[|s| - n - 1])
    decreases |s|
  {
    if s == [] || !IsDigit(s[|s| - 1]) then 0
    else
      var m := TrailingDigits(s[..|s| - 1]);
      assert s[|s| - m - 1..] == s[..|s| - 1][|s| - 1 - m..] + [s[|s| - 1]];
      m + 1
  }

  /** The maximal runs of digits in `s`, in order: re.findall of `\d+`.
      The runs are collected from the end of the text, so that the last run,
      the one figure_number keeps, is the last step. */
  function DigitRuns(s: string): (r: seq<string>)
    ensures DigitStrings(r)
    decreases |s|
  {
    if s == [] then []
    else if !IsDigit(s[|s| - 1]) then DigitRuns(s[..|s| - 1])
    else
      var n := TrailingDigits(s);
      DigitRuns(s[..|s| - n]) + [s[|s| - n..]]
  }

  /** Every element is a non-empty run of digits. */
  predicate DigitStrings(r: seq<string>) {
    forall k :: 0 <= k < |r| ==> r[k] != [] && AllDigits(r[k])
  }

  /** `s` holds no decimal digit. */
  predicate NoDigits(s: string) {
    forall i :: 0 <= i < |s| ==> !IsDigit(s[i])
  }

  /** There are no runs exactly when there is no digit. */
  lemma {:induction false} DigitRunsNone(s: string)
    ensures DigitRuns(s) == [] <==> NoDigits(s)
    decreases |s|
  {
    if s != [] && !IsDigit(s[|s| - 1]) {
      var p := s[..|s| - 1];
      DigitRunsNone(p);
      assert forall i :: 0 <= i < |p| ==> s[i] == p[i];
    }
  }

  /** figure_number: None for the maps and the kept-page images; otherwise the
      value of the last run of digits in the final path component, if any.
      The pattern `\d+(?=[^/]*$)` matches exactly the digit runs that no '/'
      follows, which are the runs of the final component. */
  function FigureNumber(name: string): (r: Option<int>)
    ensures r.Some? ==> r.value >= 0
    ensures Excluded(name) ==> r.None?
  {
    if Contains(name, "/maps/") then None
    else if Contains(name, "/prog-keep/") then None
    else ComponentNumber(FinalComponent(name))
  }

  /** The value of the last run of digits of a path component, if any. */
  function ComponentNumber(c: string): (r: Option<int>)
    ensures r.Some? ==> r.value >= 0
  {
    var numbers := DigitRuns(c);
    if numbers == [] then None
    else Some(DigitsValue(numbers[|numbers| - 1]))
  }

  /** The map images and the kept-page images carry no figure number. */
  predicate Excluded(name: string) {
    Contains(name, "/maps/") || Contains(name, "/prog-keep/")
  }

  /** `s[i..j]` is the last maximal run of digits in `s`. */
  predicate LastRun(s: string, i: int, j: int) {
    0 <= i < j <= |s| && AllDigits(s[i..j]) &&
    (i == 0 || !IsDigit(s[i - 1])) && NoDigits(s[j..])
  }

  /** The last element of DigitRuns is the last maximal run of digits. */
  lemma {:induction false} LastOfDigitRuns(s: string) returns (i: nat, j: nat)
    requires DigitRuns(s) != []
    ensures LastRun(s, i, j) && DigitRuns(s)[|DigitRuns(s)| - 1] == s[i..j]
    decreases |s|
  {
    if IsDigit(s[|s| - 1]) {
      i, j := |s| - TrailingDigits(s), |s|;
    } else {
      var p := s[..|s| - 1];
      i, j := LastOfDigitRuns(p);
      LastRunExtend(s, i, j);
    }
  }

  /** A character that is no digit, added at the end, leaves the last run
      where it is. */
  lemma LastRunExtend(s: string, i: nat, j: nat)
    requires s != [] && !IsDigit(s[|s| - 1]) && LastRun(s[..|s| - 1], i, j)
    ensures LastRun(s, i, j) && s[..|s| - 1][i..j] == s[i..j]
  {
    var p := s[..|s| - 1];
    assert s[j..] == p[j..] + [s[|s| - 1]];
    assert p[i..j] == s[i..j];
    if i > 0 {
      assert p[i - 1] == s[i - 1];
    }
  }

  /** When a number is returned, it is the value of the last maximal run of
      digits in the final path component. */
  lemma FigureNumberIsLastRun(name: string)
    requires FigureNumber(name).Some?
    ensures exists i, j ::
      LastRun(FinalComponent(name), i, j) &&
      FigureNumber(name).value == DigitsValue(FinalComponent(name)[i..j])
  {
    var c := FinalComponent(name);
    assert FigureNumber(name) == ComponentNumber(c);
    var i, j := LastOfDigitRuns(c);
    assert LastRun(c, i, j);
  }

  /** No number exactly for maps, kept pages and final components without a digit. */
  lemma FigureNumberNone(name: string)
    ensures FigureNumber(name).None? <==>
      Excluded(name) ||
      NoDigits(FinalComponent(name))
  {
    var c := FinalComponent(name);
    ComponentNumberNone(c);
    if !Excluded(name) {
      assert FigureNumber(name) == ComponentNumber(c);
    }
  }

  lemma ComponentNumberNone(c: string)
    ensures ComponentNumber(c).None? <==> NoDigits(c)
  {
    DigitRunsNone(c);
  }

  /** Digits in directory names play no part: only the final component counts. */
  lemma DirectoryIgnored(dir: string, component: string)
    requires '/' !in component
    requires !Excluded(dir + "/" + component)
    ensures FigureNumber(dir + "/" + component) == ComponentNumber(component)
  {
    ComponentAfterSlash(dir, component);
  }

  lemma {:induction false} ComponentAfterSlash(dir: string, component: string)
    requires '/' !in component
    ensures FinalComponent(dir + "/" + component) == component
    decreases |component|
  {
    var name := dir + "/" + component;
    if component == [] {
      assert name[|name| - 1] == '/';
    } else {
      var last := component[|component| - 1];
      assert name[..|name| - 1] == dir + "/" + component[..|component| - 1];
      ComponentAfterSlash(dir, component[..|component| - 1]);
      assert component[..|component| - 1] + [last] == component;
    }
  }

  /** A file named "stem<n>ext" under any directory is figure n. */
  lemma FigureNumberOfFile(dir: string, stem: string, n: nat, ext: string)
    requires '/' !in stem && '/' !in ext
    requires NoDigits(stem)
    requires NoDigits(ext)
    requires !Excluded(dir + "/" + stem + Decimal(n) + ext)
    ensures FigureNumber(dir + "/" + stem + Decimal(n) + ext) == Some(n)
  {
    DigitsValueOfDecimal(n);
    NumberedFile(dir, stem, Decimal(n), ext);
  }

  lemma NumberedFile(dir: string, stem: string, d: string, ext: string)
    requires d != [] && AllDigits(d)
    requires '/' !in stem && '/' !in ext
    requires NoDigits(stem)
    requires NoDigits(ext)
    requires !Excluded(dir + "/" + stem + d + ext)
    ensures FigureNumber(dir + "/" + stem + d + ext) == Some(DigitsValue(d))
  {
    var component := stem + d + ext;
    assert '/' !in d by {
      forall i | 0 <= i < |d| ensures d[i] != '/' { assert IsDigit(d[i]); }
    }
    assert dir + "/" + stem + d + ext == dir + "/" + component;
    DirectoryIgnored(dir, component);
    RunsOfFile(stem, d, ext);
  }

  lemma RunsOfFile(stem: string, d: string, ext: string)
    requires d != [] && AllDigits(d)
    requires NoDigits(stem)
    requires NoDigits(ext)
    ensures DigitRuns(stem + d + ext) == [d]
  {
    RunsBeforeNonDigits(stem + d, ext);
    RunsOfNumber(stem, d);
  }

  lemma {:induction false} RunsBeforeNonDigits(a: string, b: string)
    requires NoDigits(b)
    ensures DigitRuns(a + b) == DigitRuns(a)
    decreases |b|
  {
    if b == [] {
      assert a + b == a;
    } else {
      var c := a + b;
      var b' := b[..|b| - 1];
      assert c[|c| - 1] == b[|b| - 1];
      assert c[..|c| - 1] == a + b';
      assert NoDigits(b') by {
        assert forall i :: 0 <= i < |b'| ==> b'[i] == b[i];
      }
      RunsBeforeNonDigits(a, b');
    }
  }

  lemma RunsOfNumber(stem: string, d: string)
    requires d != [] && AllDigits(d)
    requires NoDigits(stem)
    ensures DigitRuns(stem + d) == [d]
  {
    var s := stem + d;
    TrailingDigitsOf(stem, d);
    assert s[..|s| - |d|] == stem && s[|s| - |d|..] == d;
    assert IsDigit(s[|s| - 1]) by {
      assert s[|s| - 1] == d[|d| - 1];
    }
    DigitRunsNone(stem);
  }

  lemma {:induction false} TrailingDigitsOf(stem: string, d: string)
    requires AllDigits(d)
    requires stem == [] || !IsDigit(stem[|stem| - 1])
    ensures TrailingDigits(stem + d) == |d|
    decreases |d|
  {
    if d == [] {
      assert stem + d == stem;
    } else {
      var s := stem + d;
      assert s[|s| - 1] == d[|d| - 1];
      assert s[..|s| - 1] == stem + d[..|d| - 1];
      TrailingDigitsOf(stem, d[..|d| - 1]);
    }
  }
}
