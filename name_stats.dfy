/** Naming-convention statistics over a set of user-defined identifiers. Each
    convention is a regular expression applied with `re.match` (anchored at the
    start) or `re.search`; `$` holds at the end of the name and also just
    before a single final newline, as in Python. */
module NameStats {
  import opened Strings
  import TextStats

  /** The distinct names; the source keeps them as `list(set(names))`, whose
      order is unspecified, so the model keeps the set. */
  datatype Names = Names(names: set<string>)
  {
    function Len(): (n: nat)
      ensures n == |names|
    {
      |names|
    }
  }

  /** Builds the analyser from any sequence of names, dropping duplicates. */
  function NewNames(xs: seq<string>): (ns: Names)
    ensures forall x :: x in ns.names <==> x in xs
  {
    Names(set x | x in xs)
  }

  predicate Distinct(xs: seq<string>)
  {
    forall i, j :: 0 <= i < j < |xs| ==> xs[i] != xs[j]
  }

  /** There are at most as many names as were given, and exactly as many when
      none was repeated. */
  lemma {:induction false} LenAtMostInput(xs: seq<string>)
    ensures NewNames(xs).Len() <= |xs|
    ensures NewNames(xs).Len() == |xs| <==> Distinct(xs)
  {
    if xs != [] {
      var rest := xs[1..];
      LenAtMostInput(rest);
      DistinctCons(xs);
      var s, t := set x | x in xs, set x | x in rest;
      assert s == t + {xs[0]};
      if xs[0] in rest {
        assert s == t;
      } else {
        assert |s| == |t| + 1;
      }
    }
  }

  /** A list is free of repeats exactly when its head does not recur and its
      tail is free of repeats. */
  lemma DistinctCons(xs: seq<string>)
    requires xs != []
    ensures Distinct(xs) <==> xs[0] !in xs[1..] && Distinct(xs[1..])
  {
    var rest := xs[1..];
    if xs[0] in rest {
      var k :| 0 <= k < |rest| && rest[k] == xs[0];
      assert xs[0] == xs[k + 1];
    }
    if Distinct(xs) {
      assert forall i, j :: 0 <= i < j < |rest| ==> rest[i] == xs[i + 1] && rest[j] == xs[j + 1];
    }
    if xs[0] !in rest && Distinct(rest) {
      forall i, j | 0 <= i < j < |xs| ensures xs[i] != xs[j] {
        assert xs[j] == rest[j - 1];
        if i > 0 {
          assert xs[i] == rest[i - 1];
        }
      }
    }
  }

  // ---------------------------------------------------------------------
  // Anchors

  /** `$` holds at position `k`: the end, or just before a final newline. */
  predicate AtDollar(s: string, k: nat)
  {
    k == |s| || (k + 1 == |s| && s[k] == '\n')
  }

  /** `s` without a final newline, when it has one. */
  function Chomp(s: string): (r: string)
    ensures AtDollar(s, |r|) && r == s[..|r|]
  {
    if s != [] && s[|s| - 1] == '\n' then s[..|s| - 1] else s
  }

  /** The end of the run of lower-case letters starting at `i` (`[a-z]*`). */
  function LowerRunEnd(s: string, i: nat): (j: nat)
    requires i <= |s|
    ensures i <= j <= |s|
    ensures forall k :: i <= k < j ==> IsLower(s[k])
    ensures j == |s| || !IsLower(s[j])
    decreases |s| - i
  {
    if i == |s| || !IsLower(s[i]) then i else LowerRunEnd(s, i + 1)
  }

  // ---------------------------------------------------------------------
  // The patterns, written as their matchers

  /** `(?:[A-Z][a-z]*)*` consumes `s[i..]`. */
  predicate CapitalGroups(s: string, i: nat)
    requires i <= |s|
    decreases |s| - i
  {
    i == |s| || (IsUpper(s[i]) && CapitalGroups(s, LowerRunEnd(s, i + 1)))
  }

  /** `(?:_[a-z]+)*` consumes `s[i..]`. */
  predicate UnderscoreGroups(s: string, i: nat)
    requires i <= |s|
    decreases |s| - i
  {
    i == |s|
    || (s[i] == '_' && i + 1 < |s| && IsLower(s[i + 1]) && UnderscoreGroups(s, LowerRunEnd(s, i + 1)))
  }

  /** `[a-z]+(?:[A-Z][a-z]*)*` matches exactly `s`. */
  predicate CamelBody(s: string)
  {
    s != [] && IsLower(s[0]) && CapitalGroups(s, LowerRunEnd(s, 0))
  }

  /** `[a-z]+(?:_[a-z]+)*` matches exactly `s`. */
  predicate SnakeBody(s: string)
  {
    s != [] && IsLower(s[0]) && UnderscoreGroups(s, LowerRunEnd(s, 0))
  }

  /** `[A-Z][a-z]*(?:[A-Z][a-z]*)*` matches exactly `s`. */
  predicate PascalBody(s: string)
  {
    s != [] && IsUpper(s[0]) && CapitalGroups(s, LowerRunEnd(s, 1))
  }

  /** `[a-z]+` matches exactly `s`. */
  predicate SimpleBody(s: string)
  {
    s != [] && LowerRunEnd(s, 0) == |s|
  }

  /** `^[a-z]+(?:[A-Z][a-z]*)*$` */
  predicate IsCamelCase(s: string) { CamelBody(s) || CamelBody(Chomp(s)) }

  /** `^[a-z]+(?:_[a-z]+)*$` */
  predicate IsSnakeCase(s: string) { SnakeBody(s) || SnakeBody(Chomp(s)) }

  /** `^[A-Z][a-z]*(?:[A-Z][a-z]*)*$` */
  predicate IsPascalCase(s: string) { PascalBody(s) || PascalBody(Chomp(s)) }

  /** `^[a-z]+$` */
  predicate IsSimple(s: string) { SimpleBody(s) || SimpleBody(Chomp(s)) }

  /** `^_` */
  predicate IsPrivate(s: string) { s != [] && s[0] == '_' }

  /** `re.search(r"\d$", s)`: tries every start position from `i` on. */
  predicate SearchDigitAtEnd(s: string, i: nat)
    requires i <= |s|
    decreases |s| - i
  {
    i < |s| && ((IsDigit(s[i]) && AtDollar(s, i + 1)) || SearchDigitAtEnd(s, i + 1))
  }

  predicate EndsWithNumber(s: string) { SearchDigitAtEnd(s, 0) }

  /** The end of the run of ASCII characters starting at `i`. */
  function AsciiRunEnd(s: string, i: nat): (j: nat)
    requires i <= |s|
    ensures i <= j <= |s|
    ensures forall k :: i <= k < j ==> IsAscii(s[k])
    ensures j == |s| || !IsAscii(s[j])
    decreases |s| - i
  {
    if i == |s| || !IsAscii(s[i]) then i else AsciiRunEnd(s, i + 1)
  }

  /** `^[\x00-\x7F]*$`: the star may give back characters so that `$` holds. */
  predicate IsAsciiName(s: string)
  {
    exists k :: 0 <= k <= AsciiRunEnd(s, 0) && AtDollar(s, k)
  }

  // ---------------------------------------------------------------------
  // What each pattern accepts, by character classes

  predicate AllLetters(s: string, i: nat)
  {
    forall k :: i <= k < |s| ==> IsLetter(s[k])
  }

  /** Every character from `i` on is a lower-case letter, or an underscore
      followed by a lower-case letter. */
  predicate SnakeChars(s: string, i: nat)
  {
    forall k :: i <= k < |s| ==> SnakeCharAt(s, k)
  }

  predicate SnakeCharAt(s: string, k: nat)
    requires k < |s|
  {
    IsLower(s[k]) || (s[k] == '_' && k + 1 < |s| && IsLower(s[k + 1]))
  }

  lemma {:induction false} CapitalGroupsSpec(s: string, i: nat)
    requires i <= |s|
    ensures CapitalGroups(s, i) <==> (i == |s| || IsUpper(s[i])) && AllLetters(s, i)
    decreases |s| - i
  {
    if i < |s| {
      var j := LowerRunEnd(s, i + 1);
      CapitalGroupsSpec(s, j);
    }
  }

  lemma {:induction false} UnderscoreGroupsSpec(s: string, i: nat)
    requires i <= |s|
    ensures UnderscoreGroups(s, i) <==> (i == |s| || s[i] == '_') && SnakeChars(s, i)
    decreases |s| - i
  {
    if i < |s| {
      if s[i] == '_' && i + 1 < |s| && IsLower(s[i + 1]) {
        var j := LowerRunEnd(s, i + 1);
        UnderscoreGroupsSpec(s, j);
        SnakeCharsAcrossLowerRun(s, i + 1, j);
        assert SnakeChars(s, i) <==> SnakeChars(s, i + 1);
        if j < |s| && SnakeChars(s, j) {
          assert SnakeCharAt(s, j);
        }
      } else if s[i] == '_' {
        assert !SnakeCharAt(s, i);
      }
    }
  }

  /** A run of lower-case letters does not change whether the rest is made of
      snake-case characters. */
  lemma SnakeCharsAcrossLowerRun(s: string, i: nat, j: nat)
    requires i <= j <= |s|
    requires forall k :: i <= k < j ==> IsLower(s[k])
    ensures SnakeChars(s, i) <==> SnakeChars(s, j)
  {
    if SnakeChars(s, j) {
      forall k | i <= k < |s|
        ensures SnakeCharAt(s, k)
      {
        if k < j {
          assert IsLower(s[k]);
        }
      }
    }
  }

  /** Camel case: a lower-case letter first, then letters only. */
  lemma CamelBodySpec(s: string)
    ensures CamelBody(s) <==> s != [] && IsLower(s[0]) && AllLetters(s, 0)
  {
    if s != [] && IsLower(s[0]) {
      CapitalGroupsSpec(s, LowerRunEnd(s, 0));
    }
  }

  /** Pascal case: an upper-case letter first, then letters only. */
  lemma PascalBodySpec(s: string)
    ensures PascalBody(s) <==> s != [] && IsUpper(s[0]) && AllLetters(s, 0)
  {
    if s != [] && IsUpper(s[0]) {
      CapitalGroupsSpec(s, LowerRunEnd(s, 1));
    }
  }

  /** Snake case: a lower-case letter first, then lower-case letters and
      underscores, each underscore followed by a lower-case letter (so no
      doubled or trailing underscore). */
  lemma SnakeBodySpec(s: string)
    ensures SnakeBody(s) <==> s != [] && IsLower(s[0]) && SnakeChars(s, 0)
  {
    if s != [] && IsLower(s[0]) {
      var j := LowerRunEnd(s, 0);
      UnderscoreGroupsSpec(s, j);
      SnakeCharsAcrossLowerRun(s, 0, j);
      if j < |s| && SnakeChars(s, j) {
        assert SnakeCharAt(s, j);
      }
    }
  }

  /** Simple: lower-case letters only, at least one. */
  lemma SimpleBodySpec(s: string)
    ensures SimpleBody(s) <==> s != [] && forall k :: 0 <= k < |s| ==> IsLower(s[k])
  {
  }

  /** A name ends with a number when its last character is an ASCII digit, or
      its last but one is and a newline ends it. */
  lemma {:induction false} SearchDigitAtEndSpec(s: string, i: nat)
    requires i <= |s|
    ensures SearchDigitAtEnd(s, i) <==>
      (i < |s| && IsDigit(s[|s| - 1])) || (i + 1 < |s| && s[|s| - 1] == '\n' && IsDigit(s[|s| - 2]))
    decreases |s| - i
  {
    if i < |s| {
      SearchDigitAtEndSpec(s, i + 1);
    }
  }

  /** A name is ASCII exactly when every character is, that is when it has no
      non-ASCII character. */
  lemma AsciiNameSpec(s: string)
    ensures IsAsciiName(s) <==> forall k :: 0 <= k < |s| ==> IsAscii(s[k])
    ensures IsAsciiName(s) <==> TextStats.NonAsciiCount(s) == 0
  {
    TextStats.NonAsciiZeroIffAscii(s);
    var j := AsciiRunEnd(s, 0);
    if forall k :: 0 <= k < |s| ==> IsAscii(s[k]) {
      assert j == |s| && AtDollar(s, j);
    }
    if IsAsciiName(s) {
      var k :| 0 <= k <= j && AtDollar(s, k);
      if k < |s| {
        assert IsAscii(s[k]);
      }
    }
  }

  // ---------------------------------------------------------------------
  // How the conventions relate

  lemma CamelSpec(s: string)
    ensures IsCamelCase(s) ==> IsLower(s[0])
    ensures IsCamelCase(s) ==> forall k :: 0 <= k < |s| ==> IsLetter(s[k]) || (k == |s| - 1 && s[k] == '\n')
  {
    CamelBodySpec(s);
    CamelBodySpec(Chomp(s));
  }

  /** No name is both camel case and Pascal case. */
  lemma CamelNotPascal(s: string)
    ensures !(IsCamelCase(s) && IsPascalCase(s))
  {
    CamelBodySpec(s);
    CamelBodySpec(Chomp(s));
    PascalBodySpec(s);
    PascalBodySpec(Chomp(s));
  }

  /** A simple name is exactly one that is both camel case and snake case. */
  lemma SimpleIffCamelAndSnake(s: string)
    ensures IsSimple(s) <==> IsCamelCase(s) && IsSnakeCase(s)
  {
    var c := Chomp(s);
    CamelBodySpec(s);
    CamelBodySpec(c);
    SnakeBodySpec(s);
    SnakeBodySpec(c);
    SimpleBodySpec(s);
    SimpleBodySpec(c);
    if c != s {
      assert s == c + ['\n'];
      assert s[|s| - 1] == '\n';
    }
  }

  /** A private name is in none of the letter-first conventions. */
  lemma PrivateExcludesConventions(s: string)
    ensures IsPrivate(s) ==> !IsCamelCase(s) && !IsSnakeCase(s) && !IsPascalCase(s) && !IsSimple(s)
  {
    var c := Chomp(s);
    if IsPrivate(s) {
      assert c == [] || c[0] == '_';
    }
  }

  /** A name with a final digit is in none of the letter-only conventions. */
  lemma NumberExcludesLetterConventions(s: string)
    requires EndsWithNumber(s)
    ensures !IsCamelCase(s) && !IsPascalCase(s) && !IsSimple(s) && !IsSnakeCase(s)
  {
    SearchDigitAtEndSpec(s, 0);
    var c := Chomp(s);
    CamelBodySpec(s);
    CamelBodySpec(c);
    PascalBodySpec(s);
    PascalBodySpec(c);
    SnakeBodySpec(s);
    SnakeBodySpec(c);
    SimpleBodySpec(s);
    SimpleBodySpec(c);
    assert !SnakeCharAt(s, |s| - 1);
    if !IsDigit(s[|s| - 1]) {
      assert c == s[..|s| - 1] && c[|c| - 1] == s[|s| - 2];
      assert !SnakeCharAt(c, |c| - 1);
    }
  }

  // ---------------------------------------------------------------------
  // The per-name columns and the table

  /** One row of `stats`: its fields are the columns named in `Columns`, in
      that order. */
  datatype Row = Row(
    nChars: nat,
    camelCase: bool,
    snakeCase: bool,
    pascalCase: bool,
    private: bool,
    endswithNumber: bool,
    simple: bool,
    ascii: bool)

  /** The column names of `stats`, in the source's order; the `Row` fields
      follow it one for one. */
  const Columns: seq<string> :=
    ["n_chars", "camel_case", "snake_case", "pascal_case", "private", "endswith_number", "simple", "ascii"]

  function RowOf(name: string): (r: Row)
    ensures r.nChars == |name|
    ensures r.simple <==> r.camelCase && r.snakeCase
    ensures !(r.camelCase && r.pascalCase)
    ensures r.private ==> !r.camelCase && !r.snakeCase && !r.pascalCase && !r.simple
    ensures r.ascii <==> TextStats.NonAsciiCount(name) == 0
  {
    SimpleIffCamelAndSnake(name);
    CamelNotPascal(name);
    PrivateExcludesConventions(name);
    AsciiNameSpec(name);
    Row(|name|, IsCamelCase(name), IsSnakeCase(name), IsPascalCase(name), IsPrivate(name),
        EndsWithNumber(name), IsSimple(name), IsAsciiName(name))
  }

  /** `stats`: one row per distinct name, indexed by the name. */
  function Stats(ns: Names): (t: map<string, Row>)
    ensures t.Keys == ns.names
    ensures forall n :: n in t ==> t[n].nChars == |n|
    ensures forall n :: n in t ==> (t[n].simple <==> t[n].camelCase && t[n].snakeCase)
  {
    map n | n in ns.names :: RowOf(n)
  }
}
