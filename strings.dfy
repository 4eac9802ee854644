/** The Python `str` operations the analysers rely on, over ASCII: character
    classes, `split()`, `strip()`, `lstrip(chars)`, `startswith`, `endswith`,
    `join`, `splitlines()`, `lower()`, and `int(s)` with its inverse `str(n)`. */
module Strings {
  import opened Common

  /** `str.isspace()` on the ASCII range: space, `\t \n \v \f \r` and the
      four separators `\x1c`..`\x1f`. */
  predicate IsSpace(c: char)
  {
    c == ' ' || ('\t' <= c <= '\r') || ('\U{1C}' <= c <= '\U{1F}')
  }

  predicate IsLower(c: char) { 'a' <= c <= 'z' }

  predicate IsUpper(c: char) { 'A' <= c <= 'Z' }

  predicate IsLetter(c: char) { IsLower(c) || IsUpper(c) }

  predicate IsDigit(c: char) { '0' <= c <= '9' }

  /** A code point in the range 0..127. */
  predicate IsAscii(c: char) { c as int <= 127 }

  /** Every character of `s` is whitespace (`not s.strip()`). */
  predicate Blank(s: string)
  {
    forall i :: 0 <= i < |s| ==> IsSpace(s[i])
  }

  predicate StartsWith(s: string, prefix: string)
  {
    |prefix| <= |s| && s[..|prefix|] == prefix
  }

  predicate EndsWith(s: string, suffix: string)
  {
    |suffix| <= |s| && s[|s| - |suffix|..] == suffix
  }

  // ---------------------------------------------------------------------
  // str.split() with no separator

  /** The end of the run of non-whitespace characters that starts at `i`. */
  function TokenEnd(s: string, i: nat): (j: nat)
    requires i <= |s|
    ensures i <= j <= |s|
    ensures forall k :: i <= k < j ==> !IsSpace(s[k])
    ensures j == |s| || IsSpace(s[j])
    decreases |s| - i
  {
    if i == |s| || IsSpace(s[i]) then i else TokenEnd(s, i + 1)
  }

  /** The maximal whitespace-free tokens of `s[i..]`, left to right. */
  function WordsFrom(s: string, i: nat): seq<string>
    requires i <= |s|
    decreases |s| - i
  {
    if i == |s| then []
    else if IsSpace(s[i]) then WordsFrom(s, i + 1)
    else
      var j := TokenEnd(s, i);
      [s[i..j]] + WordsFrom(s, j)
  }

  /** `s.split()`: the whitespace-separated words of `s`. */
  function Split(s: string): seq<string>
  {
    WordsFrom(s, 0)
  }

  /** `len(s.split())`. */
  function WordCount(s: string): nat
  {
    |Split(s)|
  }

  /** Position `k` begins a word: a non-space character at the start or after a space. */
  predicate IsWordStart(s: string, k: nat)
    requires k < |s|
  {
    !IsSpace(s[k]) && (k == 0 || IsSpace(s[k - 1]))
  }

  /** The number of word starts at positions `i..|s|-1`, counted one position at a time. */
  function WordStartsFrom(s: string, i: nat): nat
    requires i <= |s|
    decreases |s| - i
  {
    if i == |s| then 0
    else (if IsWordStart(s, i) then 1 else 0) + WordStartsFrom(s, i + 1)
  }

  lemma {:induction false} WordsFromTokens(s: string, i: nat)
    requires i <= |s|
    ensures forall w :: w in WordsFrom(s, i) ==> w != [] && Blank(w) == false
    ensures forall w :: w in WordsFrom(s, i) ==> forall k :: 0 <= k < |w| ==> !IsSpace(w[k])
    decreases |s| - i
  {
    if i == |s| {
    } else if IsSpace(s[i]) {
      WordsFromTokens(s, i + 1);
    } else {
      var j := TokenEnd(s, i);
      WordsFromTokens(s, j);
      assert WordsFrom(s, i) == [s[i..j]] + WordsFrom(s, j);
      assert !IsSpace(s[i..j][0]);
    }
  }

  /** Every word that `split()` returns is non-empty and free of whitespace. */
  lemma SplitTokens(s: string)
    ensures forall w :: w in Split(s) ==> w != [] && forall k :: 0 <= k < |w| ==> !IsSpace(w[k])
  {
    WordsFromTokens(s, 0);
  }

  /** Inside a token no position starts a word. */
  lemma {:induction false} NoStartsInsideToken(s: string, i: nat, j: nat)
    requires 0 < i <= j <= |s|
    requires forall k :: i - 1 <= k < j ==> !IsSpace(s[k])
    ensures WordStartsFrom(s, i) == WordStartsFrom(s, j)
    decreases j - i
  {
    if i < j {
      assert !IsWordStart(s, i);
      NoStartsInsideToken(s, i + 1, j);
    }
  }

  lemma {:induction false} WordsFromCountsStarts(s: string, i: nat)
    requires i <= |s|
    requires i == 0 || i == |s| || IsSpace(s[i - 1]) || IsSpace(s[i])
    ensures |WordsFrom(s, i)| == WordStartsFrom(s, i)
    decreases |s| - i
  {
    if i == |s| {
    } else if IsSpace(s[i]) {
      WordsFromCountsStarts(s, i + 1);
    } else {
      var j := TokenEnd(s, i);
      assert IsWordStart(s, i);
      NoStartsInsideToken(s, i + 1, j);
      WordsFromCountsStarts(s, j);
    }
  }

  /** The number of words `split()` returns is the number of positions where a word starts. */
  lemma WordCountIsWordStarts(s: string)
    ensures WordCount(s) == WordStartsFrom(s, 0)
  {
    WordsFromCountsStarts(s, 0);
  }

  /** A string without whitespace characters has no words. */
  lemma {:induction false} BlankHasNoWords(s: string, i: nat)
    requires i <= |s|
    requires forall k :: i <= k < |s| ==> IsSpace(s[k])
    ensures WordsFrom(s, i) == []
    decreases |s| - i
  {
    if i < |s| {
      BlankHasNoWords(s, i + 1);
    }
  }

  // ---------------------------------------------------------------------
  // str.strip(), str.lstrip(chars)

  /** The first position at or after `i` that is not whitespace, or `|s|`. */
  function SkipSpaces(s: string, i: nat): (j: nat)
    requires i <= |s|
    ensures i <= j <= |s|
    ensures forall k :: i <= k < j ==> IsSpace(s[k])
    ensures j == |s| || !IsSpace(s[j])
    decreases |s| - i
  {
    if i == |s| || !IsSpace(s[i]) then i else SkipSpaces(s, i + 1)
  }

  /** Where `s[lo..j]` ends once its trailing whitespace is dropped. */
  function TrimEnd(s: string, lo: nat, j: nat): (k: nat)
    requires lo <= j <= |s|
    ensures lo <= k <= j
    ensures forall m :: k <= m < j ==> IsSpace(s[m])
    ensures k == lo || !IsSpace(s[k - 1])
    decreases j
  {
    if j == lo || !IsSpace(s[j - 1]) then j else TrimEnd(s, lo, j - 1)
  }

  /** `s.strip()`: drops leading and trailing whitespace. */
  function Strip(s: string): string
  {
    var a := SkipSpaces(s, 0);
    s[a..TrimEnd(s, a, |s|)]
  }

  /** What `strip()` returns is the piece of `s` that starts after its leading
      whitespace, only whitespace follows it, and it neither starts nor ends
      with whitespace. */
  lemma StripSpec(s: string)
    ensures var r, a := Strip(s), SkipSpaces(s, 0);
      a + |r| <= |s| && r == s[a..a + |r|]
      && (forall i :: 0 <= i < a ==> IsSpace(s[i]))
      && (forall i :: a + |r| <= i < |s| ==> IsSpace(s[i]))
      && (r == [] || (!IsSpace(r[0]) && !IsSpace(r[|r| - 1])))
  {
    var a := SkipSpaces(s, 0);
    var b := TrimEnd(s, a, |s|);
    var r := s[a..b];
    assert r == Strip(s);
    if r != [] {
      assert r[0] == s[a] && r[|r| - 1] == s[b - 1];
    }
  }

  /** `s.strip()` is empty exactly when `s` is all whitespace. */
  lemma StripEmptyIffBlank(s: string)
    ensures Strip(s) == [] <==> Blank(s)
  {
    StripSpec(s);
    if !Blank(s) {
      var r, a := Strip(s), SkipSpaces(s, 0);
      var k :| 0 <= k < |s| && !IsSpace(s[k]);
      assert a <= k < a + |r|;
    }
  }

  /** Stripping twice is stripping once. */
  lemma StripIdempotent(s: string)
    ensures Strip(Strip(s)) == Strip(s)
  {
    var r := Strip(s);
    StripSpec(s);
    if r != [] {
      NoSpaceEndsStrip(r);
    }
  }

  /** `s.lstrip(c)`: drops every leading occurrence of the character `c`. */
  function LStripChar(s: string, c: char): (r: string)
    ensures |r| <= |s| && r == s[|s| - |r|..]
    ensures forall i :: 0 <= i < |s| - |r| ==> s[i] == c
    ensures r == [] || r[0] != c
  {
    if s != [] && s[0] == c then LStripChar(s[1..], c) else s
  }

  // ---------------------------------------------------------------------
  // str.join

  /** `sep.join(parts)`. */
  function Join(sep: string, parts: seq<string>): string
  {
    if parts == [] then []
    else if |parts| == 1 then parts[0]
    else parts[0] + sep + Join(sep, parts[1..])
  }

  function TotalLength(parts: seq<string>): nat
  {
    if parts == [] then 0 else |parts[0]| + TotalLength(parts[1..])
  }

  /** The joined string holds every part and one separator between each two. */
  lemma {:induction false} JoinLength(sep: string, parts: seq<string>)
    ensures |Join(sep, parts)| == TotalLength(parts) + if parts == [] then 0 else |sep| * (|parts| - 1)
  {
    if |parts| > 1 {
      JoinLength(sep, parts[1..]);
    }
  }

  /** Joining two non-empty lists is joining each and putting one separator between. */
  lemma {:induction false} JoinAppend(sep: string, a: seq<string>, b: seq<string>)
    requires a != [] && b != []
    ensures Join(sep, a + b) == Join(sep, a) + sep + Join(sep, b)
  {
    if |a| == 1 {
      assert a + b == [a[0]] + b;
    } else {
      assert (a + b)[1..] == a[1..] + b;
      JoinAppend(sep, a[1..], b);
    }
  }

  // ---------------------------------------------------------------------
  // str.splitlines()

  /** The characters `splitlines()` breaks at, within the code points below 0x2100
      plus the two Unicode separators. */
  predicate IsLineBreak(c: char)
  {
    c == '\n' || c == '\r' || c == '\U{0B}' || c == '\U{0C}'
    || ('\U{1C}' <= c <= '\U{1E}') || c == '\U{85}' || c == '\U{2028}' || c == '\U{2029}'
  }

  /** The first line break at or after `i`, or `|s|`. */
  function LineEnd(s: string, i: nat): (k: nat)
    requires i <= |s|
    ensures i <= k <= |s|
    ensures forall j :: i <= j < k ==> !IsLineBreak(s[j])
    ensures k == |s| || IsLineBreak(s[k])
    decreases |s| - i
  {
    if i == |s| || IsLineBreak(s[i]) then i else LineEnd(s, i + 1)
  }

  /** `s.splitlines()`: `\r\n` is one break, and a final break adds no empty line. */
  function SplitLines(s: string): (lines: seq<string>)
    decreases |s|
  {
    if s == [] then []
    else
      var k := LineEnd(s, 0);
      if k == |s| then [s]
      else
        var next := if s[k] == '\r' && k + 1 < |s| && s[k + 1] == '\n' then k + 2 else k + 1;
        [s[..k]] + SplitLines(s[next..])
  }

  /** No line that `splitlines()` returns holds a line break. */
  lemma {:induction false} SplitLinesHaveNoBreaks(s: string)
    ensures forall l :: l in SplitLines(s) ==> forall j :: 0 <= j < |l| ==> !IsLineBreak(l[j])
    decreases |s|
  {
    if s != [] {
      var k := LineEnd(s, 0);
      if k < |s| {
        var next := if s[k] == '\r' && k + 1 < |s| && s[k + 1] == '\n' then k + 2 else k + 1;
        SplitLinesHaveNoBreaks(s[next..]);
        assert SplitLines(s) == [s[..k]] + SplitLines(s[next..]);
      }
    }
  }

  // ---------------------------------------------------------------------
  // Case

  /** `c.lower()` on ASCII letters; every other character is unchanged. */
  function ToLower(c: char): (d: char)
    ensures IsUpper(c) ==> IsLower(d) && d as int == c as int + 32
    ensures !IsUpper(c) ==> d == c
  {
    if IsUpper(c) then (c as int + 32) as char else c
  }

  // ---------------------------------------------------------------------
  // int(s) and str(n)

  /** The numeral part `int` accepts in base 10: digits, where a single `_`
      may stand between two digits (`1_000`), starting with a digit. */
  predicate DigitGroups(s: string)
  {
    s != [] && IsDigit(s[0])
    && forall i :: 0 <= i < |s| ==> IsDigit(s[i]) || (s[i] == '_' && i + 1 < |s| && IsDigit(s[i + 1]))
  }

  function DigitValue(c: char): nat
    requires IsDigit(c)
  {
    c as int - '0' as int
  }

  /** The value of a numeral, reading its digits left to right and skipping `_`. */
  function DigitsValue(s: string): nat
  {
    if s == [] then 0
    else if IsDigit(s[|s| - 1]) then 10 * DigitsValue(s[..|s| - 1]) + DigitValue(s[|s| - 1])
    else DigitsValue(s[..|s| - 1])
  }

  /** `int(s)`: surrounding whitespace is ignored, an optional sign may lead,
      and the rest must be a numeral; `None` where `int` raises `ValueError`. */
  function ParseInt(s: string): (r: Option<int>)
  {
    var t := Strip(s);
    if t != [] && (t[0] == '+' || t[0] == '-') then
      if DigitGroups(t[1..]) then
        Some(if t[0] == '-' then -(DigitsValue(t[1..]) as int) else DigitsValue(t[1..]))
      else None
    else if DigitGroups(t) then Some(DigitsValue(t))
    else None
  }

  function DigitChar(d: nat): (c: char)
    requires d < 10
    ensures IsDigit(c) && DigitValue(c) == d
  {
    ('0' as int + d) as char
  }

  /** `str(n)` for `n >= 0`: its decimal digits, without leading zeros. */
  function NatToString(n: nat): (s: string)
    ensures s != [] && forall i :: 0 <= i < |s| ==> IsDigit(s[i])
    decreases n
  {
    if n < 10 then [DigitChar(n)] else NatToString(n / 10) + [DigitChar(n % 10)]
  }

  /** `str(n)`: a `-` before the digits of a negative number. */
  function IntToString(n: int): string
  {
    if n < 0 then "-" + NatToString(-n) else NatToString(n)
  }

  lemma {:induction false} NatToStringValue(n: nat)
    ensures DigitsValue(NatToString(n)) == n
    decreases n
  {
    var s := NatToString(n);
    if n >= 10 {
      NatToStringValue(n / 10);
      assert s[..|s| - 1] == NatToString(n / 10);
    } else {
      assert s[..|s| - 1] == [];
    }
  }

  lemma NoSpaceEndsStrip(s: string)
    requires s != [] && !IsSpace(s[0]) && !IsSpace(s[|s| - 1])
    ensures Strip(s) == s
  {
    assert SkipSpaces(s, 0) == 0;
    assert TrimEnd(s, 0, |s|) == |s|;
  }

  /** `int(str(n)) == n`: reading back a printed integer gives it again. */
  lemma ParseIntOfString(n: int)
    ensures ParseInt(IntToString(n)) == Some(n)
  {
    var s := IntToString(n);
    var digits := if n < 0 then NatToString(-n) else NatToString(n);
    NoSpaceEndsStrip(s);
    NatToStringValue(if n < 0 then -n else n);
    if n < 0 {
      assert s[1..] == digits;
    }
    assert DigitGroups(digits);
  }
}
