/** The analyser of a PDF file: its number of pages, the last page with a
    references heading, and the number of words outside a set of ignored
    pages. Opening the file and extracting each page's text (PyMuPDF) is
    outside the model: a document is given as the text of each page, or as
    `None` when it cannot be opened. */
module Pdfs {
  import opened Common
  import opened Strings

  datatype Pdf = Pdf(
    /** The text `get_text()` gives for each page, first page first; `None`
        when `fitz.open` raises. */
    document: Option<seq<string>>)

  /** `PDF(path)`: only the existence of the file is checked. */
  function NewPdf(present: bool, document: Option<seq<string>>): (r: Result<Pdf>)
    ensures r.Ok? <==> present
    ensures r.Err? ==> r.error == FileNotFoundError
    ensures r.Ok? ==> r.value.document == document
  {
    if present then Ok(Pdf(document)) else Err(FileNotFoundError)
  }

  /** `n_pages`. */
  function NPages(pdf: Pdf): (r: Result<nat>)
    ensures r.Err? <==> pdf.document.None?
    ensures r.Err? ==> r.error == RuntimeError
    ensures r.Ok? ==> r.value == |pdf.document.value|
  {
    match pdf.document
    case None => Err(RuntimeError)
    case Some(pages) => Ok(|pages|)
  }

  // ---------------------------------------------------------------------
  // The references heading

  /** The headings recognised, lower-case; matching ignores case. */
  const Keywords: seq<string> := [
    "references", "reference", "referances", "bibliography", "works cited",
    "work cited", "literature cited", "sources", "citations"]

  predicate IsNumberChar(c: char) { IsDigit(c) || c == '.' }

  /** The section numbers `\d+(\.\d+)*\.?` accepts (`1`, `1.2`, `1.2.3.`):
      digits and dots, starting with a digit, never two dots in a row. */
  predicate IsSectionNumber(t: string)
  {
    t != [] && IsDigit(t[0])
    && (forall k :: 0 <= k < |t| ==> IsNumberChar(t[k]))
    && (forall k :: 0 <= k < |t| - 1 ==> !(t[k] == '.' && t[k + 1] == '.'))
  }

  /** Positions `i..j-1` of `s` are whitespace. */
  predicate BlankBetween(s: string, i: nat, j: nat)
    requires i <= j <= |s|
  {
    forall k :: i <= k < j ==> IsSpace(s[k])
  }

  /** The keyword `kw` occurs at `c`, ignoring the case of letters. */
  predicate KeywordAt(s: string, c: nat, kw: string)
  {
    c + |kw| <= |s| && forall k :: 0 <= k < |kw| ==> ToLower(s[c + k]) == kw[k]
  }

  // The heading pattern `^\s*(\d+(\.\d+)*\.?)?\s*(<keywords>)\s*:?\s*$`,
  // first as the language it describes, then as the scan that decides it.
  // (`$` may also match before a final newline, but a final newline can
  // always be taken by the `\s*` before it, so the two readings agree.)

  /** `s[..c]` is `\s*(\d+(\.\d+)*\.?)?\s*`. */
  ghost predicate PrefixUpTo(s: string, c: nat)
    requires c <= |s|
  {
    exists a, b :: 0 <= a <= b <= c && BlankBetween(s, 0, a)
      && (a == b || IsSectionNumber(s[a..b])) && BlankBetween(s, b, c)
  }

  /** `s[d..]` is `\s*:?\s*`. */
  ghost predicate TailFrom(s: string, d: nat)
    requires d <= |s|
  {
    BlankBetween(s, d, |s|)
    || exists m :: d <= m < |s| && BlankBetween(s, d, m) && s[m] == ':' && BlankBetween(s, m + 1, |s|)
  }

  /** The whole of `s` matches the heading pattern with keyword group `kws`. */
  ghost predicate HeadingLanguage(s: string, kws: seq<string>)
  {
    exists c, kw :: 0 <= c <= |s| && kw in kws && KeywordAt(s, c, kw)
      && PrefixUpTo(s, c) && TailFrom(s, c + |kw|)
  }

  /** The end of the run of digits and dots that starts at `i`. */
  function NumberEnd(s: string, i: nat): (j: nat)
    requires i <= |s|
    ensures i <= j <= |s| && forall k :: i <= k < j ==> IsNumberChar(s[k])
    ensures j == |s| || !IsNumberChar(s[j])
    decreases |s| - i
  {
    if i == |s| || !IsNumberChar(s[i]) then i else NumberEnd(s, i + 1)
  }

  /** Where the keyword must start: after the leading whitespace, the section
      number if any, and the whitespace that follows it. */
  function KeywordStart(s: string): (c: nat)
    ensures c <= |s|
  {
    SkipSpaces(s, NumberEnd(s, SkipSpaces(s, 0)))
  }

  /** The part before the keyword is well formed: no section number, or one
      in the accepted form. */
  predicate PrefixMatch(s: string)
  {
    var a := SkipSpaces(s, 0);
    var b := NumberEnd(s, a);
    a == b || IsSectionNumber(s[a..b])
  }

  /** Only whitespace and at most one colon follow the keyword. */
  predicate TailMatch(s: string, d: nat)
    requires d <= |s|
  {
    var e := SkipSpaces(s, d);
    if e < |s| && s[e] == ':' then SkipSpaces(s, e + 1) == |s| else e == |s|
  }

  /** The keyword `kw` occurs at `c` and only the tail follows it. */
  predicate KeywordThenTail(s: string, c: nat, kw: string)
    requires c <= |s|
  {
    KeywordAt(s, c, kw) && TailMatch(s, c + |kw|)
  }

  /** One of `kws` occurs at `c` and only the tail follows it: the
      alternatives of the keyword group, tried in order. */
  predicate AnyKeywordAt(s: string, c: nat, kws: seq<string>)
    requires c <= |s|
  {
    kws != [] && (KeywordThenTail(s, c, kws[0]) || AnyKeywordAt(s, c, kws[1..]))
  }

  lemma {:induction false} AnyKeywordAtSpec(s: string, c: nat, kws: seq<string>)
    requires c <= |s|
    ensures AnyKeywordAt(s, c, kws) <==> exists kw :: kw in kws && KeywordThenTail(s, c, kw)
  {
    if kws != [] {
      AnyKeywordAtSpec(s, c, kws[1..]);
      if exists kw :: kw in kws && KeywordThenTail(s, c, kw) {
        var kw :| kw in kws && KeywordThenTail(s, c, kw);
        if kw != kws[0] {
          assert kw in kws[1..];
        }
      }
    }
  }

  /** `pattern.match(s)` succeeds, for the pattern with keyword group `kws`. */
  predicate HeadingMatchWith(s: string, kws: seq<string>)
  {
    PrefixMatch(s) && AnyKeywordAt(s, KeywordStart(s), kws)
  }

  /** `pattern.match(s)` succeeds. */
  predicate HeadingMatch(s: string)
  {
    HeadingMatchWith(s, Keywords)
  }

  /** Every keyword is a lower-case word. */
  predicate LowerWords(kws: seq<string>)
  {
    forall kw :: kw in kws ==> kw != [] && IsLower(kw[0])
  }

  lemma KeywordsAreLowerWords()
    ensures LowerWords(Keywords)
  {
  }

  /** A character whose lower-case form is a lower-case letter is a letter. */
  lemma LowerIsLetter(c: char)
    requires IsLower(ToLower(c))
    ensures IsLetter(c) && !IsSpace(c) && !IsNumberChar(c)
  {
  }

  /** The scan of the part before the keyword agrees with its language. */
  lemma PrefixDecided(s: string, c: nat)
    requires c < |s| && IsLetter(s[c])
    ensures PrefixUpTo(s, c) <==> c == KeywordStart(s) && PrefixMatch(s)
  {
    if PrefixUpTo(s, c) {
      var a, b :| 0 <= a <= b <= c && BlankBetween(s, 0, a)
        && (a == b || IsSectionNumber(s[a..b])) && BlankBetween(s, b, c);
      PrefixScanned(s, c, a, b);
    }
    if c == KeywordStart(s) && PrefixMatch(s) {
      var a := SkipSpaces(s, 0);
      var b := NumberEnd(s, a);
      assert 0 <= a <= b <= c && BlankBetween(s, 0, a)
        && (a == b || IsSectionNumber(s[a..b])) && BlankBetween(s, b, c);
    }
  }

  /** A split of `s[..c]` into leading blanks, a section number and blanks is
      the one the scan finds. */
  lemma PrefixScanned(s: string, c: nat, a: nat, b: nat)
    requires c < |s| && IsLetter(s[c])
    requires a <= b <= c && BlankBetween(s, 0, a) && BlankBetween(s, b, c)
    requires a == b || IsSectionNumber(s[a..b])
    ensures c == KeywordStart(s) && PrefixMatch(s)
  {
    if a < b {
      assert s[a] == s[a..b][0];
      assert SkipSpaces(s, 0) == a;
      forall k | a <= k < b
        ensures IsNumberChar(s[k])
      {
        assert s[k] == s[a..b][k - a];
      }
      assert b == |s| || !IsNumberChar(s[b]);
      assert NumberEnd(s, a) == b;
    } else {
      assert SkipSpaces(s, 0) == c;
      assert NumberEnd(s, c) == c;
    }
  }

  /** The scan of what follows the keyword agrees with its language. */
  lemma TailDecided(s: string, d: nat)
    requires d <= |s|
    ensures TailFrom(s, d) <==> TailMatch(s, d)
  {
    var e := SkipSpaces(s, d);
    if TailFrom(s, d) {
      if !BlankBetween(s, d, |s|) {
        var m :| d <= m < |s| && BlankBetween(s, d, m) && s[m] == ':' && BlankBetween(s, m + 1, |s|);
        assert e == m;
      } else {
        assert e == |s|;
      }
    }
    if TailMatch(s, d) && e < |s| && s[e] == ':' {
      assert BlankBetween(s, e + 1, |s|);
    }
  }

  /** The scan accepts exactly the strings the heading pattern describes. */
  lemma HeadingMatchSpec(s: string)
    ensures HeadingMatch(s) <==> HeadingLanguage(s, Keywords)
  {
    KeywordsAreLowerWords();
    ScanDecidesHeading(s, Keywords);
  }

  lemma ScanDecidesHeading(s: string, kws: seq<string>)
    requires LowerWords(kws)
    ensures HeadingMatchWith(s, kws) <==> HeadingLanguage(s, kws)
  {
    if HeadingMatchWith(s, kws) {
      ScanSound(s, kws);
    }
    if HeadingLanguage(s, kws) {
      ScanComplete(s, kws);
    }
  }

  lemma ScanSound(s: string, kws: seq<string>)
    requires LowerWords(kws) && HeadingMatchWith(s, kws)
    ensures HeadingLanguage(s, kws)
  {
    var c := KeywordStart(s);
    AnyKeywordAtSpec(s, c, kws);
    var kw :| kw in kws && KeywordThenTail(s, c, kw);
    ScanAgreesAt(s, kws, c, kw);
    assert kw in kws && KeywordAt(s, c, kw) && PrefixUpTo(s, c) && TailFrom(s, c + |kw|);
  }

  lemma ScanComplete(s: string, kws: seq<string>)
    requires LowerWords(kws) && HeadingLanguage(s, kws)
    ensures HeadingMatchWith(s, kws)
  {
    var c, kw :| 0 <= c <= |s| && kw in kws && KeywordAt(s, c, kw)
      && PrefixUpTo(s, c) && TailFrom(s, c + |kw|);
    ScanAgreesAt(s, kws, c, kw);
    assert KeywordThenTail(s, c, kw);
    AnyKeywordAtSpec(s, c, kws);
  }

  /** Around a keyword found at `c`, the scan and the language agree on
      what precedes it and on what follows it. */
  lemma ScanAgreesAt(s: string, kws: seq<string>, c: nat, kw: string)
    requires LowerWords(kws) && kw in kws && KeywordAt(s, c, kw)
    ensures PrefixUpTo(s, c) <==> c == KeywordStart(s) && PrefixMatch(s)
    ensures TailFrom(s, c + |kw|) <==> TailMatch(s, c + |kw|)
  {
    assert kw != [] && IsLower(kw[0]);
    assert ToLower(s[c + 0]) == kw[0];
    LowerIsLetter(s[c]);
    PrefixDecided(s, c);
    TailDecided(s, c + |kw|);
  }

  /** A bare keyword, in any case, is a heading. */
  lemma BareKeywordIsHeading()
    ensures HeadingMatch("References")
  {
    var s := "References";
    assert SkipSpaces(s, 0) == 0;
    assert NumberEnd(s, 0) == 0;
    assert KeywordStart(s) == 0;
    assert KeywordAt(s, 0, Keywords[0]);
    assert SkipSpaces(s, 10) == 10;
    assert TailMatch(s, 10);
  }

  /** A numbered heading with a colon is a heading. */
  lemma NumberedKeywordIsHeading(s: string)
    requires s == "7. Works Cited:"
    ensures HeadingMatch(s)
  {
    NumberedPrefix(s);
    NumberedKeyword(s);
    NumberedTail(s);
    assert KeywordThenTail(s, 3, Keywords[4]);
    AnyKeywordAtSpec(s, 3, Keywords);
    assert Keywords[4] in Keywords;
  }

  lemma NumberedPrefix(s: string)
    requires s == "7. Works Cited:"
    ensures KeywordStart(s) == 3 && PrefixMatch(s)
  {
    assert s[0] == '7' && s[1] == '.' && s[2] == ' ' && s[3] == 'W';
    assert SkipSpaces(s, 0) == 0;
    assert NumberEnd(s, 2) == 2;
    assert NumberEnd(s, 0) == 2;
    assert s[0..2] == "7.";
    assert SkipSpaces(s, 3) == 3;
    assert SkipSpaces(s, 2) == 3;
  }

  lemma NumberedKeyword(s: string)
    requires s == "7. Works Cited:"
    ensures KeywordAt(s, 3, Keywords[4])
  {
    assert s[3..14] == "Works Cited";
    forall k | 0 <= k < 11
      ensures ToLower(s[3 + k]) == Keywords[4][k]
    {
      assert s[3 + k] == s[3..14][k];
    }
  }

  lemma NumberedTail(s: string)
    requires s == "7. Works Cited:"
    ensures TailMatch(s, 14)
  {
    assert s[14] == ':' && |s| == 15;
    assert SkipSpaces(s, 14) == 14;
    assert SkipSpaces(s, 15) == 15;
  }

  /** The line, stripped, matches the heading pattern. */
  predicate IsHeadingLine(line: string)
  {
    HeadingMatch(Strip(line))
  }

  /** Some line is a heading line; `AnyOfSpec` states it as an existential. */
  predicate AnyHeadingLine(lines: seq<string>)
  {
    AnyOf(IsHeadingLine, lines)
  }

  /** Some line of the page's text is a heading line. */
  predicate HasHeading(text: string)
  {
    AnyHeadingLine(SplitLines(text))
  }

  /** The last of the first `n` pages whose text is non-empty and has
      property `p`, 1-indexed, found by looking at page `n` first and
      working back. */
  function LastPageWhere(p: string -> bool, pages: seq<string>, n: nat): Option<nat>
    requires n <= |pages|
  {
    if n == 0 then None
    else if pages[n - 1] != [] && p(pages[n - 1]) then Some(n)
    else LastPageWhere(p, pages, n - 1)
  }

  /** The page found is the largest page number among the first `n` whose
      text is non-empty and has `p`; none is found exactly when no page has. */
  lemma {:induction false} LastPageWhereSpec(p: string -> bool, pages: seq<string>, n: nat)
    requires n <= |pages|
    ensures var r := LastPageWhere(p, pages, n);
      (r.Some? ==> 1 <= r.value <= n && pages[r.value - 1] != [] && p(pages[r.value - 1]))
      && (r.Some? ==> forall i :: r.value <= i < n ==> pages[i] == [] || !p(pages[i]))
      && (r.None? <==> forall i :: 0 <= i < n ==> pages[i] == [] || !p(pages[i]))
  {
    if n > 0 {
      LastPageWhereSpec(p, pages, n - 1);
    }
  }

  /** An empty text has no lines, so no heading: skipping empty pages changes nothing. */
  lemma EmptyPageHasNoHeading()
    ensures !HasHeading([])
  {
  }

  /** What `references_page()` returns. */
  function ReferencesPageOf(pdf: Pdf): Result<Option<nat>>
  {
    match pdf.document
    case None => Err(RuntimeError)
    case Some(pages) => Ok(LastPageWhere(HasHeading, pages, |pages|))
  }

  /** `references_page()`: pages are read from the last to the first; the
      first line found that is a heading gives its page. */
  method ReferencesPage(pdf: Pdf) returns (r: Result<Option<nat>>)
    ensures r == ReferencesPageOf(pdf)
  {
    if pdf.document.None? {
      return Err(RuntimeError);
    }
    var pages := pdf.document.value;
    var pageIdx := |pages| - 1;
    while pageIdx >= 0
      invariant -1 <= pageIdx < |pages|
      invariant LastPageWhere(HasHeading, pages, |pages|) == LastPageWhere(HasHeading, pages, pageIdx + 1)
    {
      var found := PageIsReferences(pages, pageIdx);
      if found {
        return Ok(Some(pageIdx + 1));
      }
      pageIdx := pageIdx - 1;
    }
    return Ok(None);
  }

  /** One step of the backward scan: page `pageIdx + 1` is the one found
      exactly when its text is non-empty and has a heading line. */
  method PageIsReferences(pages: seq<string>, pageIdx: nat) returns (found: bool)
    requires pageIdx < |pages|
    ensures found <==> LastPageWhere(HasHeading, pages, pageIdx + 1) == Some(pageIdx + 1)
    ensures !found ==> LastPageWhere(HasHeading, pages, pageIdx + 1) == LastPageWhere(HasHeading, pages, pageIdx)
  {
    LastPageWhereSpec(HasHeading, pages, pageIdx);
    var text := pages[pageIdx];
    if text == [] {
      return false;
    }
    found := PageHasHeading(text);
  }

  /** Whether one page's text has a heading line. */
  method PageHasHeading(text: string) returns (found: bool)
    ensures found == HasHeading(text)
  {
    var lines := SplitLines(text);
    found := FindHeadingLine(lines);
  }

  /** The scan of one page's lines, `true` at the first heading line. */
  method FindHeadingLine(lines: seq<string>) returns (found: bool)
    ensures found == AnyHeadingLine(lines)
  {
    for j := 0 to |lines|
      invariant AnyHeadingLine(lines) == AnyOf(IsHeadingLine, lines[j..])
    {
      assert lines[j..][1..] == lines[j + 1..];
      if IsHeadingLine(lines[j]) {
        return true;
      }
    }
    return false;
  }

  // ---------------------------------------------------------------------
  // Counting words

  /** The integers `lo..hi`, as `range(lo, hi + 1)` gives them. */
  function Range(lo: int, hi: int): (r: set<int>)
    ensures forall i :: i in r <==> lo <= i <= hi
    decreases hi - lo
  {
    if lo > hi then {} else {lo} + Range(lo + 1, hi)
  }

  /** An element of `ignore_pages`: an `int`, a `str`, or anything else. */
  datatype IgnoreEntry = PageNumber(n: int) | PageText(s: string) | OtherEntry

  /** The pages one entry ignores: an integer ignores that page, `">k"` the
      pages after `k` (which needs the page count), and any other entry is
      refused. */
  function EntryPages(pdf: Pdf, item: IgnoreEntry): Result<set<int>>
  {
    match item
    case PageNumber(n) => Ok({n})
    case PageText(s) =>
      if StartsWith(s, ">") then
        match ParseInt(s[1..])
        case None => Err(ValueError)
        case Some(k) =>
          (match NPages(pdf)
           case Err(e) => Err(e)
           case Ok(n) => Ok(Range(k + 1, n)))
      else Err(ValueError)
    case OtherEntry => Err(ValueError)
  }

  /** `">k"` ignores exactly the pages after `k`; an entry is refused with
      `ValueError` unless it is an integer or a `>` and an integer, and a
      `">k"` fails with `RuntimeError` only when the page count cannot be read. */
  lemma EntryPagesSpec(pdf: Pdf, item: IgnoreEntry)
    ensures item.PageNumber? ==> EntryPages(pdf, item) == Ok({item.n})
    ensures EntryPages(pdf, item) == Err(ValueError)
        <==> item.OtherEntry? || (item.PageText? && (!StartsWith(item.s, ">") || ParseInt(item.s[1..]).None?))
    ensures EntryPages(pdf, item) == Err(RuntimeError)
        <==> item.PageText? && StartsWith(item.s, ">") && ParseInt(item.s[1..]).Some? && pdf.document.None?
    ensures EntryPages(pdf, item).Ok? && item.PageText? ==>
      var k := ParseInt(item.s[1..]).value;
      forall i :: i in EntryPages(pdf, item).value <==> k + 1 <= i <= |pdf.document.value|
  {
  }

  /** The ignore set built from the entries in order; the first refused entry
      ends the construction. */
  function IgnoreSet(pdf: Pdf, items: seq<IgnoreEntry>): Result<set<int>>
  {
    if items == [] then Ok({})
    else
      match IgnoreSet(pdf, items[..|items| - 1])
      case Err(e) => Err(e)
      case Ok(ignored) =>
        match EntryPages(pdf, items[|items| - 1])
        case Err(e) => Err(e)
        case Ok(pages) => Ok(ignored + pages)
  }

  /** The words on those of the first `n` pages whose number is not ignored. */
  function PageWords(pages: seq<string>, ignore: set<int>, n: nat): nat
    requires n <= |pages|
  {
    if n == 0 then 0
    else PageWords(pages, ignore, n - 1) + (if n in ignore then 0 else WordCount(pages[n - 1]))
  }

  /** What `count_words(ignore_pages)` returns. */
  function CountWordsOf(pdf: Pdf, items: seq<IgnoreEntry>): Result<nat>
  {
    match IgnoreSet(pdf, items)
    case Err(e) => Err(e)
    case Ok(ignore) =>
      match pdf.document
      case None => Err(RuntimeError)
      case Some(pages) => Ok(PageWords(pages, ignore, |pages|))
  }

  /** `count_words(ignore_pages)`: builds the ignore set entry by entry, then
      adds up the words of every page not in it. */
  method CountWords(pdf: Pdf, items: seq<IgnoreEntry>) returns (r: Result<nat>)
    ensures r == CountWordsOf(pdf, items)
  {
    var ignoreSet := BuildIgnoreSet(pdf, items);
    if ignoreSet.Err? {
      return Err(ignoreSet.error);
    }
    if pdf.document.None? {
      return Err(RuntimeError);
    }
    var words := SumPageWords(pdf.document.value, ignoreSet.value);
    return Ok(words);
  }

  /** The loop over `ignore_pages` that fills `ignore_set`, stopping at the
      first entry that raises. */
  method BuildIgnoreSet(pdf: Pdf, items: seq<IgnoreEntry>) returns (r: Result<set<int>>)
    ensures r == IgnoreSet(pdf, items)
  {
    var ignoreSet: set<int> := {};
    for k := 0 to |items|
      invariant IgnoreSet(pdf, items[..k]) == Ok(ignoreSet)
    {
      IgnoreSetStep(pdf, items, k, ignoreSet);
      var item := items[k];
      match item {
        case PageNumber(n) =>
          ignoreSet := ignoreSet + {n};
        case PageText(s) =>
          if StartsWith(s, ">") {
            var after := ParseInt(s[1..]);
            if after.None? {
              IgnoreSetFirstError(pdf, items, k + 1);
              return Err(ValueError);
            }
            var nPages := NPages(pdf);
            if nPages.Err? {
              IgnoreSetFirstError(pdf, items, k + 1);
              return Err(RuntimeError);
            }
            ignoreSet := ignoreSet + Range(after.value + 1, nPages.value);
          } else {
            IgnoreSetFirstError(pdf, items, k + 1);
            return Err(ValueError);
          }
        case OtherEntry =>
          IgnoreSetFirstError(pdf, items, k + 1);
          return Err(ValueError);
      }
    }
    assert items[..|items|] == items;
    return Ok(ignoreSet);
  }

  /** The loop over the pages that adds up the words of those not ignored. */
  method SumPageWords(pages: seq<string>, ignoreSet: set<int>) returns (words: nat)
    ensures words == PageWords(pages, ignoreSet, |pages|)
  {
    words := 0;
    for pageNumber := 1 to |pages| + 1
      invariant words == PageWords(pages, ignoreSet, pageNumber - 1)
    {
      if pageNumber in ignoreSet {
        continue;
      }
      var text := pages[pageNumber - 1];
      if text != [] {
        words := words + |Split(text)|;
      }
    }
  }

  /** One more entry: its pages join the set, or its error ends the construction. */
  lemma IgnoreSetStep(pdf: Pdf, items: seq<IgnoreEntry>, k: nat, ignored: set<int>)
    requires k < |items| && IgnoreSet(pdf, items[..k]) == Ok(ignored)
    ensures IgnoreSet(pdf, items[..k + 1])
         == match EntryPages(pdf, items[k]) case Err(e) => Err(e) case Ok(pages) => Ok(ignored + pages)
  {
    assert items[..k + 1][..k] == items[..k];
    assert items[..k + 1][k] == items[k];
  }

  /** An error while building the set from a prefix is the error of the whole. */
  lemma {:induction false} IgnoreSetFirstError(pdf: Pdf, items: seq<IgnoreEntry>, k: nat)
    requires 0 < k <= |items| && IgnoreSet(pdf, items[..k]).Err?
    ensures IgnoreSet(pdf, items) == IgnoreSet(pdf, items[..k])
    decreases |items| - k
  {
    if k < |items| {
      assert items[..|items| - 1][..k] == items[..k];
      IgnoreSetFirstError(pdf, items[..|items| - 1], k);
    } else {
      assert items[..k] == items;
    }
  }

  /** A refused entry makes the whole construction fail. */
  lemma {:induction false} RefusedEntryFails(pdf: Pdf, items: seq<IgnoreEntry>, i: nat)
    requires i < |items| && EntryPages(pdf, items[i]).Err?
    ensures IgnoreSet(pdf, items).Err?
  {
    var prefix := items[..i + 1];
    assert prefix[..|prefix| - 1] == items[..i];
    assert prefix[|prefix| - 1] == items[i];
    assert IgnoreSet(pdf, prefix).Err?;
    IgnoreSetFirstError(pdf, items, i + 1);
  }

  /** Integer entries are ignored as given. */
  lemma {:induction false} PageNumbersIgnored(pdf: Pdf, items: seq<IgnoreEntry>)
    requires forall i :: 0 <= i < |items| ==> items[i].PageNumber?
    ensures IgnoreSet(pdf, items).Ok?
    ensures forall i :: 0 <= i < |items| ==> items[i].n in IgnoreSet(pdf, items).value
    ensures forall x :: x in IgnoreSet(pdf, items).value ==> exists i :: 0 <= i < |items| && items[i].n == x
  {
    if items != [] {
      var init := items[..|items| - 1];
      PageNumbersIgnored(pdf, init);
      forall x | x in IgnoreSet(pdf, items).value
        ensures exists i :: 0 <= i < |items| && items[i].n == x
      {
        if x in IgnoreSet(pdf, init).value {
          var i :| 0 <= i < |init| && init[i].n == x;
          assert items[i] == init[i];
        }
      }
    }
  }

  /** Ignoring more pages never increases the count. */
  lemma {:induction false} IgnoringMoreCountsLess(pages: seq<string>, a: set<int>, b: set<int>, n: nat)
    requires n <= |pages| && a <= b
    ensures PageWords(pages, b, n) <= PageWords(pages, a, n)
  {
    if n > 0 {
      IgnoringMoreCountsLess(pages, a, b, n - 1);
    }
  }

  /** Ignoring every page gives no words. */
  lemma {:induction false} IgnoringAllCountsNothing(pages: seq<string>, ignore: set<int>, n: nat)
    requires n <= |pages| && forall p :: 1 <= p <= n ==> p in ignore
    ensures PageWords(pages, ignore, n) == 0
  {
    if n > 0 {
      IgnoringAllCountsNothing(pages, ignore, n - 1);
    }
  }

  /** Ignoring one more page takes away exactly that page's words. */
  lemma {:induction false} IgnoringOnePage(pages: seq<string>, ignore: set<int>, p: nat, n: nat)
    requires n <= |pages| && 1 <= p <= n && p !in ignore
    ensures PageWords(pages, ignore + {p}, n) + WordCount(pages[p - 1]) == PageWords(pages, ignore, n)
  {
    if n > p {
      IgnoringOnePage(pages, ignore, p, n - 1);
    } else {
      IgnoringNothingMore(pages, ignore, ignore + {p}, n - 1);
    }
  }

  /** Pages beyond `n` do not affect the words of the first `n`. */
  lemma {:induction false} IgnoringNothingMore(pages: seq<string>, a: set<int>, b: set<int>, n: nat)
    requires n <= |pages| && forall p :: 1 <= p <= n ==> (p in a <==> p in b)
    ensures PageWords(pages, a, n) == PageWords(pages, b, n)
  {
    if n > 0 {
      IgnoringNothingMore(pages, a, b, n - 1);
    }
  }

  /** `count_words([">0"])` ignores every page. */
  lemma IgnoreAfterZero(pdf: Pdf)
    requires pdf.document.Some?
    ensures CountWordsOf(pdf, [PageText(">0")]) == Ok(0)
  {
    var pages := pdf.document.value;
    IgnoreAfterZeroSet(pdf);
    IgnoringAllCountsNothing(pages, Range(1, |pages|), |pages|);
  }

  /** `>0` names every page. */
  lemma IgnoreAfterZeroSet(pdf: Pdf)
    requires pdf.document.Some?
    ensures IgnoreSet(pdf, [PageText(">0")]) == Ok(Range(1, |pdf.document.value|))
  {
    var items := [PageText(">0")];
    var ignore := Range(1, |pdf.document.value|);
    AfterZeroEntry(pdf);
    assert items[..0] == [] && items[..1] == items;
    IgnoreSetStep(pdf, items, 0, {});
    assert {} + ignore == ignore;
  }

  lemma AfterZeroEntry(pdf: Pdf)
    requires pdf.document.Some?
    ensures EntryPages(pdf, PageText(">0")) == Ok(Range(1, |pdf.document.value|))
  {
    ParseIntOfString(0);
    assert IntToString(0) == "0";
    assert ">0"[1..] == "0";
    assert StartsWith(">0", ">");
  }
}
