/** Statistics over a list of text fragments (comments, docstrings, markdown):
    word, character, non-ASCII character and sentence counts per fragment,
    reduced to a total, a mean or a median. */
module TextStats {
  import opened Common
  import opened Strings
  import opened Statistics

  /** A collection of text fragments. */
  datatype TextAnalysis = TextAnalysis(texts: seq<string>)
  {
    /** The number of fragments. */
    function Len(): (n: nat)
      ensures n == 0 <==> texts == []
    {
      |texts|
    }
  }

  /** The reduction shared by every statistic: 0 (an integer) when there are no
      values; otherwise the integer sum when `total` is set, else the median
      (when `useMedian` is set) or the mean, as a float. */
  function Stat(values: seq<int>, total: bool, useMedian: bool): (r: Number)
    ensures r.Int? <==> values == [] || total
    ensures values == [] ==> r == Int(0)
    ensures values != [] && total ==> r == Int(Sum(values))
    ensures values != [] && !total && useMedian ==> r == Real(Median(values))
    ensures values != [] && !total && !useMedian ==> r.r * |values| as real == Sum(values) as real
  {
    if values == [] then Int(0)
    else if total then Int(Sum(values))
    else if useMedian then Real(Median(values))
    else
      MeanTimesCount(values);
      Real(Mean(values))
  }

  /** A mean or median lies between any bounds of the per-fragment values, and
      a total of non-negative values is non-negative. */
  lemma StatWithin(values: seq<int>, total: bool, useMedian: bool, lo: int, hi: int)
    requires Within(values, lo, hi)
    requires values != [] && !total
    ensures lo as real <= Stat(values, total, useMedian).r <= hi as real
  {
    if useMedian {
      MedianWithin(values, lo, hi);
    } else {
      MeanWithin(values, lo, hi);
    }
  }

  /** The statistics of a single fragment are its own value, whichever
      reduction is chosen. */
  lemma StatSingle(v: int, total: bool, useMedian: bool)
    ensures Stat([v], total, useMedian).ToReal() == v as real
  {
    if !total {
      StatWithin([v], total, useMedian, v, v);
    } else {
      assert Sum([v]) == v + Sum([]);
    }
  }

  // ---------------------------------------------------------------------
  // Words and characters

  function WordCounts(texts: seq<string>): (counts: seq<int>)
    ensures |counts| == |texts|
    ensures forall i :: 0 <= i < |texts| ==> counts[i] == |Split(texts[i])|
  {
    seq(|texts|, i requires 0 <= i < |texts| => WordCount(texts[i]))
  }

  function CharCounts(texts: seq<string>): (counts: seq<int>)
    ensures |counts| == |texts|
    ensures forall i :: 0 <= i < |texts| ==> counts[i] == |texts[i]|
  {
    seq(|texts|, i requires 0 <= i < |texts| => |texts[i]|)
  }

  /** Word count statistic: words are maximal runs of non-whitespace. */
  function NWords(ta: TextAnalysis, total: bool, useMedian: bool): (r: Number)
    ensures ta.texts == [] ==> r == Int(0)
    ensures ta.texts != [] && total ==> r == Int(Sum(WordCounts(ta.texts)))
  {
    Stat(WordCounts(ta.texts), total, useMedian)
  }

  /** Character count statistic. */
  function NChars(ta: TextAnalysis, total: bool, useMedian: bool): (r: Number)
    ensures ta.texts == [] ==> r == Int(0)
    ensures ta.texts != [] && total ==> r == Int(Sum(CharCounts(ta.texts)))
  {
    Stat(CharCounts(ta.texts), total, useMedian)
  }

  /** The total character count is the length of the concatenated fragments. */
  lemma {:induction false} TotalCharsIsConcatLength(texts: seq<string>)
    ensures Sum(CharCounts(texts)) == TotalLength(texts)
  {
    if texts != [] {
      assert CharCounts(texts) == [|texts[0]|] + CharCounts(texts[1..]);
      TotalCharsIsConcatLength(texts[1..]);
    }
  }

  // ---------------------------------------------------------------------
  // Non-ASCII characters

  /** The number of characters of `s` whose code point is above 127. */
  function NonAsciiCount(s: string): (n: nat)
    ensures n <= |s|
  {
    if s == [] then 0 else (if IsAscii(s[0]) then 0 else 1) + NonAsciiCount(s[1..])
  }

  /** A fragment has no non-ASCII character exactly when all of its characters
      are ASCII. */
  lemma {:induction false} NonAsciiZeroIffAscii(s: string)
    ensures NonAsciiCount(s) == 0 <==> forall i :: 0 <= i < |s| ==> IsAscii(s[i])
  {
    if s != [] {
      NonAsciiZeroIffAscii(s[1..]);
      assert forall i :: 1 <= i < |s| ==> s[i] == s[1..][i - 1];
    }
  }

  lemma {:induction false} NonAsciiAppend(a: string, b: string)
    ensures NonAsciiCount(a + b) == NonAsciiCount(a) + NonAsciiCount(b)
  {
    if a == [] {
      assert a + b == b;
    } else {
      assert (a + b)[0] == a[0];
      assert (a + b)[1..] == a[1..] + b;
      NonAsciiAppend(a[1..], b);
    }
  }

  function NonAsciiCounts(texts: seq<string>): (counts: seq<int>)
    ensures |counts| == |texts|
    ensures forall i :: 0 <= i < |texts| ==> 0 <= counts[i] <= |texts[i]|
  {
    seq(|texts|, i requires 0 <= i < |texts| => NonAsciiCount(texts[i]))
  }

  /** Non-ASCII character count statistic, one fragment at a time. */
  method NNonAscii(ta: TextAnalysis, total: bool, useMedian: bool) returns (r: Number)
    ensures r == Stat(NonAsciiCounts(ta.texts), total, useMedian)
  {
    var counts: seq<int> := [];
    for k := 0 to |ta.texts|
      invariant counts == NonAsciiCounts(ta.texts[..k])
    {
      counts := counts + [NonAsciiCount(ta.texts[k])];
    }
    assert ta.texts[..|ta.texts|] == ta.texts;
    r := Stat(counts, total, useMedian);
  }

  // ---------------------------------------------------------------------
  // Sentences: the matches of `[A-Z][^.!?]*[.!?]`, found left to right
  // without overlap

  predicate IsTerminator(c: char) { c == '.' || c == '!' || c == '?' }

  /** A single match of the sentence pattern: an upper-case ASCII letter, any
      characters but terminators (newlines included), and one terminator. */
  predicate IsSentence(t: string)
  {
    |t| >= 2 && IsUpper(t[0]) && IsTerminator(t[|t| - 1])
    && forall k :: 1 <= k < |t| - 1 ==> !IsTerminator(t[k])
  }

  /** The position of the first terminator at or after `i`, or `|s|`. */
  function FirstTerminator(s: string, i: nat): (j: nat)
    requires i <= |s|
    ensures i <= j <= |s|
    ensures j < |s| ==> IsTerminator(s[j])
    ensures forall k :: i <= k < j ==> !IsTerminator(s[k])
    decreases |s| - i
  {
    if i == |s| || IsTerminator(s[i]) then i else FirstTerminator(s, i + 1)
  }

  /** The spans `(start, end)` of the matches that a left-to-right scan from
      `pos` finds: at each position, a match is taken when the character is an
      upper-case letter and a terminator follows it somewhere; the greedy
      middle part then stops at the first such terminator. */
  function SentencesFrom(s: string, pos: nat): seq<(nat, nat)>
    requires pos <= |s|
    decreases |s| - pos
  {
    if pos == |s| then []
    else if IsUpper(s[pos]) && FirstTerminator(s, pos + 1) < |s| then
      var j := FirstTerminator(s, pos + 1);
      [(pos, j + 1)] + SentencesFrom(s, j + 1)
    else SentencesFrom(s, pos + 1)
  }

  /** `len(pattern.findall(s))`. */
  function SentenceCount(s: string): nat
  {
    |SentencesFrom(s, 0)|
  }

  /** The spans lie within `s`, the first at or after `pos` and each after the
      one before it, and every span is a sentence. */
  predicate SentenceSpans(s: string, pos: nat, spans: seq<(nat, nat)>)
    decreases |spans|
  {
    spans == []
    || (pos <= spans[0].0 < spans[0].1 <= |s| && IsSentence(s[spans[0].0..spans[0].1])
        && SentenceSpans(s, spans[0].1, spans[1..]))
  }

  /** Every span `findall` finds is a sentence; the spans lie after `pos`, in
      order and without overlap. */
  lemma {:induction false} SentencesAreMatches(s: string, pos: nat)
    requires pos <= |s|
    ensures SentenceSpans(s, pos, SentencesFrom(s, pos))
    decreases |s| - pos
  {
    if pos < |s| {
      if IsUpper(s[pos]) && FirstTerminator(s, pos + 1) < |s| {
        var j := FirstTerminator(s, pos + 1);
        SentencesAreMatches(s, j + 1);
        SentenceAt(s, pos);
        SentenceSpansCons(s, pos, j + 1, SentencesFrom(s, j + 1));
      } else {
        SentencesAreMatches(s, pos + 1);
        SentenceSpansLater(s, pos, SentencesFrom(s, pos + 1));
      }
    }
  }

  lemma SentenceSpansCons(s: string, a: nat, b: nat, rest: seq<(nat, nat)>)
    requires a < b <= |s| && IsSentence(s[a..b]) && SentenceSpans(s, b, rest)
    ensures SentenceSpans(s, a, [(a, b)] + rest)
  {
    assert ([(a, b)] + rest)[1..] == rest;
  }

  lemma SentenceSpansLater(s: string, pos: nat, spans: seq<(nat, nat)>)
    requires SentenceSpans(s, pos + 1, spans)
    ensures SentenceSpans(s, pos, spans)
  {
  }

  /** An upper-case letter up to the first terminator after it is a sentence. */
  lemma SentenceAt(s: string, pos: nat)
    requires pos < |s| && IsUpper(s[pos]) && FirstTerminator(s, pos + 1) < |s|
    ensures IsSentence(s[pos..FirstTerminator(s, pos + 1) + 1])
  {
    var t := s[pos..FirstTerminator(s, pos + 1) + 1];
    assert forall k :: 1 <= k < |t| - 1 ==> t[k] == s[pos + k];
  }

  /** Spelled out: every span is a sentence of `s` at or after `pos`, and each
      ends no later than the next starts. */
  lemma {:induction false} SentenceSpansSpec(s: string, pos: nat, spans: seq<(nat, nat)>)
    requires SentenceSpans(s, pos, spans)
    ensures forall m :: 0 <= m < |spans| ==>
      pos <= spans[m].0 < spans[m].1 <= |s| && IsSentence(s[spans[m].0..spans[m].1])
    ensures forall m :: 0 <= m < |spans| - 1 ==> spans[m].1 <= spans[m + 1].0
    decreases |spans|
  {
    if spans != [] {
      var rest := spans[1..];
      SentenceSpansSpec(s, spans[0].1, rest);
      assert forall m :: 1 <= m < |spans| ==> spans[m] == rest[m - 1];
    }
  }

  /** A one-pass reference count: walking the text, a terminator closes a
      sentence exactly when an upper-case letter was seen since the previous
      terminator (or since the start). */
  function SegmentCount(s: string, i: nat, seenUpper: bool): nat
    requires i <= |s|
    decreases |s| - i
  {
    if i == |s| then 0
    else if IsTerminator(s[i]) then (if seenUpper then 1 else 0) + SegmentCount(s, i + 1, false)
    else SegmentCount(s, i + 1, seenUpper || IsUpper(s[i]))
  }

  lemma {:induction false} NoTerminatorNoSentence(s: string, i: nat)
    requires i <= |s| && FirstTerminator(s, i) == |s|
    ensures SentencesFrom(s, i) == []
    ensures SegmentCount(s, i, true) == 0 && SegmentCount(s, i, false) == 0
    decreases |s| - i
  {
    if i < |s| {
      NoTerminatorNoSentence(s, i + 1);
    }
  }

  lemma {:induction false} SegmentCloses(s: string, i: nat)
    requires i <= |s| && FirstTerminator(s, i) < |s|
    ensures SegmentCount(s, i, true) == 1 + SegmentCount(s, FirstTerminator(s, i) + 1, false)
    decreases |s| - i
  {
    if !IsTerminator(s[i]) {
      SegmentCloses(s, i + 1);
    }
  }

  /** The left-to-right scan and the one-pass count agree. */
  lemma {:induction false} SentencesMatchSegments(s: string, pos: nat)
    requires pos <= |s|
    ensures |SentencesFrom(s, pos)| == SegmentCount(s, pos, false)
    decreases |s| - pos
  {
    if pos < |s| {
      if IsUpper(s[pos]) {
        var j := FirstTerminator(s, pos + 1);
        if j < |s| {
          SegmentCloses(s, pos + 1);
          SentencesMatchSegments(s, j + 1);
        } else {
          NoTerminatorNoSentence(s, pos + 1);
        }
      } else {
        SentencesMatchSegments(s, pos + 1);
      }
    }
  }

  /** The number of terminator characters in `s` from `i` on. */
  function TerminatorCount(s: string, i: nat): nat
    requires i <= |s|
    decreases |s| - i
  {
    if i == |s| then 0 else (if IsTerminator(s[i]) then 1 else 0) + TerminatorCount(s, i + 1)
  }

  lemma {:induction false} SegmentsAtMostTerminators(s: string, i: nat, seen: bool)
    requires i <= |s|
    ensures SegmentCount(s, i, seen) <= TerminatorCount(s, i)
    decreases |s| - i
  {
    if i < |s| {
      SegmentsAtMostTerminators(s, i + 1, false);
      SegmentsAtMostTerminators(s, i + 1, seen || IsUpper(s[i]));
    }
  }

  /** There are never more sentences than terminators. */
  lemma SentencesAtMostTerminators(s: string)
    ensures SentenceCount(s) <= TerminatorCount(s, 0)
  {
    SentencesMatchSegments(s, 0);
    SegmentsAtMostTerminators(s, 0, false);
  }

  /** Without an upper-case letter there is no sentence. */
  lemma {:induction false} NoUpperNoSentence(s: string, i: nat)
    requires i <= |s|
    requires forall k :: i <= k < |s| ==> !IsUpper(s[k])
    ensures SegmentCount(s, i, false) == 0
    decreases |s| - i
  {
    if i < |s| {
      NoUpperNoSentence(s, i + 1);
    }
  }

  function SentenceCounts(texts: seq<string>): (counts: seq<int>)
    ensures |counts| == |texts|
    ensures forall i :: 0 <= i < |texts| ==> counts[i] == SentenceCount(texts[i])
  {
    seq(|texts|, i requires 0 <= i < |texts| => SentenceCount(texts[i]))
  }

  /** Sentence count statistic, one fragment at a time. */
  method NSentences(ta: TextAnalysis, total: bool, useMedian: bool) returns (r: Number)
    ensures r == Stat(SentenceCounts(ta.texts), total, useMedian)
  {
    var counts: seq<int> := [];
    for k := 0 to |ta.texts|
      invariant counts == SentenceCounts(ta.texts[..k])
    {
      var found := SentencesFrom(ta.texts[k], 0);
      counts := counts + [|found|];
    }
    assert ta.texts[..|ta.texts|] == ta.texts;
    r := Stat(counts, total, useMedian);
  }
}
