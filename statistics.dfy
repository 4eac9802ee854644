/** The reductions pandas performs on a list of integers: sum, arithmetic mean
    and median. Means and medians are exact rationals here, not floats. */
module Statistics {
  import opened Common

  function Sum(xs: seq<int>): int
  {
    if xs == [] then 0 else xs[0] + Sum(xs[1..])
  }

  lemma {:induction false} SumAppend(a: seq<int>, b: seq<int>)
    ensures Sum(a + b) == Sum(a) + Sum(b)
  {
    if a == [] {
      assert a + b == b;
    } else {
      assert (a + b)[0] == a[0];
      assert (a + b)[1..] == a[1..] + b;
      SumAppend(a[1..], b);
    }
  }

  /** All values of `xs` lie between `lo` and `hi`. */
  predicate Within(xs: seq<int>, lo: int, hi: int)
  {
    forall i :: 0 <= i < |xs| ==> lo <= xs[i] <= hi
  }

  lemma {:induction false} SumWithin(xs: seq<int>, lo: int, hi: int)
    requires Within(xs, lo, hi)
    ensures lo * |xs| <= Sum(xs) <= hi * |xs|
  {
    if xs != [] {
      SumWithin(xs[1..], lo, hi);
      assert lo * |xs| == lo + lo * |xs[1..]|;
      assert hi * |xs| == hi + hi * |xs[1..]|;
    }
  }

  // ---------------------------------------------------------------------
  // Sorting (what pandas does before taking a median)

  predicate IsSorted(xs: seq<int>)
  {
    forall i, j :: 0 <= i < j < |xs| ==> xs[i] <= xs[j]
  }

  function Insert(x: int, ys: seq<int>): (r: seq<int>)
    requires IsSorted(ys)
    ensures IsSorted(r)
    ensures multiset(r) == multiset(ys) + multiset{x}
    ensures r[0] == x || (ys != [] && r[0] == ys[0])
  {
    if ys == [] then [x]
    else if x <= ys[0] then [x] + ys
    else
      SortedTail(ys);
      var t := Insert(x, ys[1..]);
      SortedCons(ys[0], t);
      [ys[0]] + t
  }

  lemma SortedTail(ys: seq<int>)
    requires IsSorted(ys) && ys != []
    ensures IsSorted(ys[1..]) && ys == [ys[0]] + ys[1..]
    ensures |ys| > 1 ==> ys[0] <= ys[1..][0]
  {
  }

  /** A value no larger than the first of sorted values can go in front. */
  lemma SortedCons(y: int, t: seq<int>)
    requires IsSorted(t) && t != [] && y <= t[0]
    ensures IsSorted([y] + t)
  {
    var r := [y] + t;
    forall i, j | 0 <= i < j < |r|
      ensures r[i] <= r[j]
    {
      if i == 0 {
        assert r[j] == t[j - 1] && t[0] <= t[j - 1];
      } else {
        assert r[i] == t[i - 1] && r[j] == t[j - 1];
      }
    }
  }

  /** Insertion sort: an ascending permutation of `xs`. */
  function Sort(xs: seq<int>): (r: seq<int>)
    ensures IsSorted(r)
    ensures multiset(r) == multiset(xs)
    ensures |r| == |xs|
  {
    if xs == [] then []
    else
      assert xs == [xs[0]] + xs[1..];
      var r := Insert(xs[0], Sort(xs[1..]));
      assert |multiset(r)| == |multiset(xs)|;
      r
  }

  // ---------------------------------------------------------------------
  // Mean and median

  /** `pd.Series(xs).mean()`. */
  function Mean(xs: seq<int>): real
    requires xs != []
  {
    Sum(xs) as real / |xs| as real
  }

  /** `pd.Series(xs).median()`: the middle of the sorted values, or the average
      of the two middle ones when there is an even number of values. */
  function Median(xs: seq<int>): real
    requires xs != []
  {
    Middle(Sort(xs))
  }

  /** The middle value of sorted values, or the average of the two middle ones. */
  function Middle(ys: seq<int>): real
    requires ys != []
  {
    var h := |ys| / 2;
    if |ys| % 2 == 1 then ys[h] as real else (ys[h - 1] + ys[h]) as real / 2.0
  }

  /** The mean times the number of values is the sum. */
  lemma MeanTimesCount(xs: seq<int>)
    requires xs != []
    ensures Mean(xs) * |xs| as real == Sum(xs) as real
  {
  }

  /** The mean lies between any lower and upper bound of the values. */
  lemma MeanWithin(xs: seq<int>, lo: int, hi: int)
    requires xs != [] && Within(xs, lo, hi)
    ensures lo as real <= Mean(xs) <= hi as real
  {
    SumWithin(xs, lo, hi);
    CastProduct(lo, |xs|);
    CastProduct(hi, |xs|);
    DivideBounds(Sum(xs) as real, |xs| as real, lo as real, hi as real);
  }

  lemma CastProduct(a: int, b: int)
    ensures (a * b) as real == a as real * b as real
  {
  }

  lemma DivideBounds(s: real, n: real, lo: real, hi: real)
    requires n > 0.0 && lo * n <= s <= hi * n
    ensures lo <= s / n <= hi
  {
    assert s / n * n == s;
  }

  /** Every value of a permutation of `xs` is a value of `xs`. */
  lemma PermutationWithin(xs: seq<int>, ys: seq<int>, lo: int, hi: int)
    requires multiset(xs) == multiset(ys) && Within(xs, lo, hi)
    ensures Within(ys, lo, hi)
  {
    forall i | 0 <= i < |ys|
      ensures lo <= ys[i] <= hi
    {
      assert ys[i] in multiset(ys);
      assert ys[i] in multiset(xs);
      var k :| 0 <= k < |xs| && xs[k] == ys[i];
    }
  }

  /** The median lies between any lower and upper bound of the values. */
  lemma MedianWithin(xs: seq<int>, lo: int, hi: int)
    requires xs != [] && Within(xs, lo, hi)
    ensures lo as real <= Median(xs) <= hi as real
  {
    var ys := Sort(xs);
    PermutationWithin(xs, ys, lo, hi);
  }

  /** With an odd number of values the median is one of them. */
  lemma MedianOddIsValue(xs: seq<int>)
    requires |xs| % 2 == 1
    ensures exists i :: 0 <= i < |xs| && xs[i] as real == Median(xs)
  {
    var ys := Sort(xs);
    var h := |ys| / 2;
    assert ys[h] in multiset(ys);
    assert ys[h] in multiset(xs);
    var k :| 0 <= k < |xs| && xs[k] == ys[h];
  }

  // ---------------------------------------------------------------------
  // Counting values below and above a threshold

  function Count(xs: seq<int>, p: int -> bool): nat
    ensures Count(xs, p) <= |xs|
  {
    if xs == [] then 0 else (if p(xs[0]) then 1 else 0) + Count(xs[1..], p)
  }

  /** The number of values strictly below `m`. */
  function CountBelow(xs: seq<int>, m: real): nat
  {
    Count(xs, x => x as real < m)
  }

  /** The number of values strictly above `m`. */
  function CountAbove(xs: seq<int>, m: real): nat
  {
    Count(xs, x => x as real > m)
  }

  lemma {:induction false} CountAppend(a: seq<int>, b: seq<int>, p: int -> bool)
    ensures Count(a + b, p) == Count(a, p) + Count(b, p)
  {
    if a == [] {
      assert a + b == b;
    } else {
      assert (a + b)[0] == a[0];
      assert (a + b)[1..] == a[1..] + b;
      CountAppend(a[1..], b, p);
    }
  }

  lemma {:induction false} CountNone(xs: seq<int>, p: int -> bool)
    requires forall i :: 0 <= i < |xs| ==> !p(xs[i])
    ensures Count(xs, p) == 0
  {
    if xs != [] {
      CountNone(xs[1..], p);
    }
  }

  /** Counting does not depend on the order of the values. */
  lemma {:induction false} CountPermutation(xs: seq<int>, ys: seq<int>, p: int -> bool)
    requires multiset(xs) == multiset(ys)
    ensures Count(xs, p) == Count(ys, p)
    decreases |xs|
  {
    if xs == [] {
      assert |ys| == |multiset(ys)| == 0;
    } else {
      var k := MatchFirst(xs, ys);
      CountPermutation(xs[1..], ys[..k] + ys[k + 1..], p);
      assert ys == ys[..k] + [xs[0]] + ys[k + 1..];
      CountAppend(ys[..k] + [xs[0]], ys[k + 1..], p);
      CountAppend(ys[..k], [xs[0]], p);
      CountAppend(ys[..k], ys[k + 1..], p);
    }
  }

  /** At most `h` values satisfy `p` when none from position `h` on does. */
  lemma CountOnlyBefore(ys: seq<int>, p: int -> bool, h: nat)
    requires h <= |ys|
    requires forall k :: h <= k < |ys| ==> !p(ys[k])
    ensures Count(ys, p) <= h
  {
    assert ys == ys[..h] + ys[h..];
    CountAppend(ys[..h], ys[h..], p);
    CountNone(ys[h..], p);
  }

  /** At most `|ys| - h` values satisfy `p` when none before position `h` does. */
  lemma CountOnlyFrom(ys: seq<int>, p: int -> bool, h: nat)
    requires h <= |ys|
    requires forall k :: 0 <= k < h ==> !p(ys[k])
    ensures Count(ys, p) <= |ys| - h
  {
    assert ys == ys[..h] + ys[h..];
    CountAppend(ys[..h], ys[h..], p);
    CountNone(ys[..h], p);
  }

  /** In sorted values, at most half lie strictly below the middle and at most
      half strictly above it. */
  lemma SortedHalves(ys: seq<int>)
    requires IsSorted(ys) && ys != []
    ensures 2 * CountBelow(ys, Middle(ys)) <= |ys|
    ensures 2 * CountAbove(ys, Middle(ys)) <= |ys|
  {
    var h := |ys| / 2;
    var m := Middle(ys);
    if |ys| % 2 == 1 {
      CountOnlyBefore(ys, x => x as real < m, h);
      CountOnlyFrom(ys, x => x as real > m, h + 1);
    } else {
      assert ys[h - 1] <= ys[h];
      CountOnlyBefore(ys, x => x as real < m, h);
      CountOnlyFrom(ys, x => x as real > m, h);
    }
  }

  /** The median splits the values in halves: at most half of them are below
      it and at most half are above it. */
  lemma MedianHalves(xs: seq<int>)
    requires xs != []
    ensures 2 * CountBelow(xs, Median(xs)) <= |xs|
    ensures 2 * CountAbove(xs, Median(xs)) <= |xs|
  {
    var ys := Sort(xs);
    CountsPermutation(xs, ys, Middle(ys));
    SortedHalves(ys);
  }

  /** Reordering the values changes neither how many lie below a threshold
      nor how many lie above it. */
  lemma CountsPermutation(xs: seq<int>, ys: seq<int>, m: real)
    requires multiset(xs) == multiset(ys)
    ensures CountBelow(xs, m) == CountBelow(ys, m)
    ensures CountAbove(xs, m) == CountAbove(ys, m)
  {
    CountPermutation(xs, ys, x => x as real < m);
    CountPermutation(xs, ys, x => x as real > m);
  }
}
