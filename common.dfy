/** Value types shared by every analyser: optional values, results with the
    exception kinds the analysers raise, and the int-or-float numbers that
    statistics return. */
module Common {

  datatype Option<+T> = None | Some(value: T)

  /** The exception classes raised by the analysers' constructors and queries. */
  datatype Error =
    | FileNotFoundError
    | NotADirectoryError
    | ValueError
    | TypeError
    | RuntimeError
      /** An `OSError` other than a missing file: `IsADirectoryError`,
          `PermissionError`, ... */
    | OSError

  /** A computation that either returns a value or raises one of the errors above. */
  datatype Result<+T> = Ok(value: T) | Err(error: Error)

  /** A Python number as the statistics return it: an `int` (the empty-list
      0 and totals) or a `float` (means and medians, exact here). */
  datatype Number = Int(i: int) | Real(r: real)
  {
    /** The value as a real number, as Python compares `0 == 0.0`. */
    function ToReal(): real
    {
      match this
      case Int(i) => i as real
      case Real(r) => r
    }
  }

  /** The concatenation of `f(x)` for each `x` of `xs`, in order: a list
      comprehension that keeps, drops or transforms each element. */
  function FlatMap<T, U>(f: T -> seq<U>, xs: seq<T>): seq<U>
  {
    if xs == [] then [] else f(xs[0]) + FlatMap(f, xs[1..])
  }

  lemma {:induction false} FlatMapAppend<T, U>(f: T -> seq<U>, a: seq<T>, b: seq<T>)
    ensures FlatMap(f, a + b) == FlatMap(f, a) + FlatMap(f, b)
  {
    if a == [] {
      assert a + b == b;
    } else {
      assert (a + b)[0] == a[0];
      assert (a + b)[1..] == a[1..] + b;
      FlatMapAppend(f, a[1..], b);
    }
  }

  lemma FlatMapSnoc<T, U>(f: T -> seq<U>, xs: seq<T>, k: nat)
    requires k < |xs|
    ensures FlatMap(f, xs[..k + 1]) == FlatMap(f, xs[..k]) + f(xs[k])
  {
    assert xs[..k + 1] == xs[..k] + [xs[k]];
    FlatMapAppend(f, xs[..k], [xs[k]]);
    assert FlatMap(f, [xs[k]]) == f(xs[k]) + FlatMap(f, []);
  }

  /** Every output comes from some input. */
  lemma {:induction false} FlatMapMember<T, U>(f: T -> seq<U>, xs: seq<T>, y: U)
    requires y in FlatMap(f, xs)
    ensures exists i :: 0 <= i < |xs| && y in f(xs[i])
  {
    if y !in f(xs[0]) {
      FlatMapMember(f, xs[1..], y);
      var i :| 0 <= i < |xs[1..]| && y in f(xs[1..][i]);
      assert y in f(xs[i + 1]);
    }
  }

  /** When each input gives at most one output, there are at most as many
      outputs as inputs. */
  lemma {:induction false} FlatMapAtMostOne<T, U>(f: T -> seq<U>, xs: seq<T>)
    requires forall x :: |f(x)| <= 1
    ensures |FlatMap(f, xs)| <= |xs|
  {
    if xs != [] {
      FlatMapAtMostOne(f, xs[1..]);
    }
  }

  /** Some element has property `p`, looking from the first on. */
  predicate AnyOf<T>(p: T -> bool, xs: seq<T>)
  {
    xs != [] && (p(xs[0]) || AnyOf(p, xs[1..]))
  }

  lemma {:induction false} AnyOfSpec<T>(p: T -> bool, xs: seq<T>)
    ensures AnyOf(p, xs) <==> exists i :: 0 <= i < |xs| && p(xs[i])
  {
    if xs != [] {
      AnyOfSpec(p, xs[1..]);
      if exists i :: 0 <= i < |xs| && p(xs[i]) {
        var i :| 0 <= i < |xs| && p(xs[i]);
        if i > 0 {
          assert xs[1..][i - 1] == xs[i];
        }
      }
      if AnyOf(p, xs[1..]) {
        var i :| 0 <= i < |xs[1..]| && p(xs[1..][i]);
        assert xs[i + 1] == xs[1..][i];
      }
    }
  }

  /** The first of `xs` occurs in `ys` when `xs` is a sub-multiset of `ys`;
      removing both occurrences keeps the inclusion (and the equality). */
  lemma MatchFirst<T>(xs: seq<T>, ys: seq<T>) returns (k: nat)
    requires xs != [] && multiset(xs) <= multiset(ys)
    ensures k < |ys| && ys[k] == xs[0]
    ensures multiset(xs[1..]) <= multiset(ys[..k] + ys[k + 1..])
    ensures multiset(xs) == multiset(ys) ==> multiset(xs[1..]) == multiset(ys[..k] + ys[k + 1..])
  {
    var x := xs[0];
    assert x in multiset(xs);
    k :| 0 <= k < |ys| && ys[k] == x;
    var rest := ys[..k] + ys[k + 1..];
    assert ys == ys[..k] + [x] + ys[k + 1..];
    assert multiset(ys) == multiset(ys[..k]) + multiset{x} + multiset(ys[k + 1..]);
    assert multiset(rest) == multiset(ys[..k]) + multiset(ys[k + 1..]);
    assert xs == [x] + xs[1..];
    assert multiset(xs[1..]) == multiset(xs) - multiset{x};
  }
}
