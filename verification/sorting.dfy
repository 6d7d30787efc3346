/**
 * `ORDER BY ... [LIMIT n]` over the rows of a grouped query. SQLite leaves
 * the order of rows that compare equal unspecified, so the contracts speak
 * only of what every admissible order shares: the result is a permutation of
 * the input (a sub-multiset under LIMIT) and is sorted by the comparison.
 */
module Sorting {
  /** `le` is total and transitive: an ORDER BY key. */
  ghost predicate TotalPreorder<T(!new)>(le: (T, T) -> bool)
  {
    && (forall a, b :: le(a, b) || le(b, a))
    && (forall a, b, c :: le(a, b) && le(b, c) ==> le(a, c))
  }

  predicate SortedBy<T>(xs: seq<T>, le: (T, T) -> bool)
  {
    forall i, j :: 0 <= i < j < |xs| ==> le(xs[i], xs[j])
  }

  /** Inserts `x` before the first element it does not follow. */
  function InsertBy<T>(x: T, xs: seq<T>, le: (T, T) -> bool): (r: seq<T>)
    ensures multiset(r) == multiset(xs) + multiset{x}
  {
    if |xs| == 0 || le(x, xs[0]) then [x] + xs
    else
      assert xs == [xs[0]] + xs[1..];
      [xs[0]] + InsertBy(x, xs[1..], le)
  }

  /** The rows in the order `le` prescribes. */
  function SortBy<T>(xs: seq<T>, le: (T, T) -> bool): (r: seq<T>)
    ensures multiset(r) == multiset(xs)
  {
    if |xs| == 0 then []
    else
      assert xs == [xs[0]] + xs[1..];
      InsertBy(xs[0], SortBy(xs[1..], le), le)
  }

  lemma {:induction false} InsertSorted<T(!new)>(x: T, xs: seq<T>, le: (T, T) -> bool)
    requires TotalPreorder(le) && SortedBy(xs, le)
    ensures SortedBy(InsertBy(x, xs, le), le)
  {
    if |xs| > 0 && !le(x, xs[0]) {
      var rest := InsertBy(x, xs[1..], le);
      InsertSorted(x, xs[1..], le);
      assert le(xs[0], x);
      forall j | 0 <= j < |rest|
        ensures le(xs[0], rest[j])
      {
        assert rest[j] in multiset(rest);
        if rest[j] != x {
          assert rest[j] in multiset(xs[1..]);
          var m :| 0 <= m < |xs[1..]| && xs[1..][m] == rest[j];
          assert xs[m + 1] == rest[j];
        }
      }
      var r := [xs[0]] + rest;
      forall i, j | 0 <= i < j < |r|
        ensures le(r[i], r[j])
      {
        if i > 0 {
          assert r[i] == rest[i - 1] && r[j] == rest[j - 1];
        }
      }
    }
  }

  /** ORDER BY: the sort is a permutation of its input, in order. */
  lemma {:induction false} SortSorted<T(!new)>(xs: seq<T>, le: (T, T) -> bool)
    requires TotalPreorder(le)
    ensures SortedBy(SortBy(xs, le), le)
  {
    if |xs| > 0 {
      SortSorted(xs[1..], le);
      InsertSorted(xs[0], SortBy(xs[1..], le), le);
    }
  }

  function Min(a: nat, b: nat): nat
  {
    if a < b then a else b
  }

  /** ORDER BY ... LIMIT n: the first `n` rows of the sorted result. */
  function TopBy<T>(xs: seq<T>, le: (T, T) -> bool, n: nat): (r: seq<T>)
    ensures |r| == Min(|xs|, n)
    ensures multiset(r) <= multiset(xs)
  {
    var s := SortBy(xs, le);
    assert |s| == |multiset(s)| == |multiset(xs)| == |xs|;
    assert s == s[..Min(|xs|, n)] + s[Min(|xs|, n)..];
    s[..Min(|xs|, n)]
  }

  /** In a sorted sequence every element of a prefix precedes every element after it. */
  lemma SortedSplit<T>(s: seq<T>, k: nat, le: (T, T) -> bool)
    requires SortedBy(s, le) && k <= |s|
    ensures SortedBy(s[..k], le)
    ensures forall x, y :: x in s[..k] && y in multiset(s[k..]) ==> le(x, y)
  {
    forall x, y | x in s[..k] && y in multiset(s[k..])
      ensures le(x, y)
    {
      var i :| 0 <= i < k && s[..k][i] == x;
      assert y in s[k..];
      var j :| 0 <= j < |s[k..]| && s[k..][j] == y;
      assert s[i] == x && s[k + j] == y;
    }
  }

  /**
   * The rows LIMIT keeps are in order, and none of them follows a row it
   * drops: every kept row precedes-or-ties every dropped one.
   */
  lemma TopByOrder<T(!new)>(xs: seq<T>, le: (T, T) -> bool, n: nat)
    requires TotalPreorder(le)
    ensures SortedBy(TopBy(xs, le, n), le)
    ensures forall x, y :: x in TopBy(xs, le, n) && y in multiset(xs) - multiset(TopBy(xs, le, n)) ==> le(x, y)
  {
    hide TotalPreorder;
    var s := SortBy(xs, le);
    var k := Min(|xs|, n);
    assert |s| == |multiset(s)| == |multiset(xs)| == |xs|;
    SortSorted(xs, le);
    SortedSplit(s, k, le);
    assert s == s[..k] + s[k..];
    assert multiset(xs) - multiset(s[..k]) == multiset(s[k..]);
  }
}
