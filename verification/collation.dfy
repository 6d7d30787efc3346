/**
 * SQLite's default BINARY collation on TEXT: strings compare by their
 * characters' code points, left to right, and a proper prefix sorts first
 * (comparing UTF-8 bytes with memcmp gives the same order as comparing code
 * points).
 */
module Collation {
  /** `a` sorts before or equal to `b`; a prefix of `b`, `a` itself included, does. */
  predicate StrLe(a: string, b: string)
    ensures a <= b ==> StrLe(a, b)
  {
    if |a| == 0 then true
    else if |b| == 0 then false
    else if a[0] != b[0] then a[0] < b[0]
    else StrLe(a[1..], b[1..])
  }

  lemma {:induction false} StrLeTotal(a: string, b: string)
    ensures StrLe(a, b) || StrLe(b, a)
  {
    if |a| > 0 && |b| > 0 && a[0] == b[0] {
      StrLeTotal(a[1..], b[1..]);
    }
  }

  lemma {:induction false} StrLeTransitive(a: string, b: string, c: string)
    ensures StrLe(a, b) && StrLe(b, c) ==> StrLe(a, c)
  {
    if |a| > 0 && |b| > 0 && |c| > 0 && a[0] == b[0] && b[0] == c[0] {
      StrLeTransitive(a[1..], b[1..], c[1..]);
    }
  }

  lemma {:induction false} StrLeAntisymmetric(a: string, b: string)
    ensures StrLe(a, b) && StrLe(b, a) ==> a == b
  {
    if |a| > 0 && |b| > 0 && a[0] == b[0] {
      StrLeAntisymmetric(a[1..], b[1..]);
      assert a == [a[0]] + a[1..] && b == [b[0]] + b[1..];
    }
  }

  /** At the first position where `a` and `b` differ, `a` holds the smaller character. */
  predicate SmallerAtFirstDifference(a: string, b: string)
  {
    exists k :: 0 <= k < |a| && k < |b| && a[..k] == b[..k] && a[k] < b[k]
  }

  lemma DifferentHeads(a: string, b: string)
    requires |a| > 0 && |b| > 0 && a[0] != b[0]
    ensures SmallerAtFirstDifference(a, b) <==> a[0] < b[0]
  {
    if a[0] < b[0] {
      assert a[..0] == b[..0];
    }
  }

  lemma EqualHeads(a: string, b: string)
    requires |a| > 0 && |b| > 0 && a[0] == b[0]
    ensures SmallerAtFirstDifference(a, b) <==> SmallerAtFirstDifference(a[1..], b[1..])
    ensures a <= b <==> a[1..] <= b[1..]
  {
    var a', b' := a[1..], b[1..];
    assert a == [a[0]] + a' && b == [b[0]] + b';
    if SmallerAtFirstDifference(a', b') {
      var k :| 0 <= k < |a'| && k < |b'| && a'[..k] == b'[..k] && a'[k] < b'[k];
      assert a[..k + 1] == [a[0]] + a'[..k] && b[..k + 1] == [b[0]] + b'[..k];
      assert a[k + 1] < b[k + 1];
    }
    if SmallerAtFirstDifference(a, b) {
      var k :| 0 <= k < |a| && k < |b| && a[..k] == b[..k] && a[k] < b[k];
      assert k > 0;
      assert a'[..k - 1] == a[..k][1..] && b'[..k - 1] == b[..k][1..];
      assert a'[k - 1] < b'[k - 1];
    }
  }

  /**
   * The order stated without recursion: `a` sorts no later than `b` exactly
   * when it is a prefix of `b`, or the first character where they differ is
   * smaller in `a`.
   */
  lemma {:induction false} StrLeFirstDifference(a: string, b: string)
    ensures StrLe(a, b) <==> a <= b || SmallerAtFirstDifference(a, b)
  {
    if |a| > 0 && |b| > 0 {
      if a[0] != b[0] {
        DifferentHeads(a, b);
      } else {
        EqualHeads(a, b);
        StrLeFirstDifference(a[1..], b[1..]);
      }
    }
  }

  /** A proper prefix sorts strictly first. */
  lemma {:induction false} PrefixFirst(a: string, b: string)
    requires a < b
    ensures StrLe(a, b) && !StrLe(b, a)
  {
    if |a| > 0 {
      assert a[1..] < b[1..];
      PrefixFirst(a[1..], b[1..]);
    }
  }
}
