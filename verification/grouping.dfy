/**
 * `GROUP BY key` with `SUM(value)` and `COUNT(*)` (and so `AVG(value)`) over
 * the rows a query selects, each row reduced to its grouping key and the
 * value it contributes.
 */
module Grouping {
  import opened Tables
  import opened Sorting

  /** One selected row: its grouping key and the value it contributes. */
  datatype Entry<K> = Entry(key: K, value: int)

  /** One output group: its key, the SUM of its values and the number of its rows. */
  datatype Agg<K> = Agg(key: K, sum: int, count: nat)

  /** SUM(value) over the rows with key `k` (0 when there are none). */
  function SumOf<K(==)>(items: seq<Entry<K>>, k: K): int
  {
    if |items| == 0 then 0
    else SumOf(items[..|items| - 1], k) + (if items[|items| - 1].key == k then items[|items| - 1].value else 0)
  }

  /** The number of rows with key `k`. */
  function CountOf<K(==)>(items: seq<Entry<K>>, k: K): nat
  {
    if |items| == 0 then 0
    else CountOf(items[..|items| - 1], k) + (if items[|items| - 1].key == k then 1 else 0)
  }

  /** A key no row carries sums to 0. */
  lemma {:induction false} NoRowsNoSum<K>(items: seq<Entry<K>>, k: K)
    requires CountOf(items, k) == 0
    ensures SumOf(items, k) == 0
  {
    if |items| > 0 {
      NoRowsNoSum(items[..|items| - 1], k);
    }
  }

  /** The group a grouped query reports for `k`: none when no row has key `k`. */
  function Expected<K(==)>(items: seq<Entry<K>>, k: K): Option<Agg<K>>
  {
    if CountOf(items, k) == 0 then None else Some(Agg(k, SumOf(items, k), CountOf(items, k)))
  }

  predicate DistinctKeys<K(==)>(gs: seq<Agg<K>>)
  {
    forall i, j :: 0 <= i < j < |gs| ==> gs[i].key != gs[j].key
  }

  /** The first group with key `k`. */
  function Find<K(==)>(gs: seq<Agg<K>>, k: K): Option<Agg<K>>
  {
    if |gs| == 0 then None
    else if gs[0].key == k then Some(gs[0])
    else Find(gs[1..], k)
  }

  /** Find returns a group with key `k` when one exists, and none otherwise. */
  lemma {:induction false} FindSpec<K>(gs: seq<Agg<K>>, k: K)
    ensures Find(gs, k).Some? ==> Find(gs, k).value in gs && Find(gs, k).value.key == k
    ensures Find(gs, k).None? <==> forall i :: 0 <= i < |gs| ==> gs[i].key != k
  {
    if |gs| > 0 && gs[0].key != k {
      FindSpec(gs[1..], k);
      assert forall i :: 1 <= i < |gs| ==> gs[i] == gs[1..][i - 1];
    }
  }

  /** Under distinct keys every group is the one found under its own key. */
  lemma FindMember<K>(gs: seq<Agg<K>>, i: nat)
    requires DistinctKeys(gs) && i < |gs|
    ensures Find(gs, gs[i].key) == Some(gs[i])
  {
    FindSpec(gs, gs[i].key);
    var r := Find(gs, gs[i].key).value;
    var j :| 0 <= j < |gs| && gs[j] == r;
    assert i == j;
  }

  /** The keys of some groups. */
  function GroupKeys<K>(gs: seq<Agg<K>>): set<K>
  {
    set g | g in gs :: g.key
  }

  /** The keys of some rows. */
  function EntryKeys<K>(items: seq<Entry<K>>): set<K>
  {
    set e | e in items :: e.key
  }

  /**
   * Adds one row to the groups: to its key's group, or as a new group at the
   * end. Only the key's group can be new or changed; AddToFind states how it
   * changes and that every other group is found as before.
   */
  function AddTo<K(==)>(gs: seq<Agg<K>>, e: Entry<K>): (r: seq<Agg<K>>)
    ensures |gs| <= |r| <= |gs| + 1
    ensures forall i :: 0 <= i < |r| ==> r[i].key == e.key || r[i] in gs
    ensures GroupKeys(r) == GroupKeys(gs) + {e.key}
  {
    if |gs| == 0 then [Agg(e.key, e.value, 1)]
    else
      GroupKeysCons(gs[0], gs[1..]);
      assert gs == [gs[0]] + gs[1..];
      if gs[0].key == e.key then
        GroupKeysCons(Agg(e.key, gs[0].sum + e.value, gs[0].count + 1), gs[1..]);
        [Agg(e.key, gs[0].sum + e.value, gs[0].count + 1)] + gs[1..]
      else
        GroupKeysCons(gs[0], AddTo(gs[1..], e));
        [gs[0]] + AddTo(gs[1..], e)
  }

  lemma GroupKeysCons<K>(g: Agg<K>, gs: seq<Agg<K>>)
    ensures GroupKeys([g] + gs) == {g.key} + GroupKeys(gs)
  {
    assert forall x :: x in [g] + gs <==> x == g || x in gs;
  }

  /** The group of the added row's key absorbs the row; every other group is untouched. */
  lemma {:induction false} AddToFind<K>(gs: seq<Agg<K>>, e: Entry<K>, k: K)
    ensures k != e.key ==> Find(AddTo(gs, e), k) == Find(gs, k)
    ensures k == e.key && Find(gs, k).None? ==> Find(AddTo(gs, e), k) == Some(Agg(k, e.value, 1))
    ensures k == e.key && Find(gs, k).Some? ==>
      Find(AddTo(gs, e), k) == Some(Agg(k, Find(gs, k).value.sum + e.value, Find(gs, k).value.count + 1))
  {
    hide GroupKeys;
    var r := AddTo(gs, e);
    if |gs| == 0 {
      assert r == [Agg(e.key, e.value, 1)];
    } else if gs[0].key == e.key {
      assert r[0] == Agg(e.key, gs[0].sum + e.value, gs[0].count + 1);
      assert r[1..] == gs[1..];
    } else {
      assert r[0] == gs[0];
      assert r[1..] == AddTo(gs[1..], e);
      assert Find(r, k) == if k == gs[0].key then Some(gs[0]) else Find(AddTo(gs[1..], e), k);
      assert Find(gs, k) == if k == gs[0].key then Some(gs[0]) else Find(gs[1..], k);
      hide AddTo, Find;
      AddToFind(gs[1..], e, k);
    }
  }

  lemma {:induction false} AddToDistinct<K>(gs: seq<Agg<K>>, e: Entry<K>)
    requires DistinctKeys(gs)
    ensures DistinctKeys(AddTo(gs, e))
  {
    if |gs| > 0 && gs[0].key != e.key {
      var rest := AddTo(gs[1..], e);
      AddToDistinct(gs[1..], e);
      forall i | 0 <= i < |rest|
        ensures rest[i].key != gs[0].key
      {
        if rest[i].key != e.key {
          var j :| 0 <= j < |gs[1..]| && gs[1..][j] == rest[i];
          assert gs[j + 1] == rest[i];
        }
      }
    }
  }

  /** GROUP BY: one group per key that occurs, in order of first occurrence. */
  function Group<K(==)>(items: seq<Entry<K>>): (r: seq<Agg<K>>)
    ensures |r| <= |items|
    ensures GroupKeys(r) == EntryKeys(items)
  {
    if |items| == 0 then []
    else AddTo(Group(items[..|items| - 1]), items[|items| - 1])
  }

  lemma {:induction false} GroupDistinct<K>(items: seq<Entry<K>>)
    ensures DistinctKeys(Group(items))
  {
    if |items| > 0 {
      var init, last := items[..|items| - 1], items[|items| - 1];
      assert Group(items) == AddTo(Group(init), last);
      GroupDistinct(init);
      AddToDistinct(Group(init), last);
    }
  }

  /** The group for `k` is exactly the one the rows with key `k` determine. */
  lemma {:induction false} GroupFind<K>(items: seq<Entry<K>>, k: K)
    ensures Find(Group(items), k) == Expected(items, k)
  {
    hide GroupKeys, EntryKeys;
    if |items| == 0 {
      assert items == [];
      return;
    }
    var init, last := items[..|items| - 1], items[|items| - 1];
    assert Group(items) == AddTo(Group(init), last);
    assert SumOf(items, k) == SumOf(init, k) + (if last.key == k then last.value else 0);
    assert CountOf(items, k) == CountOf(init, k) + (if last.key == k then 1 else 0);
    hide AddTo, Find, SumOf, CountOf, Group;
    GroupFind(init, k);
    AddToFind(Group(init), last, k);
    if k != last.key {
      assert Expected(items, k) == Expected(init, k);
    } else if CountOf(init, k) == 0 {
      NoRowsNoSum(init, k);
      assert Expected(items, k) == Some(Agg(k, last.value, 1));
    } else {
      assert Expected(items, k) == Some(Agg(k, SumOf(init, k) + last.value, CountOf(init, k) + 1));
    }
  }

  /** A key has a group exactly when some row carries it. */
  lemma GroupHasKey<K>(items: seq<Entry<K>>, k: K)
    ensures CountOf(items, k) > 0 <==> exists i :: 0 <= i < |Group(items)| && Group(items)[i].key == k
  {
    var gs := Group(items);
    GroupFind(items, k);
    FindSpec(gs, k);
    if CountOf(items, k) > 0 {
      var g := Find(gs, k).value;
      var i :| 0 <= i < |gs| && gs[i] == g;
    }
  }

  /**
   * Every output group carries the SUM and COUNT of exactly the rows with
   * its key, and a key has a group exactly when some row carries it.
   */
  lemma GroupRows<K>(items: seq<Entry<K>>)
    ensures forall i :: 0 <= i < |Group(items)| ==>
      && Group(items)[i].sum == SumOf(items, Group(items)[i].key)
      && Group(items)[i].count == CountOf(items, Group(items)[i].key)
      && Group(items)[i].count > 0
    ensures forall k :: CountOf(items, k) > 0 <==> exists i :: 0 <= i < |Group(items)| && Group(items)[i].key == k
  {
    var gs := Group(items);
    forall i | 0 <= i < |gs|
      ensures gs[i].sum == SumOf(items, gs[i].key) && gs[i].count == CountOf(items, gs[i].key) && gs[i].count > 0
    {
      GroupDistinct(items);
      GroupFind(items, gs[i].key);
      FindMember(gs, i);
    }
    forall k
      ensures CountOf(items, k) > 0 <==> exists i :: 0 <= i < |gs| && gs[i].key == k
    {
      GroupHasKey(items, k);
    }
  }

  /** SUM and COUNT distribute over concatenation. */
  lemma {:induction false} SumOfConcat<K>(a: seq<Entry<K>>, b: seq<Entry<K>>, k: K)
    ensures SumOf(a + b, k) == SumOf(a, k) + SumOf(b, k)
    ensures CountOf(a + b, k) == CountOf(a, k) + CountOf(b, k)
    decreases |b|
  {
    if |b| > 0 {
      var b', last := b[..|b| - 1], b[|b| - 1];
      assert (a + b)[..|a + b| - 1] == a + b';
      SumOfConcat(a, b', k);
    } else {
      assert a + b == a;
    }
  }

  lemma {:induction false} InsertKeepsDistinct<K>(x: Agg<K>, xs: seq<Agg<K>>, le: (Agg<K>, Agg<K>) -> bool)
    requires DistinctKeys(xs)
    requires forall i :: 0 <= i < |xs| ==> xs[i].key != x.key
    ensures DistinctKeys(InsertBy(x, xs, le))
  {
    if |xs| > 0 && !le(x, xs[0]) {
      var tail := xs[1..];
      var rest := InsertBy(x, tail, le);
      InsertKeepsDistinct(x, tail, le);
      forall j | 0 <= j < |rest|
        ensures rest[j].key != xs[0].key
      {
        assert rest[j] in multiset(rest);
        if rest[j] != x {
          assert rest[j] in multiset(tail);
          var m :| 0 <= m < |tail| && tail[m] == rest[j];
          assert xs[m + 1] == rest[j];
        }
      }
      var r := [xs[0]] + rest;
      assert InsertBy(x, xs, le) == r;
      forall i, j | 0 <= i < j < |r|
        ensures r[i].key != r[j].key
      {
        assert r[j] == rest[j - 1];
      }
    } else {
      var r := [x] + xs;
      assert InsertBy(x, xs, le) == r;
      forall i, j | 0 <= i < j < |r|
        ensures r[i].key != r[j].key
      {
        assert r[j] == xs[j - 1];
      }
    }
  }

  /** ORDER BY reorders the groups and so keeps their keys distinct. */
  lemma {:induction false} SortKeepsDistinct<K>(gs: seq<Agg<K>>, le: (Agg<K>, Agg<K>) -> bool)
    requires DistinctKeys(gs)
    ensures DistinctKeys(SortBy(gs, le))
  {
    if |gs| > 0 {
      var tail := gs[1..];
      var sorted := SortBy(tail, le);
      SortKeepsDistinct(tail, le);
      forall i | 0 <= i < |sorted|
        ensures sorted[i].key != gs[0].key
      {
        assert sorted[i] in multiset(tail);
        var m :| 0 <= m < |tail| && tail[m] == sorted[i];
        assert gs[m + 1] == sorted[i];
      }
      InsertKeepsDistinct(gs[0], sorted, le);
    }
  }

  /** ORDER BY neither adds nor drops a key. */
  lemma SortKeepsKeys<K>(gs: seq<Agg<K>>, le: (Agg<K>, Agg<K>) -> bool, k: K)
    ensures (exists i :: 0 <= i < |gs| && gs[i].key == k) <==> (exists i :: 0 <= i < |SortBy(gs, le)| && SortBy(gs, le)[i].key == k)
  {
    var rs := SortBy(gs, le);
    forall j | 0 <= j < |gs| && gs[j].key == k
      ensures exists i :: 0 <= i < |rs| && rs[i].key == k
    {
      assert gs[j] in multiset(rs);
      var i :| 0 <= i < |rs| && rs[i] == gs[j];
    }
    forall i | 0 <= i < |rs| && rs[i].key == k
      ensures exists j :: 0 <= j < |gs| && gs[j].key == k
    {
      assert rs[i] in multiset(gs);
      var j :| 0 <= j < |gs| && gs[j] == rs[i];
    }
    assert (exists i :: 0 <= i < |gs| && gs[i].key == k) ==> (exists i :: 0 <= i < |rs| && rs[i].key == k);
    assert (exists i :: 0 <= i < |rs| && rs[i].key == k) ==> (exists i :: 0 <= i < |gs| && gs[i].key == k);
    assert rs == SortBy(gs, le);
    assert (exists i :: 0 <= i < |SortBy(gs, le)| && SortBy(gs, le)[i].key == k) ==> (exists i :: 0 <= i < |rs| && rs[i].key == k);
    assert (exists i :: 0 <= i < |rs| && rs[i].key == k) ==> (exists i :: 0 <= i < |SortBy(gs, le)| && SortBy(gs, le)[i].key == k);
  }

  /** AVG: the mean of a non-empty group, as an exact quotient. */
  function Mean<K>(g: Agg<K>): (m: real)
    requires g.count > 0
    ensures g.sum >= 0 ==> m >= 0.0
    ensures m * g.count as real == g.sum as real
  {
    g.sum as real / g.count as real
  }
}
