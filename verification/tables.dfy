/**
 * Rows, tables and the INSERT forms the importers issue, with the meaning
 * SQLite gives them on a table whose rows are never deleted.
 *
 * A table is the sequence of its rows in insertion order. Every row has an
 * INTEGER PRIMARY KEY `id` and a payload `key` (a name, a year or a fact).
 */
module Tables {

  datatype Option<+T> = None | Some(value: T)

  /** Why the database refused a statement. */
  datatype DbError = UniqueViolation | PrimaryKeyViolation

  datatype Result<+T> = Ok(value: T) | Err(error: DbError)

  datatype Row<+K> = Row(id: int, key: K)

  type Table<K> = seq<Row<K>>

  /** The table after a successful INSERT, and the new row's id (`lastrowid`). */
  datatype Inserted<K> = Inserted(table: Table<K>, id: int)

  function Keys<K(==)>(t: Table<K>): set<K>
  {
    set r | r in t :: r.key
  }

  function Ids<K(==)>(t: Table<K>): set<int>
  {
    set r | r in t :: r.id
  }

  /** The PRIMARY KEY constraint. */
  predicate UniqueIds<K(==)>(t: Table<K>)
  {
    forall i, j :: 0 <= i < j < |t| ==> t[i].id != t[j].id
  }

  /** The UNIQUE constraint on the payload column. */
  predicate UniqueKeys<K(==)>(t: Table<K>)
  {
    forall i, j :: 0 <= i < j < |t| ==> t[i].key != t[j].key
  }

  /** The largest id in the table, or 0 for an empty table. */
  function MaxId<K(==)>(t: Table<K>): (m: nat)
    ensures forall r :: r in t ==> r.id <= m
    ensures m == 0 || m in Ids(t)
  {
    if |t| == 0 then 0
    else
      var m := MaxId(t[..|t| - 1]);
      assert t == t[..|t| - 1] + [t[|t| - 1]];
      if t[|t| - 1].id > m then t[|t| - 1].id else m
  }

  /**
   * The id SQLite chooses for a row inserted without one, taken as one more
   * than the largest id the table holds. Without AUTOINCREMENT that is what
   * SQLite does. With AUTOINCREMENT SQLite takes one more than the table's
   * sequence counter, which an insert that fails its UNIQUE check (an ignored
   * `INSERT OR IGNORE`) may already have advanced, leaving a gap; the model
   * does not keep that counter.
   */
  function NextId<K(==)>(t: Table<K>): (n: int)
    ensures n >= 1 && n !in Ids(t)
    ensures forall r :: r in t ==> r.id < n
  {
    MaxId(t) + 1
  }

  /** A plain INSERT into a table without UNIQUE columns (the sales table). */
  function Append<K(==)>(t: Table<K>, k: K): (r: Table<K>)
    ensures |r| == |t| + 1 && r[..|t|] == t
    ensures r[|t|].key == k && r[|t|].id !in Ids(t)
  {
    t + [Row(NextId(t), k)]
  }

  /**
   * `INSERT OR IGNORE` into a table whose payload column is UNIQUE. The new
   * row's id is NextId's, so a gap an earlier ignored insert leaves in an
   * AUTOINCREMENT sequence is not reproduced.
   */
  function InsertOrIgnore<K(==)>(t: Table<K>, k: K): (r: Table<K>)
    ensures Keys(r) == Keys(t) + {k}
    ensures k in Keys(t) ==> r == t
    ensures k !in Keys(t) ==> |r| == |t| + 1 && r[..|t|] == t && r[|t|] == Row(NextId(t), k)
  {
    if LookupId(t, k).Some? then t
    else
      Append(t, k)
  }

  /** A plain INSERT into a table whose payload column is UNIQUE: a duplicate is refused. */
  function Insert<K(==)>(t: Table<K>, k: K): (r: Result<Inserted<K>>)
    ensures r.Err? <==> k in Keys(t)
    ensures r.Err? ==> r.error == UniqueViolation
    ensures r.Ok? ==> |r.value.table| == |t| + 1 && r.value.table[..|t|] == t
    ensures r.Ok? ==> r.value.table[|t|] == Row(r.value.id, k) && r.value.id !in Ids(t)
    ensures r.Ok? ==> Keys(r.value.table) == Keys(t) + {k}
  {
    if LookupId(t, k).Some? then Err(UniqueViolation)
    else
      Ok(Inserted(Append(t, k), NextId(t)))
  }

  /** An INSERT that supplies the primary key itself: a taken id is refused. */
  function InsertWithId<K(==)>(t: Table<K>, id: int, k: K): (r: Result<Table<K>>)
    ensures r.Err? <==> id in Ids(t)
    ensures r.Err? ==> r.error == PrimaryKeyViolation
    ensures r.Ok? ==> t <= r.value && Ids(r.value) == Ids(t) + {id} && Keys(r.value) == Keys(t) + {k}
    ensures r.Ok? && UniqueIds(t) ==> UniqueIds(r.value)
  {
    if id in Ids(t) then Err(PrimaryKeyViolation)
    else
      AppendRow(t, Row(id, k));
      Ok(t + [Row(id, k)])
  }

  /** Appending a row adds exactly its id and its payload, and an unused id keeps the PRIMARY KEY. */
  lemma AppendRow<K>(t: Table<K>, row: Row<K>)
    ensures Ids(t + [row]) == Ids(t) + {row.id} && Keys(t + [row]) == Keys(t) + {row.key}
    ensures row.id !in Ids(t) && UniqueIds(t) ==> UniqueIds(t + [row])
  {
    assert forall x :: x in t + [row] <==> x in t || x == row;
    if row.id !in Ids(t) && UniqueIds(t) {
      FreshIdKeepsUniqueIds(t, row);
    }
  }

  /** The payload of the first row with the given id: a join on the primary key. */
  function Resolve<K(==)>(t: Table<K>, id: int): (r: Option<K>)
    ensures r.Some? ==> Row(id, r.value) in t
    ensures r.None? <==> id !in Ids(t)
  {
    if |t| == 0 then None
    else if t[0].id == id then Some(t[0].key)
    else
      Resolve(t[1..], id)
  }

  /** The id of the first row with the given payload: `SELECT id ... WHERE name = ?`. */
  function LookupId<K(==)>(t: Table<K>, k: K): (r: Option<int>)
    ensures r.Some? ==> Row(r.value, k) in t
    ensures r.None? <==> k !in Keys(t)
  {
    if |t| == 0 then None
    else if t[0].key == k then Some(t[0].id)
    else
      LookupId(t[1..], k)
  }

  /** Every cached id is the id of the row holding the cached name. */
  predicate CacheSound<K(==)>(t: Table<K>, cache: map<K, int>)
  {
    forall k :: k in cache ==> Row(cache[k], k) in t
  }

  /** Appending a row under a fresh id keeps the PRIMARY KEY. */
  lemma FreshIdKeepsUniqueIds<K>(t: Table<K>, row: Row<K>)
    requires UniqueIds(t) && row.id !in Ids(t)
    ensures UniqueIds(t + [row])
  {
    var r := t + [row];
    forall i, j | 0 <= i < j < |r|
      ensures r[i].id != r[j].id
    {
      if j == |t| {
        assert r[i] in t;
      }
    }
  }

  /** Appending a row under a new payload keeps the UNIQUE constraint. */
  lemma FreshKeyKeepsUniqueKeys<K>(t: Table<K>, row: Row<K>)
    requires UniqueKeys(t) && row.key !in Keys(t)
    ensures UniqueKeys(t + [row])
  {
    var r := t + [row];
    forall i, j | 0 <= i < j < |r|
      ensures r[i].key != r[j].key
    {
      if j == |t| {
        assert r[i] in t;
      }
    }
  }

  /** `INSERT OR IGNORE` never breaks the PRIMARY KEY or the UNIQUE constraint. */
  lemma InsertOrIgnoreKeepsConstraints<K>(t: Table<K>, k: K)
    requires UniqueIds(t) && UniqueKeys(t)
    ensures UniqueIds(InsertOrIgnore(t, k)) && UniqueKeys(InsertOrIgnore(t, k))
  {
    if k !in Keys(t) {
      assert InsertOrIgnore(t, k) == t + [Row(NextId(t), k)];
      FreshIdKeepsUniqueIds(t, Row(NextId(t), k));
      FreshKeyKeepsUniqueKeys(t, Row(NextId(t), k));
    }
  }

  /** Under the primary key, a row's id determines what a join on it finds. */
  lemma ResolveUnique<K>(t: Table<K>, id: int, k: K)
    requires UniqueIds(t)
    requires Row(id, k) in t
    ensures Resolve(t, id) == Some(k)
  {
    var r := Resolve(t, id);
    var i :| 0 <= i < |t| && t[i] == Row(id, k);
    var j :| 0 <= j < |t| && t[j] == Row(id, r.value);
    assert i == j;
  }

  /**
   * After an INSERT with an explicit id into a table with its PRIMARY KEY,
   * the join on that id finds the new row, and every other id finds what it
   * found before.
   */
  lemma InsertWithIdResolves<K>(t: Table<K>, id: int, k: K, other: int)
    requires UniqueIds(t) && InsertWithId(t, id, k).Ok?
    ensures Resolve(InsertWithId(t, id, k).value, id) == Some(k)
    ensures other != id ==> Resolve(InsertWithId(t, id, k).value, other) == Resolve(t, other)
  {
    var r := InsertWithId(t, id, k).value;
    ResolveUnique(r, id, k);
    if other != id {
      if other in Ids(t) {
        ResolveUnique(r, other, Resolve(t, other).value);
      } else {
        assert other !in Ids(r);
      }
    }
  }

  /** Under the UNIQUE constraint, a name determines its row's id. */
  lemma LookupUnique<K>(t: Table<K>, id: int, k: K)
    requires UniqueKeys(t)
    requires Row(id, k) in t
    ensures LookupId(t, k) == Some(id)
  {
    var r := LookupId(t, k);
    var i :| 0 <= i < |t| && t[i] == Row(id, k);
    var j :| 0 <= j < |t| && t[j] == Row(r.value, k);
    assert i == j;
  }

  /** Under the UNIQUE constraint the table has exactly one row per distinct key. */
  lemma {:induction false} UniqueKeysCount<K>(t: Table<K>)
    requires UniqueKeys(t)
    ensures |Keys(t)| == |t|
  {
    if |t| > 0 {
      var init := t[..|t| - 1];
      var last := t[|t| - 1];
      assert t == init + [last];
      assert UniqueKeys(init);
      UniqueKeysCount(init);
      assert last.key !in Keys(init);
      assert Keys(t) == Keys(init) + {last.key} by {
        assert forall x :: x in t <==> x in init || x == last;
      }
    }
  }
}
