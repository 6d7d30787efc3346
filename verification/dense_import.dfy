/**
 * The importer of reports.py. The script hands out ids itself: a country
 * (product) the run has not seen yet gets `len(cache) + 1` and is inserted
 * with that id, so the k-th distinct country of the run gets id k. There is
 * no year dimension: the sales row stores the raw year. The name columns
 * carry no UNIQUE constraint; the cache is the only guard against
 * duplicates.
 *
 * Inserting an id the table already holds violates the PRIMARY KEY. The
 * script does not catch that error and nothing is committed; `Err` stands
 * for that outcome.
 */
module DenseImport {
  import opened Tables
  import opened Schema

  /** A sales row of reports.py: two ids, the raw year and the sale. */
  datatype FlatFact = FlatFact(countryId: int, productId: int, year: int, sale: int)

  datatype FlatDb = FlatDb(countries: Table<string>, products: Table<string>, sales: Table<FlatFact>)

  function EmptyFlatDb(): FlatDb
  {
    FlatDb([], [], [])
  }

  /**
   * The distinct elements of `xs` in order of first appearance: a name listed
   * before another occurs in `xs` before every occurrence of the other.
   */
  function Distinct(xs: seq<string>): (d: seq<string>)
    ensures forall x :: x in d <==> x in xs
    ensures forall i, j :: 0 <= i < j < |d| ==> d[i] != d[j]
    ensures forall i, j, p :: 0 <= i < j < |d| && 0 <= p < |xs| && xs[p] == d[j] ==> d[i] in xs[..p]
    ensures |d| <= |xs|
  {
    if |xs| == 0 then []
    else
      var init, last := xs[..|xs| - 1], xs[|xs| - 1];
      assert xs == init + [last];
      assert forall p :: 0 <= p < |init| ==> xs[..p] == init[..p];
      if last in Distinct(init) then Distinct(init) else Distinct(init) + [last]
  }

  /** The country column of a feed. */
  function CountrySeq(data: seq<Record>): (r: seq<string>)
    ensures |r| == |data| && forall i :: 0 <= i < |data| ==> r[i] == data[i].country
  {
    if |data| == 0 then [] else CountrySeq(data[..|data| - 1]) + [data[|data| - 1].country]
  }

  /** The product column of a feed. */
  function ProductSeq(data: seq<Record>): (r: seq<string>)
    ensures |r| == |data| && forall i :: 0 <= i < |data| ==> r[i] == data[i].product
  {
    if |data| == 0 then [] else ProductSeq(data[..|data| - 1]) + [data[|data| - 1].product]
  }

  /**
   * The table and cache hold the names of `names`, the k-th of them (from 1)
   * under id k: the table row by row, the cache as the same pairs.
   */
  ghost predicate Tabulates(t: Table<string>, cache: map<string, int>, names: seq<string>)
  {
    && |t| == |names| && |cache| == |names|
    && (forall j :: 0 <= j < |t| ==> t[j] == Row(j + 1, names[j]))
    && (forall k :: k in cache <==> k in names)
    && (forall j :: 0 <= j < |names| ==> cache[names[j]] == j + 1)
  }

  /** `names` with `k` appended unless it is already there. */
  function Grown(names: seq<string>, k: string): seq<string>
  {
    if k in names then names else names + [k]
  }

  /** A resolved name: the table and cache afterwards, and the name's id. */
  datatype Assigned = Assigned(table: Table<string>, cache: map<string, int>, id: int)

  /**
   * Get-or-create with script-chosen ids: a hit reuses the cached id; a miss
   * takes `len(cache) + 1`, records it and inserts the row with that id,
   * which fails when the table already holds the id.
   */
  function Assign(t: Table<string>, cache: map<string, int>, k: string): (r: Result<Assigned>)
    ensures k in cache ==> r == Ok(Assigned(t, cache, cache[k]))
    ensures k !in cache ==> (r.Err? <==> |cache| + 1 in Ids(t))
    ensures r.Err? ==> r.error == PrimaryKeyViolation
    ensures r.Ok? ==> t <= r.value.table
    ensures r.Ok? && k !in cache ==>
      && r.value.id == |cache| + 1
      && r.value.cache == cache[k := r.value.id]
      && r.value.table == t + [Row(r.value.id, k)]
  {
    if k in cache then Ok(Assigned(t, cache, cache[k]))
    else
      var id := |cache| + 1;
      match InsertWithId(t, id, k)
      case Err(e) => Err(e)
      case Ok(t') => Ok(Assigned(t', cache[k := id], id))
  }

  /**
   * On a dense table the next id is free, so assignment succeeds, and the
   * table stays dense over the names with `k` added if it was new.
   */
  lemma AssignTabulates(t: Table<string>, cache: map<string, int>, names: seq<string>, k: string)
    requires Tabulates(t, cache, names)
    ensures Assign(t, cache, k).Ok?
    ensures Tabulates(Assign(t, cache, k).value.table, Assign(t, cache, k).value.cache, Grown(names, k))
    ensures Row(Assign(t, cache, k).value.id, k) in Assign(t, cache, k).value.table
  {
    if k in cache {
      var j :| 0 <= j < |names| && names[j] == k;
      assert t[j] == Row(j + 1, k);
    } else {
      assert |cache| + 1 !in Ids(t) by {
        forall r | r in t
          ensures r.id <= |t|
        {
          var j :| 0 <= j < |t| && t[j] == r;
        }
      }
      var a := Assign(t, cache, k).value;
      var names' := names + [k];
      assert a.table[|t|] == Row(|names'|, k);
      forall j | 0 <= j < |names'|
        ensures a.cache[names'[j]] == j + 1
      {
        if j < |names| {
          assert names'[j] == names[j] && names[j] in cache;
        }
      }
    }
  }

  /** `b` is `a` with rows appended only. */
  predicate FlatExtends(a: FlatDb, b: FlatDb)
  {
    a.countries <= b.countries && a.products <= b.products && a.sales <= b.sales
  }

  /** The state reports.py carries from one record to the next. */
  datatype Session = Session(db: FlatDb, countries: map<string, int>, products: map<string, int>)

  /** One iteration of the loop over the feed. */
  function Step(s: Session, rec: Record): (r: Result<Session>)
    ensures r.Ok? ==> |r.value.db.sales| == |s.db.sales| + 1 && FlatExtends(s.db, r.value.db)
    ensures r.Ok? ==> r.value.db.sales[|s.db.sales|].key.year == rec.year
    ensures r.Ok? ==> r.value.db.sales[|s.db.sales|].key.sale == rec.sale
  {
    match Assign(s.db.countries, s.countries, rec.country)
    case Err(e) => Err(e)
    case Ok(c) =>
      match Assign(s.db.products, s.products, rec.product)
      case Err(e) => Err(e)
      case Ok(p) =>
        var sales := Append(s.db.sales, FlatFact(c.id, p.id, rec.year, rec.sale));
        Ok(Session(FlatDb(c.table, p.table, sales), c.cache, p.cache))
  }

  /** The loop over the feed; the first failing INSERT ends the run. */
  function Run(s: Session, data: seq<Record>): (r: Result<Session>)
    ensures r.Ok? ==> |r.value.db.sales| == |s.db.sales| + |data| && FlatExtends(s.db, r.value.db)
    decreases |data|
  {
    if |data| == 0 then Ok(s)
    else
      match Run(s, data[..|data| - 1])
      case Err(e) => Err(e)
      case Ok(mid) => Step(mid, data[|data| - 1])
  }

  /** reports.py: empty caches, then the loop over the feed. */
  function Import(db: FlatDb, data: seq<Record>): (r: Result<FlatDb>)
    ensures r.Ok? ==> |r.value.sales| == |db.sales| + |data| && FlatExtends(db, r.value)
  {
    match Run(Session(db, map[], map[]), data)
    case Err(e) => Err(e)
    case Ok(s) => Ok(s.db)
  }

  /** The session reports.py starts with on a fresh database. */
  function Fresh(): Session
  {
    Session(EmptyFlatDb(), map[], map[])
  }

  lemma DistinctSnoc(xs: seq<string>, x: string)
    ensures Distinct(xs + [x]) == Grown(Distinct(xs), x)
  {
    assert (xs + [x])[..|xs|] == xs;
  }

  /** The distinct names of a feed grow by the last record's name when it is new. */
  lemma NamesSnoc(data: seq<Record>)
    requires |data| > 0
    ensures Distinct(CountrySeq(data)) == Grown(Distinct(CountrySeq(data[..|data| - 1])), data[|data| - 1].country)
    ensures Distinct(ProductSeq(data)) == Grown(Distinct(ProductSeq(data[..|data| - 1])), data[|data| - 1].product)
  {
    var init, last := data[..|data| - 1], data[|data| - 1];
    assert CountrySeq(data) == CountrySeq(init) + [last.country];
    assert ProductSeq(data) == ProductSeq(init) + [last.product];
    DistinctSnoc(CountrySeq(init), last.country);
    DistinctSnoc(ProductSeq(init), last.product);
  }

  /**
   * On a fresh database the run succeeds, and after every prefix of the feed
   * each table and cache hold the distinct names seen so far, the k-th in
   * first-appearance order under id k.
   */
  lemma {:induction false} RunFreshTabulates(data: seq<Record>)
    ensures Run(Fresh(), data).Ok?
    ensures Tabulates(Run(Fresh(), data).value.db.countries, Run(Fresh(), data).value.countries, Distinct(CountrySeq(data)))
    ensures Tabulates(Run(Fresh(), data).value.db.products, Run(Fresh(), data).value.products, Distinct(ProductSeq(data)))
    decreases |data|
  {
    if |data| == 0 {
      assert CountrySeq(data) == [] && ProductSeq(data) == [];
      return;
    }
    hide Step, Tabulates, Assign;
    var init, last := data[..|data| - 1], data[|data| - 1];
    RunFreshTabulates(init);
    var mid := Run(Fresh(), init).value;
    assert Run(Fresh(), data) == Step(mid, last);
    hide Run;
    NamesSnoc(data);
    hide Distinct, CountrySeq, ProductSeq;
    StepTabulates(mid, last, Distinct(CountrySeq(init)), Distinct(ProductSeq(init)));
  }

  /**
   * A sales row of reports.py that records `rec`: its ids name rows holding
   * the record's country and product, and it carries the raw year and sale.
   */
  predicate FlatRefers(db: FlatDb, f: FlatFact, rec: Record)
  {
    && Row(f.countryId, rec.country) in db.countries
    && Row(f.productId, rec.product) in db.products
    && f.year == rec.year && f.sale == rec.sale
  }

  lemma FlatExtendsRefers(a: FlatDb, b: FlatDb, f: FlatFact, rec: Record)
    requires FlatExtends(a, b) && FlatRefers(a, f, rec)
    ensures FlatRefers(b, f, rec)
  {
    assert b.countries == a.countries + b.countries[|a.countries|..];
    assert b.products == a.products + b.products[|a.products|..];
  }

  /** One iteration on dense tables keeps them dense and stores a referring sales row. */
  lemma StepTabulates(s: Session, rec: Record, cn: seq<string>, pn: seq<string>)
    requires Tabulates(s.db.countries, s.countries, cn)
    requires Tabulates(s.db.products, s.products, pn)
    ensures Step(s, rec).Ok?
    ensures Tabulates(Step(s, rec).value.db.countries, Step(s, rec).value.countries,
      Grown(cn, rec.country))
    ensures Tabulates(Step(s, rec).value.db.products, Step(s, rec).value.products,
      Grown(pn, rec.product))
    ensures FlatRefers(Step(s, rec).value.db, Step(s, rec).value.db.sales[|s.db.sales|].key, rec)
  {
    AssignTabulates(s.db.countries, s.countries, cn, rec.country);
    AssignTabulates(s.db.products, s.products, pn, rec.product);
  }

  /**
   * The last iteration of a run on a fresh database extends the tables the
   * earlier ones left and appends a sales row recording the last record.
   */
  lemma RunFreshLast(data: seq<Record>)
    requires |data| > 0
    ensures Run(Fresh(), data).Ok? && Run(Fresh(), data[..|data| - 1]).Ok?
    ensures FlatExtends(Run(Fresh(), data[..|data| - 1]).value.db, Run(Fresh(), data).value.db)
    ensures |Run(Fresh(), data[..|data| - 1]).value.db.sales| == |data| - 1
    ensures FlatRefers(Run(Fresh(), data).value.db, Run(Fresh(), data).value.db.sales[|data| - 1].key, data[|data| - 1])
  {
    hide Tabulates, FlatRefers;
    var init, last := data[..|data| - 1], data[|data| - 1];
    RunFreshTabulates(init);
    var mid := Run(Fresh(), init).value;
    StepTabulates(mid, last, Distinct(CountrySeq(init)), Distinct(ProductSeq(init)));
    assert Run(Fresh(), data) == Step(mid, last);
  }

  /** The sales row the run appends for `data[i]` records `data[i]`. */
  lemma {:induction false} RunFreshRefersAt(data: seq<Record>, i: nat)
    requires i < |data|
    ensures Run(Fresh(), data).Ok?
    ensures FlatRefers(Run(Fresh(), data).value.db, Run(Fresh(), data).value.db.sales[i].key, data[i])
    decreases |data|
  {
    RunFreshLast(data);
    if i < |data| - 1 {
      var init := data[..|data| - 1];
      RunFreshRefersAt(init, i);
      var mid, r := Run(Fresh(), init).value.db, Run(Fresh(), data).value.db;
      hide Run, FlatRefers;
      assert init[i] == data[i];
      assert r.sales[i] == mid.sales[i];
      FlatExtendsRefers(mid, r, mid.sales[i].key, init[i]);
    }
  }

  /**
   * reports.py on a fresh database: the import succeeds; each dimension table
   * holds the feed's distinct names in first-appearance order, the k-th under
   * id k, so ids run over 1..n without repeats; and the sales table holds one
   * row per record, in order, recording that record.
   */
  lemma ImportFresh(data: seq<Record>)
    ensures Import(EmptyFlatDb(), data).Ok?
    ensures Tabulates(Import(EmptyFlatDb(), data).value.countries, Run(Fresh(), data).value.countries, Distinct(CountrySeq(data)))
    ensures Tabulates(Import(EmptyFlatDb(), data).value.products, Run(Fresh(), data).value.products, Distinct(ProductSeq(data)))
    ensures |Import(EmptyFlatDb(), data).value.sales| == |data|
    ensures forall i :: 0 <= i < |data| ==>
      FlatRefers(Import(EmptyFlatDb(), data).value, Import(EmptyFlatDb(), data).value.sales[i].key, data[i])
  {
    hide Step, Tabulates, FlatRefers;
    RunFreshTabulates(data);
    var r := Run(Fresh(), data).value;
    assert Import(EmptyFlatDb(), data) == Ok(r.db);
    forall i | 0 <= i < |data|
      ensures FlatRefers(r.db, r.db.sales[i].key, data[i])
    {
      RunFreshRefersAt(data, i);
    }
  }

  /** Under Tabulates over distinct names, ids lie in 1..n and no two names share one. */
  lemma TabulatedIds(t: Table<string>, cache: map<string, int>, names: seq<string>)
    requires Tabulates(t, cache, names)
    requires forall i, j :: 0 <= i < j < |names| ==> names[i] != names[j]
    ensures forall k :: k in cache ==> 1 <= cache[k] <= |cache|
    ensures forall a, b :: a in cache && b in cache && a != b ==> cache[a] != cache[b]
    ensures forall id :: id in Ids(t) <==> 1 <= id <= |names|
  {
    forall k | k in cache
      ensures 1 <= cache[k] <= |cache|
    {
      var j :| 0 <= j < |names| && names[j] == k;
    }
    forall a, b | a in cache && b in cache && a != b
      ensures cache[a] != cache[b]
    {
      var i :| 0 <= i < |names| && names[i] == a;
      var j :| 0 <= j < |names| && names[j] == b;
    }
    forall id
      ensures id in Ids(t) <==> 1 <= id <= |names|
    {
      if 1 <= id <= |names| {
        assert t[id - 1] in t;
      }
      if id in Ids(t) {
        var r :| r in t && r.id == id;
        var j :| 0 <= j < |t| && t[j] == r;
      }
    }
  }

  /**
   * A run whose first record's country is new to the (empty) cache takes id 1
   * for it; if the countries table already holds id 1 the INSERT fails, and
   * the first failure ends the run.
   */
  lemma {:induction false} RunConflict(s: Session, data: seq<Record>)
    requires |data| > 0 && s.countries == map[]
    requires 1 in Ids(s.db.countries)
    ensures Run(s, data) == Err(PrimaryKeyViolation)
    decreases |data|
  {
    var init, last := data[..|data| - 1], data[|data| - 1];
    if |init| == 0 {
      assert Run(s, init) == Ok(s);
      assert Run(s, data) == Step(s, last);
      assert Assign(s.db.countries, s.countries, last.country) == Err(PrimaryKeyViolation);
    } else {
      RunConflict(s, init);
      assert Run(s, data) == Err(PrimaryKeyViolation);
    }
  }

  /**
   * Importing a non-empty feed into a database whose countries table already
   * holds id 1, as it does after any earlier non-empty import, fails on the
   * primary key.
   */
  lemma ImportConflict(db: FlatDb, data: seq<Record>)
    requires |data| > 0
    requires 1 in Ids(db.countries)
    ensures Import(db, data) == Err(PrimaryKeyViolation)
  {
    RunConflict(Session(db, map[], map[]), data);
  }

  /** Re-running reports.py with the same non-empty feed fails on the primary key. */
  lemma ImportTwiceFails(data: seq<Record>)
    requires |data| > 0
    ensures Import(EmptyFlatDb(), data).Ok?
    ensures Import(Import(EmptyFlatDb(), data).value, data) == Err(PrimaryKeyViolation)
  {
    ImportFresh(data);
    var once := Import(EmptyFlatDb(), data).value;
    assert data[0].country in CountrySeq(data);
    assert once.countries[0] in once.countries;
    ImportConflict(once, data);
  }
}
