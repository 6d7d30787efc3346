/**
 * The importer of addingdata.py. The three caches are first filled from the
 * tables (`SELECT id, name FROM ...`); then every record resolves its values
 * through them, issuing a plain `INSERT` on a miss and caching the new row's
 * id, and appends one sales row.
 *
 * A plain `INSERT` of a value the table already holds violates the UNIQUE
 * constraint. The script does not catch that error: the run stops before
 * `commit`, so the database is left as it was. `Err` stands for that outcome.
 */
module PreloadImport {
  import opened Tables
  import opened Schema

  /**
   * The preload loop: every row of the table, in order, sets
   * `cache[name] = id`.
   */
  function CacheOf<K(==)>(t: Table<K>): (m: map<K, int>)
    ensures m.Keys == Keys(t)
    ensures CacheSound(t, m)
  {
    if |t| == 0 then map[]
    else
      var init, last := t[..|t| - 1], t[|t| - 1];
      assert t == init + [last];
      CacheOf(init)[last.key := last.id]
  }

  /** The cache lists exactly the table's values, each with the id of its row. */
  predicate Agrees<K(==)>(t: Table<K>, cache: map<K, int>)
  {
    && UniqueIds(t) && UniqueKeys(t)
    && cache.Keys == Keys(t)
    && CacheSound(t, cache)
  }

  /**
   * After the preload the cache maps every value already in the table, and
   * nothing else, to the id the table stores for it.
   */
  lemma PreloadAgrees<K>(t: Table<K>)
    requires UniqueIds(t) && UniqueKeys(t)
    ensures Agrees(t, CacheOf(t))
    ensures forall k :: k in Keys(t) ==> k in CacheOf(t) && LookupId(t, k) == Some(CacheOf(t)[k])
  {
    forall k | k in Keys(t)
      ensures k in CacheOf(t) && LookupId(t, k) == Some(CacheOf(t)[k])
    {
      LookupUnique(t, CacheOf(t)[k], k);
    }
  }

  /** A resolved value: the table and cache afterwards, and the value's id. */
  datatype Got<K> = Got(table: Table<K>, cache: map<K, int>, id: int)

  /**
   * Get-or-create of one value: a hit reuses the cached id and touches
   * nothing; a miss inserts the value and caches the new row's id. A value
   * the cache misses but the table holds makes the INSERT fail.
   */
  function GetOrCreate<K(==)>(t: Table<K>, cache: map<K, int>, k: K): (r: Result<Got<K>>)
    ensures r.Err? <==> k !in cache && k in Keys(t)
    ensures r.Err? ==> r.error == UniqueViolation
    ensures k in cache ==> r == Ok(Got(t, cache, cache[k]))
    ensures r.Ok? ==> r.value.cache == cache[k := r.value.id] && t <= r.value.table
    ensures r.Ok? && k !in cache ==> r.value.table == t + [Row(r.value.id, k)] && r.value.id !in Ids(t)
  {
    if k in cache then Ok(Got(t, cache, cache[k]))
    else
      match Insert(t, k)
      case Err(e) => Err(e)
      case Ok(ins) =>
        assert ins.table == t + [Row(ins.id, k)];
        Ok(Got(ins.table, cache[k := ins.id], ins.id))
  }

  /** Inserting a new value under a fresh id and caching that id keeps the agreement. */
  lemma AppendAgrees<K>(t: Table<K>, cache: map<K, int>, row: Row<K>)
    requires Agrees(t, cache) && row.id !in Ids(t) && row.key !in Keys(t)
    ensures Agrees(t + [row], cache[row.key := row.id])
    ensures Keys(t + [row]) == Keys(t) + {row.key}
  {
    var t', cache' := t + [row], cache[row.key := row.id];
    FreshIdKeepsUniqueIds(t, row);
    FreshKeyKeepsUniqueKeys(t, row);
    assert forall x :: x in t' <==> x in t || x == row;
    forall j | j in cache'
      ensures Row(cache'[j], j) in t'
    {
      if j != row.key {
        assert Row(cache[j], j) in t;
      }
    }
  }

  /**
   * On a cache that agrees with its table, get-or-create never fails, keeps
   * the agreement, and leaves the value stored under the id it returns.
   */
  lemma GetOrCreateAgrees<K>(t: Table<K>, cache: map<K, int>, k: K)
    requires Agrees(t, cache)
    ensures GetOrCreate(t, cache, k).Ok?
    ensures Agrees(GetOrCreate(t, cache, k).value.table, GetOrCreate(t, cache, k).value.cache)
    ensures Row(GetOrCreate(t, cache, k).value.id, k) in GetOrCreate(t, cache, k).value.table
    ensures Keys(GetOrCreate(t, cache, k).value.table) == Keys(t) + {k}
    ensures k in Keys(t) ==> GetOrCreate(t, cache, k).value.table == t
  {
    if k in cache {
      assert CacheSound(t, cache);
    } else {
      var g := GetOrCreate(t, cache, k).value;
      hide Agrees;
      AppendAgrees(t, cache, Row(g.id, k));
    }
  }

  /** The state addingdata.py carries from one record to the next. */
  datatype Session = Session(
    db: Db,
    countries: map<string, int>,
    products: map<string, int>,
    years: map<int, int>)

  /** The three caches agree with their tables, and sales ids are unique. */
  predicate Agree(s: Session)
  {
    && Agrees(s.db.countries, s.countries)
    && Agrees(s.db.products, s.products)
    && Agrees(s.db.years, s.years)
    && UniqueIds(s.db.sales)
  }

  /** The caches as the preload leaves them. */
  function Preloaded(db: Db): (s: Session)
    ensures s.db == db
    ensures s.countries.Keys == Keys(db.countries) && s.products.Keys == Keys(db.products)
    ensures s.years.Keys == Keys(db.years)
  {
    Session(db, CacheOf(db.countries), CacheOf(db.products), CacheOf(db.years))
  }

  lemma PreloadedAgree(db: Db)
    requires WellFormed(db)
    ensures Agree(Preloaded(db))
  {
    PreloadAgrees(db.countries);
    PreloadAgrees(db.products);
    PreloadAgrees(db.years);
  }

  /** One iteration of the loop over the feed. */
  function Step(s: Session, rec: Record): (r: Result<Session>)
    ensures r.Ok? ==> |r.value.db.sales| == |s.db.sales| + 1 && Extends(s.db, r.value.db)
    ensures r.Ok? ==> r.value.db.sales[|s.db.sales|].key.sale == rec.sale
  {
    match GetOrCreate(s.db.countries, s.countries, rec.country)
    case Err(e) => Err(e)
    case Ok(c) =>
      match GetOrCreate(s.db.products, s.products, rec.product)
      case Err(e) => Err(e)
      case Ok(p) =>
        match GetOrCreate(s.db.years, s.years, rec.year)
        case Err(e) => Err(e)
        case Ok(y) =>
          var sales := Append(s.db.sales, Fact(c.id, p.id, y.id, rec.sale));
          Ok(Session(Db(c.table, p.table, y.table, sales), c.cache, p.cache, y.cache))
  }

  /**
   * With agreeing caches one iteration succeeds, keeps the agreement, and
   * appends a sales row that refers to the record's rows.
   */
  lemma StepAgree(s: Session, rec: Record)
    requires Agree(s)
    ensures Step(s, rec).Ok? && Agree(Step(s, rec).value)
    ensures Refers(Step(s, rec).value.db, Step(s, rec).value.db.sales[|s.db.sales|].key, rec)
  {
    GetOrCreateAgrees(s.db.countries, s.countries, rec.country);
    GetOrCreateAgrees(s.db.products, s.products, rec.product);
    GetOrCreateAgrees(s.db.years, s.years, rec.year);
    var r := Step(s, rec).value;
    FreshIdKeepsUniqueIds(s.db.sales, r.db.sales[|s.db.sales|]);
  }

  /**
   * With agreeing caches one iteration adds to each dimension table exactly
   * the record's value, and nothing at all when the table already holds it.
   */
  lemma StepStores(s: Session, rec: Record)
    requires Agree(s)
    ensures Step(s, rec).Ok?
    ensures Keys(Step(s, rec).value.db.countries) == Keys(s.db.countries) + {rec.country}
    ensures Keys(Step(s, rec).value.db.products) == Keys(s.db.products) + {rec.product}
    ensures Keys(Step(s, rec).value.db.years) == Keys(s.db.years) + {rec.year}
    ensures rec.country in Keys(s.db.countries) ==> Step(s, rec).value.db.countries == s.db.countries
    ensures rec.product in Keys(s.db.products) ==> Step(s, rec).value.db.products == s.db.products
    ensures rec.year in Keys(s.db.years) ==> Step(s, rec).value.db.years == s.db.years
  {
    GetOrCreateAgrees(s.db.countries, s.countries, rec.country);
    GetOrCreateAgrees(s.db.products, s.products, rec.product);
    GetOrCreateAgrees(s.db.years, s.years, rec.year);
  }

  /** The loop over the feed; the first failing INSERT ends the run. */
  function Run(s: Session, data: seq<Record>): (r: Result<Session>)
    ensures r.Ok? ==> |r.value.db.sales| == |s.db.sales| + |data| && Extends(s.db, r.value.db)
    decreases |data|
  {
    if |data| == 0 then Ok(s)
    else
      match Run(s, data[..|data| - 1])
      case Err(e) => Err(e)
      case Ok(mid) => Step(mid, data[|data| - 1])
  }

  /** From agreeing caches the run never fails and keeps the caches agreeing. */
  lemma {:induction false} RunAgree(s: Session, data: seq<Record>)
    requires Agree(s)
    ensures Run(s, data).Ok? && Agree(Run(s, data).value)
    decreases |data|
  {
    hide Step, Agree;
    if |data| > 0 {
      var init := data[..|data| - 1];
      RunAgree(s, init);
      StepAgree(Run(s, init).value, data[|data| - 1]);
    }
  }

  /** The sales row the run appends for `data[i]` refers to the rows of that record. */
  lemma {:induction false} RunRefersAt(s: Session, data: seq<Record>, i: nat)
    requires Agree(s)
    requires i < |data|
    ensures Run(s, data).Ok?
    ensures Refers(Run(s, data).value.db, Run(s, data).value.db.sales[|s.db.sales| + i].key, data[i])
    decreases |data|
  {
    hide Step, Agree, Refers;
    var init, last := data[..|data| - 1], data[|data| - 1];
    RunAgree(s, init);
    var mid := Run(s, init).value;
    StepAgree(mid, last);
    var r := Step(mid, last).value;
    assert Run(s, data) == Ok(r);
    if i < |init| {
      RunRefersAt(s, init, i);
      assert init[i] == data[i];
      ExtendsRefers(mid.db, r.db, mid.db.sales[|s.db.sales| + i].key, init[i]);
      assert r.db.sales[|s.db.sales| + i] == mid.db.sales[|s.db.sales| + i];
    } else {
      assert |s.db.sales| + i == |mid.db.sales|;
    }
  }

  /** The countries table gains exactly the feed's countries it did not hold. */
  lemma {:induction false} RunStoresCountries(s: Session, data: seq<Record>)
    requires Agree(s)
    ensures Run(s, data).Ok?
    ensures Keys(Run(s, data).value.db.countries) == Keys(s.db.countries) + CountryNames(data)
    decreases |data|
  {
    hide Step, Agree;
    if |data| > 0 {
      var init := data[..|data| - 1];
      RunStoresCountries(s, init);
      RunAgree(s, init);
      StepStores(Run(s, init).value, data[|data| - 1]);
    }
  }

  /** As RunStoresCountries, for the products table. */
  lemma {:induction false} RunStoresProducts(s: Session, data: seq<Record>)
    requires Agree(s)
    ensures Run(s, data).Ok?
    ensures Keys(Run(s, data).value.db.products) == Keys(s.db.products) + ProductNames(data)
    decreases |data|
  {
    hide Step, Agree;
    if |data| > 0 {
      var init := data[..|data| - 1];
      RunStoresProducts(s, init);
      RunAgree(s, init);
      StepStores(Run(s, init).value, data[|data| - 1]);
    }
  }

  /** As RunStoresCountries, for the years table. */
  lemma {:induction false} RunStoresYears(s: Session, data: seq<Record>)
    requires Agree(s)
    ensures Run(s, data).Ok?
    ensures Keys(Run(s, data).value.db.years) == Keys(s.db.years) + YearValues(data)
    decreases |data|
  {
    hide Step, Agree;
    if |data| > 0 {
      var init := data[..|data| - 1];
      RunStoresYears(s, init);
      RunAgree(s, init);
      StepStores(Run(s, init).value, data[|data| - 1]);
    }
  }

  /** A run over values that are all stored already inserts no dimension row. */
  lemma {:induction false} RunOverStoredKeepsDimensions(s: Session, data: seq<Record>)
    requires Agree(s)
    requires CountryNames(data) <= Keys(s.db.countries)
    requires ProductNames(data) <= Keys(s.db.products)
    requires YearValues(data) <= Keys(s.db.years)
    ensures Run(s, data).Ok? && SameDimensions(Run(s, data).value.db, s.db)
    decreases |data|
  {
    hide Step, Agree;
    if |data| > 0 {
      var init := data[..|data| - 1];
      RunOverStoredKeepsDimensions(s, init);
      RunAgree(s, init);
      StepStores(Run(s, init).value, data[|data| - 1]);
    }
  }

  /** addingdata.py: preload the caches, then run the loop over the feed. */
  function Load(db: Db, data: seq<Record>): (r: Result<Db>)
    ensures r.Ok? ==> |r.value.sales| == |db.sales| + |data| && Extends(db, r.value)
  {
    match Run(Preloaded(db), data)
    case Err(e) => Err(e)
    case Ok(s) => Ok(s.db)
  }

  /**
   * On any database the schema admits the import succeeds, keeps the
   * constraints, and appends one sales row per record, in order, whose ids
   * are those of the record's country, product and year.
   */
  lemma LoadRecordsFacts(db: Db, data: seq<Record>)
    requires WellFormed(db)
    ensures Load(db, data).Ok?
    ensures WellFormed(Load(db, data).value)
    ensures RecordsFacts(Load(db, data).value, |db.sales|, data)
  {
    hide Step, Refers;
    PreloadedAgree(db);
    RunAgree(Preloaded(db), data);
    var r := Run(Preloaded(db), data).value;
    assert Load(db, data) == Ok(r.db);
    forall i | 0 <= i < |data|
      ensures Refers(r.db, r.db.sales[|db.sales| + i].key, data[i])
    {
      RunRefersAt(Preloaded(db), data, i);
    }
  }

  /** Each dimension table gains exactly the feed's values it did not hold. */
  lemma LoadStoresNewValues(db: Db, data: seq<Record>)
    requires WellFormed(db)
    ensures Load(db, data).Ok?
    ensures Keys(Load(db, data).value.countries) == Keys(db.countries) + CountryNames(data)
    ensures Keys(Load(db, data).value.products) == Keys(db.products) + ProductNames(data)
    ensures Keys(Load(db, data).value.years) == Keys(db.years) + YearValues(data)
  {
    PreloadedAgree(db);
    RunStoresCountries(Preloaded(db), data);
    RunStoresProducts(Preloaded(db), data);
    RunStoresYears(Preloaded(db), data);
  }

  /**
   * Importing the same feed again leaves every dimension table exactly as
   * the first import left it, while the sales table grows by one row per
   * record again.
   */
  lemma LoadTwiceKeepsDimensions(db: Db, data: seq<Record>)
    requires WellFormed(db)
    ensures Load(db, data).Ok? && Load(Load(db, data).value, data).Ok?
    ensures SameDimensions(Load(Load(db, data).value, data).value, Load(db, data).value)
    ensures |Load(Load(db, data).value, data).value.sales| == |Load(db, data).value.sales| + |data|
  {
    LoadRecordsFacts(db, data);
    LoadStoresNewValues(db, data);
    var once := Load(db, data).value;
    PreloadedAgree(once);
    RunOverStoredKeepsDimensions(Preloaded(once), data);
  }
}
