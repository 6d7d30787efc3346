/**
 * The importer of report.py (`DataImporter.populate_data`): a per-run cache
 * from name to id in front of `INSERT OR IGNORE` on the UNIQUE dimension
 * columns, and one sales row per record.
 *
 * The connection's last-insert rowid is part of the state: SQLite leaves it
 * unchanged when an `INSERT OR IGNORE` is ignored, and report.py reads it as
 * the id of the name it just tried to insert. `IdSource` selects between that
 * behaviour as written (`LastRowid`) and the corrected one that reads the id
 * back by name (`LookupByName`).
 */
module IgnoreImport {
  import opened Tables
  import opened Schema

  /** Where a cache miss takes the name's id from. */
  datatype IdSource = LastRowid | LookupByName

  /** The outcome of one `if name not in cache` block. */
  datatype Resolution<K> = Resolution(table: Table<K>, cache: map<K, int>, lastRowid: int, id: int)

  /**
   * Get-or-create of one dimension value: a cache hit reuses the cached id and
   * touches nothing; a miss issues `INSERT OR IGNORE` and caches the id it reads.
   */
  function ResolveName<K(==)>(source: IdSource, t: Table<K>, cache: map<K, int>, lastRowid: int, k: K): (r: Resolution<K>)
    ensures cache.Keys <= Keys(t) ==> Keys(r.table) == Keys(t) + {k}
    ensures r.cache.Keys == cache.Keys + {k} && r.cache[k] == r.id
    ensures forall j :: j in cache ==> j in r.cache && r.cache[j] == cache[j]
    ensures k in cache ==> r.table == t && r.id == cache[k] && r.lastRowid == lastRowid
    ensures k in Keys(t) ==> r.table == t && r.lastRowid == lastRowid
    ensures k !in cache && k in Keys(t) && source == LastRowid ==> r.id == lastRowid
    ensures k !in cache && k !in Keys(t) ==> r.table == t + [Row(r.id, k)] && r.id !in Ids(t) && r.lastRowid == r.id
    ensures t <= r.table
  {
    if k in cache then Resolution(t, cache, lastRowid, cache[k])
    else
      var t' := InsertOrIgnore(t, k);
      var last := if LookupId(t, k).Some? then lastRowid else NextId(t);
      var id := match source
        case LastRowid => last
        case LookupByName => LookupId(t', k).value;
      Resolution(t', cache[k := id], last, id)
  }

  /** Get-or-create keeps the PRIMARY KEY and UNIQUE constraints of its table. */
  lemma ResolveNameKeepsConstraints<K>(source: IdSource, t: Table<K>, cache: map<K, int>, lastRowid: int, k: K)
    requires UniqueIds(t) && UniqueKeys(t)
    ensures UniqueIds(ResolveName(source, t, cache, lastRowid, k).table)
    ensures UniqueKeys(ResolveName(source, t, cache, lastRowid, k).table)
  {
    InsertOrIgnoreKeepsConstraints(t, k);
  }

  /** The state `populate_data` carries from one record to the next. */
  datatype Session = Session(
    db: Db,
    lastRowid: int,
    countries: map<string, int>,
    products: map<string, int>,
    years: map<int, int>)

  /** One iteration of the loop over the feed. */
  function Step(source: IdSource, s: Session, rec: Record): (r: Session)
    ensures |r.db.sales| == |s.db.sales| + 1 && r.db.sales[|s.db.sales|].key.sale == rec.sale
    ensures Extends(s.db, r.db)
    ensures s.countries.Keys <= Keys(s.db.countries) ==>
      r.countries.Keys <= Keys(r.db.countries) && Keys(r.db.countries) == Keys(s.db.countries) + {rec.country}
    ensures s.products.Keys <= Keys(s.db.products) ==>
      r.products.Keys <= Keys(r.db.products) && Keys(r.db.products) == Keys(s.db.products) + {rec.product}
    ensures s.years.Keys <= Keys(s.db.years) ==>
      r.years.Keys <= Keys(r.db.years) && Keys(r.db.years) == Keys(s.db.years) + {rec.year}
    ensures rec.country in Keys(s.db.countries) ==> r.db.countries == s.db.countries
    ensures rec.product in Keys(s.db.products) ==> r.db.products == s.db.products
    ensures rec.year in Keys(s.db.years) ==> r.db.years == s.db.years
  {
    var c := ResolveName(source, s.db.countries, s.countries, s.lastRowid, rec.country);
    var p := ResolveName(source, s.db.products, s.products, c.lastRowid, rec.product);
    var y := ResolveName(source, s.db.years, s.years, p.lastRowid, rec.year);
    var sales := Append(s.db.sales, Fact(c.id, p.id, y.id, rec.sale));
    Session(Db(c.table, p.table, y.table, sales), NextId(s.db.sales), c.cache, p.cache, y.cache)
  }

  /** One iteration keeps the PRIMARY KEY and UNIQUE constraints. */
  lemma StepWellFormed(source: IdSource, s: Session, rec: Record)
    requires WellFormed(s.db)
    ensures WellFormed(Step(source, s, rec).db)
  {
    var c := ResolveName(source, s.db.countries, s.countries, s.lastRowid, rec.country);
    var p := ResolveName(source, s.db.products, s.products, c.lastRowid, rec.product);
    ResolveNameKeepsConstraints(source, s.db.countries, s.countries, s.lastRowid, rec.country);
    ResolveNameKeepsConstraints(source, s.db.products, s.products, c.lastRowid, rec.product);
    ResolveNameKeepsConstraints(source, s.db.years, s.years, p.lastRowid, rec.year);
    FreshIdKeepsUniqueIds(s.db.sales, Step(source, s, rec).db.sales[|s.db.sales|]);
  }

  /** The loop over the feed: one Step per record, in order. */
  function Run(source: IdSource, s: Session, data: seq<Record>): (r: Session)
    ensures |r.db.sales| == |s.db.sales| + |data|
    ensures Extends(s.db, r.db)
    decreases |data|
  {
    if |data| == 0 then s
    else Step(source, Run(source, s, data[..|data| - 1]), data[|data| - 1])
  }

  /** The run appends one sales row per record, in the feed's order, carrying its sale. */
  lemma {:induction false} RunSaleAt(source: IdSource, s: Session, data: seq<Record>, i: nat)
    requires i < |data|
    ensures Run(source, s, data).db.sales[|s.db.sales| + i].key.sale == data[i].sale
    decreases |data|
  {
    hide Step;
    var init, last := data[..|data| - 1], data[|data| - 1];
    var mid := Run(source, s, init);
    var r := Step(source, mid, last);
    assert Run(source, s, data) == r;
    if i < |init| {
      RunSaleAt(source, s, init, i);
      assert mid.db.sales <= r.db.sales;
      assert r.db.sales[|s.db.sales| + i] == mid.db.sales[|s.db.sales| + i];
      assert init[i] == data[i];
    } else {
      assert |s.db.sales| + i == |mid.db.sales|;
    }
  }

  /**
   * Get-or-create adds to the countries table exactly the feed's countries it
   * did not hold: every country of the feed is stored afterwards, and nothing else.
   */
  lemma {:induction false} RunStoredCountries(source: IdSource, s: Session, data: seq<Record>)
    requires s.countries.Keys <= Keys(s.db.countries)
    ensures Run(source, s, data).countries.Keys <= Keys(Run(source, s, data).db.countries)
    ensures Keys(Run(source, s, data).db.countries) == Keys(s.db.countries) + CountryNames(data)
    decreases |data|
  {
    hide Step;
    if |data| > 0 {
      var mid := Run(source, s, data[..|data| - 1]);
      assert Run(source, s, data) == Step(source, mid, data[|data| - 1]);
      RunStoredCountries(source, s, data[..|data| - 1]);
    }
  }

  /** As RunStoredCountries, for the products table. */
  lemma {:induction false} RunStoredProducts(source: IdSource, s: Session, data: seq<Record>)
    requires s.products.Keys <= Keys(s.db.products)
    ensures Run(source, s, data).products.Keys <= Keys(Run(source, s, data).db.products)
    ensures Keys(Run(source, s, data).db.products) == Keys(s.db.products) + ProductNames(data)
    decreases |data|
  {
    hide Step;
    if |data| > 0 {
      var mid := Run(source, s, data[..|data| - 1]);
      assert Run(source, s, data) == Step(source, mid, data[|data| - 1]);
      RunStoredProducts(source, s, data[..|data| - 1]);
    }
  }

  /** As RunStoredCountries, for the years table. */
  lemma {:induction false} RunStoredYears(source: IdSource, s: Session, data: seq<Record>)
    requires s.years.Keys <= Keys(s.db.years)
    ensures Run(source, s, data).years.Keys <= Keys(Run(source, s, data).db.years)
    ensures Keys(Run(source, s, data).db.years) == Keys(s.db.years) + YearValues(data)
    decreases |data|
  {
    hide Step;
    if |data| > 0 {
      var mid := Run(source, s, data[..|data| - 1]);
      assert Run(source, s, data) == Step(source, mid, data[|data| - 1]);
      RunStoredYears(source, s, data[..|data| - 1]);
    }
  }

  /** A run keeps the PRIMARY KEY and UNIQUE constraints. */
  lemma {:induction false} RunWellFormed(source: IdSource, s: Session, data: seq<Record>)
    requires WellFormed(s.db)
    ensures WellFormed(Run(source, s, data).db)
    decreases |data|
  {
    hide Step;
    if |data| > 0 {
      RunWellFormed(source, s, data[..|data| - 1]);
      StepWellFormed(source, Run(source, s, data[..|data| - 1]), data[|data| - 1]);
    }
  }

  /**
   * `populate_data` on a fresh connection (last-insert rowid 0) with empty
   * caches: rows are only appended, one sales row per record, and each
   * dimension ends up holding its old values and the feed's.
   */
  function Populate(source: IdSource, db: Db, data: seq<Record>): (r: Db)
    ensures Extends(db, r) && |r.sales| == |db.sales| + |data|
    ensures Keys(r.countries) == Keys(db.countries) + CountryNames(data)
    ensures Keys(r.products) == Keys(db.products) + ProductNames(data)
    ensures Keys(r.years) == Keys(db.years) + YearValues(data)
  {
    var s := Session(db, 0, map[], map[], map[]);
    RunStoredCountries(source, s, data);
    RunStoredProducts(source, s, data);
    RunStoredYears(source, s, data);
    Run(source, s, data).db
  }

  /** The importer of report.py as written. */
  function PopulateData(db: Db, data: seq<Record>): (r: Db)
    ensures Extends(db, r) && |r.sales| == |db.sales| + |data|
    ensures Keys(r.countries) == Keys(db.countries) + CountryNames(data)
    ensures Keys(r.products) == Keys(db.products) + ProductNames(data)
    ensures Keys(r.years) == Keys(db.years) + YearValues(data)
  {
    Populate(LastRowid, db, data)
  }

  /** The importer of report.py with each missed id read back by name. */
  function PopulateDataFixed(db: Db, data: seq<Record>): (r: Db)
    ensures Extends(db, r) && |r.sales| == |db.sales| + |data|
    ensures Keys(r.countries) == Keys(db.countries) + CountryNames(data)
    ensures Keys(r.products) == Keys(db.products) + ProductNames(data)
    ensures Keys(r.years) == Keys(db.years) + YearValues(data)
  {
    Populate(LookupByName, db, data)
  }

  /** No value of `names` is stored in the table unless the run has cached it. */
  predicate Unseen<K(==)>(t: Table<K>, cache: map<K, int>, names: set<K>)
  {
    forall k :: k in names && k in Keys(t) ==> k in cache
  }

  /**
   * What a miss needs to read a correct id: the corrected importer always
   * does; the importer as written only when the insert really happens.
   */
  predicate Tracking(source: IdSource, s: Session, cs: set<string>, ps: set<string>, ys: set<int>)
  {
    && WellFormed(s.db)
    && CacheSound(s.db.countries, s.countries)
    && CacheSound(s.db.products, s.products)
    && CacheSound(s.db.years, s.years)
    && (source == LastRowid ==>
          && Unseen(s.db.countries, s.countries, cs)
          && Unseen(s.db.products, s.products, ps)
          && Unseen(s.db.years, s.years, ys))
  }

  lemma ResolveNameTracks<K>(source: IdSource, t: Table<K>, cache: map<K, int>, lastRowid: int, k: K, names: set<K>)
    requires UniqueIds(t) && UniqueKeys(t) && CacheSound(t, cache)
    requires source == LastRowid ==> Unseen(t, cache, names) && k in names
    ensures var r := ResolveName(source, t, cache, lastRowid, k);
      && Row(r.id, k) in r.table
      && CacheSound(r.table, r.cache)
      && (source == LastRowid ==> Unseen(r.table, r.cache, names))
  {
    var r := ResolveName(source, t, cache, lastRowid, k);
    assert r.table == t + r.table[|t|..];
    if k !in cache && k in Keys(t) {
      assert source == LookupByName;
    }
  }

  /** One iteration keeps tracking and appends a sales row that refers to its record. */
  lemma StepTracks(source: IdSource, s: Session, rec: Record, cs: set<string>, ps: set<string>, ys: set<int>)
    requires Tracking(source, s, cs, ps, ys)
    requires rec.country in cs && rec.product in ps && rec.year in ys
    ensures Tracking(source, Step(source, s, rec), cs, ps, ys)
    ensures Refers(Step(source, s, rec).db, Step(source, s, rec).db.sales[|s.db.sales|].key, rec)
  {
    var c := ResolveName(source, s.db.countries, s.countries, s.lastRowid, rec.country);
    ResolveNameTracks(source, s.db.countries, s.countries, s.lastRowid, rec.country, cs);
    var p := ResolveName(source, s.db.products, s.products, c.lastRowid, rec.product);
    ResolveNameTracks(source, s.db.products, s.products, c.lastRowid, rec.product, ps);
    ResolveNameTracks(source, s.db.years, s.years, p.lastRowid, rec.year, ys);
    StepWellFormed(source, s, rec);
  }

  /** Tracking holds throughout a run over values it covers. */
  lemma {:induction false} RunTracking(source: IdSource, s: Session, data: seq<Record>, cs: set<string>, ps: set<string>, ys: set<int>)
    requires Tracking(source, s, cs, ps, ys)
    requires CountryNames(data) <= cs && ProductNames(data) <= ps && YearValues(data) <= ys
    ensures Tracking(source, Run(source, s, data), cs, ps, ys)
    decreases |data|
  {
    hide Step, Tracking;
    if |data| > 0 {
      var init, last := data[..|data| - 1], data[|data| - 1];
      RunTracking(source, s, init, cs, ps, ys);
      StepTracks(source, Run(source, s, init), last, cs, ps, ys);
    }
  }

  /** The sales row a run appends for `data[i]` refers to the rows of that record. */
  lemma {:induction false} RunRefersAt(source: IdSource, s: Session, data: seq<Record>, cs: set<string>, ps: set<string>, ys: set<int>, i: nat)
    requires Tracking(source, s, cs, ps, ys)
    requires CountryNames(data) <= cs && ProductNames(data) <= ps && YearValues(data) <= ys
    requires i < |data|
    ensures Refers(Run(source, s, data).db, Run(source, s, data).db.sales[|s.db.sales| + i].key, data[i])
    decreases |data|
  {
    hide Step, Tracking, Refers;
    var init, last := data[..|data| - 1], data[|data| - 1];
    var mid := Run(source, s, init);
    var r := Step(source, mid, last);
    assert Run(source, s, data) == r;
    if i < |init| {
      RunRefersAt(source, s, init, cs, ps, ys, i);
      assert init[i] == data[i];
      ExtendsRefers(mid.db, r.db, mid.db.sales[|s.db.sales| + i].key, init[i]);
      assert r.db.sales[|s.db.sales| + i] == mid.db.sales[|s.db.sales| + i];
    } else {
      RunTracking(source, s, init, cs, ps, ys);
      StepTracks(source, mid, last, cs, ps, ys);
      assert |s.db.sales| + i == |mid.db.sales|;
    }
  }

  /** Tracking holds after the run, and every row it appends refers to its record. */
  lemma RunTracks(source: IdSource, s: Session, data: seq<Record>, cs: set<string>, ps: set<string>, ys: set<int>)
    requires Tracking(source, s, cs, ps, ys)
    requires CountryNames(data) <= cs && ProductNames(data) <= ps && YearValues(data) <= ys
    ensures Tracking(source, Run(source, s, data), cs, ps, ys)
    ensures RecordsFacts(Run(source, s, data).db, |s.db.sales|, data)
  {
    RunTracking(source, s, data, cs, ps, ys);
    forall i | 0 <= i < |data|
      ensures Refers(Run(source, s, data).db, Run(source, s, data).db.sales[|s.db.sales| + i].key, data[i])
    {
      RunRefersAt(source, s, data, cs, ps, ys, i);
    }
  }

  /**
   * The importer as written stores correct ids when none of the feed's values
   * is in the database yet (in particular, on empty tables): every inserted
   * sales row references the rows of its own record.
   */
  lemma PopulateDataRefersWhenUnseen(db: Db, data: seq<Record>)
    requires WellFormed(db)
    requires Keys(db.countries) !! CountryNames(data)
    requires Keys(db.products) !! ProductNames(data)
    requires Keys(db.years) !! YearValues(data)
    ensures WellFormed(PopulateData(db, data))
    ensures RecordsFacts(PopulateData(db, data), |db.sales|, data)
  {
    RunTracks(LastRowid, Session(db, 0, map[], map[], map[]), data, CountryNames(data), ProductNames(data), YearValues(data));
  }

  /** The corrected importer stores correct ids whatever the database already holds. */
  lemma PopulateDataFixedRefers(db: Db, data: seq<Record>)
    requires WellFormed(db)
    ensures WellFormed(PopulateDataFixed(db, data))
    ensures RecordsFacts(PopulateDataFixed(db, data), |db.sales|, data)
  {
    RunTracks(LookupByName, Session(db, 0, map[], map[], map[]), data, CountryNames(data), ProductNames(data), YearValues(data));
  }

  /**
   * A run over values that are all stored already inserts no dimension row,
   * whatever the ids it reads.
   */
  lemma {:induction false} RunOverStoredKeepsDimensions(source: IdSource, s: Session, data: seq<Record>)
    requires CountryNames(data) <= Keys(s.db.countries)
    requires ProductNames(data) <= Keys(s.db.products)
    requires YearValues(data) <= Keys(s.db.years)
    ensures SameDimensions(Run(source, s, data).db, s.db)
    decreases |data|
  {
    hide Step;
    if |data| > 0 {
      var init := data[..|data| - 1];
      var last := data[|data| - 1];
      assert data == init + [last];
      assert last in data;
      RunOverStoredKeepsDimensions(source, s, init);
    }
  }

  /**
   * Importing the same feed twice: the dimension tables hold one row per
   * distinct value after the first run and the second run leaves them as they
   * are, while the sales table grows by one row per record again.
   */
  lemma PopulateTwiceKeepsDimensions(source: IdSource, db: Db, data: seq<Record>)
    ensures |Populate(source, db, data).sales| == |db.sales| + |data|
    ensures SameDimensions(Populate(source, Populate(source, db, data), data), Populate(source, db, data))
    ensures |Populate(source, Populate(source, db, data), data).sales| == |Populate(source, db, data).sales| + |data|
  {
    var s0 := Session(db, 0, map[], map[], map[]);
    RunStoredCountries(source, s0, data);
    RunStoredProducts(source, s0, data);
    RunStoredYears(source, s0, data);
    RunOverStoredKeepsDimensions(source, Session(Populate(source, db, data), 0, map[], map[], map[]), data);
  }

  /**
   * The UNIQUE columns keep every dimension table free of repeated values
   * across runs, so each table grows by exactly the number of values it did
   * not hold yet.
   */
  lemma PopulateGrowsByNewValues(source: IdSource, db: Db, data: seq<Record>)
    requires WellFormed(db)
    ensures WellFormed(Populate(source, db, data))
    ensures |Populate(source, db, data).countries| == |Keys(db.countries) + CountryNames(data)|
    ensures |Populate(source, db, data).products| == |Keys(db.products) + ProductNames(data)|
    ensures |Populate(source, db, data).years| == |Keys(db.years) + YearValues(data)|
  {
    var s0 := Session(db, 0, map[], map[], map[]);
    var r := Populate(source, db, data);
    RunStoredCountries(source, s0, data);
    RunStoredProducts(source, s0, data);
    RunStoredYears(source, s0, data);
    RunWellFormed(source, s0, data);
    UniqueKeysCount(r.countries);
    UniqueKeysCount(r.products);
    UniqueKeysCount(r.years);
  }
}
