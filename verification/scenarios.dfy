/**
 * Worked examples on small feeds: what report.py's importer stores when the
 * same feed is imported into a fresh database and then once more into the
 * database the first run left (as running the script twice does), and what
 * the reports then show.
 */
module Scenarios {
  import opened Tables
  import opened Schema
  import opened Grouping
  import opened Sorting
  import opened IgnoreImport
  import opened Reports

  function Sample(): Record
  {
    Record("X", "Gasoline", 2009, 10)
  }

  /** The database a first run over `[Sample()]` leaves. */
  function FirstRun(): Db
  {
    Db([Row(1, "X")], [Row(1, "Gasoline")], [Row(1, 2009)], [Row(1, Fact(1, 1, 1, 10))])
  }

  /** On a fresh database both importers store the record with the ids of its rows. */
  lemma FirstImport()
    ensures PopulateData(EmptyDb(), [Sample()]) == FirstRun()
    ensures PopulateDataFixed(EmptyDb(), [Sample()]) == FirstRun()
  {
    hide Keys, CountryNames, ProductNames, YearValues;
    var s0 := Session(EmptyDb(), 0, map[], map[], map[]);
    assert [Sample()][..0] == [];
    assert Run(LastRowid, s0, [Sample()]) == Step(LastRowid, s0, Sample());
    assert Run(LookupByName, s0, [Sample()]) == Step(LookupByName, s0, Sample());
  }

  /**
   * A second run of report.py's importer over the same feed: every name is
   * already stored, each INSERT OR IGNORE is ignored, and the ids read from
   * the unchanged last-insert rowid (0 on the new connection) name no row.
   * The sale is stored, but no join can reach it.
   */
  lemma SecondImportDangles()
    ensures PopulateData(FirstRun(), [Sample()]).sales == FirstRun().sales + [Row(2, Fact(0, 0, 0, 10))]
    ensures !Refers(PopulateData(FirstRun(), [Sample()]), Fact(0, 0, 0, 10), Sample())
    ensures SumRef(PopulateData(FirstRun(), [Sample()]).sales, ProductDim, 1) == 10
  {
    var s0 := Session(FirstRun(), 0, map[], map[], map[]);
    assert [Sample()][..0] == [];
    assert Run(LastRowid, s0, [Sample()]) == Step(LastRowid, s0, Sample());
    assert LookupId(FirstRun().countries, "X") == Some(1);
    assert LookupId(FirstRun().products, "Gasoline") == Some(1);
    assert LookupId(FirstRun().years, 2009) == Some(1);
    var db := PopulateData(FirstRun(), [Sample()]);
    assert db.sales[..1] == FirstRun().sales;
  }

  /** The corrected importer reads the stored ids back and the second sale is counted. */
  lemma SecondImportFixed()
    ensures PopulateDataFixed(FirstRun(), [Sample()]).sales == FirstRun().sales + [Row(2, Fact(1, 1, 1, 10))]
    ensures SumRef(PopulateDataFixed(FirstRun(), [Sample()]).sales, ProductDim, 1) == 20
  {
    var s0 := Session(FirstRun(), 0, map[], map[], map[]);
    assert [Sample()][..0] == [];
    assert Run(LookupByName, s0, [Sample()]) == Step(LookupByName, s0, Sample());
    assert LookupId(FirstRun().countries, "X") == Some(1);
    assert LookupId(FirstRun().products, "Gasoline") == Some(1);
    assert LookupId(FirstRun().years, 2009) == Some(1);
    var db := PopulateDataFixed(FirstRun(), [Sample()]);
    assert db.sales[..1] == FirstRun().sales;
  }

  /** The database the second run of report.py's importer leaves. */
  function SecondRun(): Db
  {
    FirstRun().(sales := FirstRun().sales + [Row(2, Fact(0, 0, 0, 10))])
  }

  /** The database the second run of the corrected importer leaves. */
  function SecondRunFixed(): Db
  {
    FirstRun().(sales := FirstRun().sales + [Row(2, Fact(1, 1, 1, 10))])
  }

  lemma SecondRuns()
    ensures PopulateData(FirstRun(), [Sample()]) == SecondRun()
    ensures PopulateDataFixed(FirstRun(), [Sample()]) == SecondRunFixed()
  {
    SecondImportDangles();
    SecondImportFixed();
    FirstImport();
    PopulateTwiceKeepsDimensions(LastRowid, EmptyDb(), [Sample()]);
    PopulateTwiceKeepsDimensions(LookupByName, EmptyDb(), [Sample()]);
  }

  /** A product that some sales row references has its row in the totals report. */
  lemma ProductTotal(db: Db, id: int, name: string, sum: int, count: int)
    requires UniqueIds(db.products) && Resolve(db.products, id) == Some(name)
    requires SumRef(db.sales, ProductDim, id) == sum && CountRef(db.sales, ProductDim, id) == count > 0
    ensures exists i :: 0 <= i < |TotalSales(db)| && TotalSales(db)[i] == Agg(Named(id, name), sum, count)
  {
    assert TotalSales(db) == Totals(db, ProductDim);
    hide SumRef, CountRef, Resolve, JoinDim, Group, DistinctKeys, TotalSales, Totals;
    TotalsSpec(db, ProductDim);
    var i :| 0 <= i < |Totals(db, ProductDim)| && Totals(db, ProductDim)[i].key.id == id;
    assert TotalSales(db)[i] == Agg(Named(id, name), sum, count);
  }

  /** After the second run of report.py's importer the totals report shows 10 for Gasoline, not 20. */
  lemma SecondRunTotals()
    ensures exists i :: 0 <= i < |TotalSales(SecondRun())| && TotalSales(SecondRun())[i] == Agg(Named(1, "Gasoline"), 10, 1)
  {
    var db := SecondRun();
    assert Resolve(db.products, 1) == Some("Gasoline");
    assert db.sales[..1] == [Row(1, Fact(1, 1, 1, 10))];
    assert SumRef(db.sales, ProductDim, 1) == 10;
    assert CountRef(db.sales, ProductDim, 1) == 1;
    hide SecondRun, SumRef, CountRef, Resolve, TotalSales;
    ProductTotal(db, 1, "Gasoline", 10, 1);
  }

  /** After the second run of the corrected importer it shows both sales. */
  lemma SecondRunFixedTotals()
    ensures exists i :: 0 <= i < |TotalSales(SecondRunFixed())| && TotalSales(SecondRunFixed())[i] == Agg(Named(1, "Gasoline"), 20, 2)
  {
    var db := SecondRunFixed();
    assert Resolve(db.products, 1) == Some("Gasoline");
    assert db.sales[..1] == [Row(1, Fact(1, 1, 1, 10))];
    assert SumRef(db.sales, ProductDim, 1) == 20;
    assert CountRef(db.sales, ProductDim, 1) == 2;
    hide SecondRunFixed, SumRef, CountRef, Resolve, TotalSales;
    ProductTotal(db, 1, "Gasoline", 20, 2);
  }

  function EarlyBucket(): Bucket
  {
    Bucket("Gasoline", Reports.Early)
  }

  function LateBucket(): Bucket
  {
    Bucket("Gasoline", Reports.Late)
  }

  /** Sales in 2009, 2012 and 2010 (twice, once not positive). */
  function Mixed(): Db
  {
    Db([Row(1, "X")],
       [Row(1, "Gasoline")],
       [Row(1, 2009), Row(2, 2012), Row(3, 2010)],
       [Row(1, Fact(1, 1, 1, 10)), Row(2, Fact(1, 1, 2, 20)), Row(3, Fact(1, 1, 3, -5)), Row(4, Fact(1, 1, 3, 30))])
  }

  /** The rows the join on the primary keys finds for each id of `Mixed()`. */
  lemma MixedMatches()
    ensures Matches(Mixed().products, 1) == ["Gasoline"]
    ensures Matches(Mixed().years, 1) == [2009]
    ensures Matches(Mixed().years, 2) == [2012]
    ensures Matches(Mixed().years, 3) == [2010]
  {
    var ys := Mixed().years;
    assert ys[1..][1..][1..] == [];
    assert ys[1..][1..] == [Row(3, 2010)];
  }

  /** One product row joined with one year row. */
  lemma CrossOne(product: string, year: int, sale: int)
    ensures Cross([product], [year], sale) == [Entry(Bucket(product, IntervalOf(year)), sale)]
  {
    assert Each(product, [year], sale) == [Entry(Bucket(product, IntervalOf(year)), sale)];
  }

  /** The rows the join and the WHERE clause produce for one sales row. */
  function RowJoin(row: Row<Fact>, products: Table<string>, years: Table<int>): seq<Entry<Bucket>>
  {
    if row.key.sale > 0 then Cross(Matches(products, row.key.productId), Matches(years, row.key.yearId), row.key.sale) else []
  }

  /** The join over one more sales row adds that row's joined rows at the end. */
  lemma AvgJoinSnoc(sales: Table<Fact>, row: Row<Fact>, products: Table<string>, years: Table<int>)
    ensures AvgJoin(sales + [row], products, years) == AvgJoin(sales, products, years) + RowJoin(row, products, years)
  {
    assert (sales + [row])[..|sales|] == sales;
  }

  /** The join over four sales rows, row by row. */
  lemma AvgJoinFour(r1: Row<Fact>, r2: Row<Fact>, r3: Row<Fact>, r4: Row<Fact>, products: Table<string>, years: Table<int>)
    ensures AvgJoin([r1, r2, r3, r4], products, years)
      == RowJoin(r1, products, years) + RowJoin(r2, products, years) + RowJoin(r3, products, years) + RowJoin(r4, products, years)
  {
    hide RowJoin, Cross, Matches;
    assert AvgJoin([], products, years) == [];
    assert [] + [r1] == [r1] && [r1] + [r2] == [r1, r2] && [r1, r2] + [r3] == [r1, r2, r3] && [r1, r2, r3] + [r4] == [r1, r2, r3, r4];
    AvgJoinSnoc([], r1, products, years);
    AvgJoinSnoc([r1], r2, products, years);
    AvgJoinSnoc([r1, r2], r3, products, years);
    AvgJoinSnoc([r1, r2, r3], r4, products, years);
  }

  /** What each sale of `Mixed()` joins to. */
  lemma MixedRows()
    ensures RowJoin(Mixed().sales[0], Mixed().products, Mixed().years) == [Entry(EarlyBucket(), 10)]
    ensures RowJoin(Mixed().sales[1], Mixed().products, Mixed().years) == [Entry(LateBucket(), 20)]
    ensures RowJoin(Mixed().sales[2], Mixed().products, Mixed().years) == []
    ensures RowJoin(Mixed().sales[3], Mixed().products, Mixed().years) == [Entry(EarlyBucket(), 30)]
  {
    MixedMatches();
    CrossOne("Gasoline", 2009, 10);
    CrossOne("Gasoline", 2012, 20);
    CrossOne("Gasoline", 2010, 30);
    hide Cross, Matches;
  }

  /** The joined rows of `Mixed()`: the non-positive sale joins nothing. */
  lemma MixedJoin()
    ensures AvgJoin(Mixed().sales, Mixed().products, Mixed().years) == [Entry(EarlyBucket(), 10), Entry(LateBucket(), 20), Entry(EarlyBucket(), 30)]
  {
    hide AvgJoin, RowJoin, Cross, Matches;
    var s, p, y := Mixed().sales, Mixed().products, Mixed().years;
    assert s == [s[0], s[1], s[2], s[3]];
    MixedRows();
    hide Mixed;
    AvgJoinFour(s[0], s[1], s[2], s[3], p, y);
    assert [Entry(EarlyBucket(), 10)] + [Entry(LateBucket(), 20)] + [] + [Entry(EarlyBucket(), 30)]
      == [Entry(EarlyBucket(), 10), Entry(LateBucket(), 20), Entry(EarlyBucket(), 30)];
  }

  lemma MixedGroup()
    ensures Group([Entry(EarlyBucket(), 10), Entry(LateBucket(), 20), Entry(EarlyBucket(), 30)])
      == [Agg(EarlyBucket(), 40, 2), Agg(LateBucket(), 20, 1)]
  {
    var items := [Entry(EarlyBucket(), 10), Entry(LateBucket(), 20), Entry(EarlyBucket(), 30)];
    assert items[..1][..0] == [] && items[..2][..1] == items[..1] && items[..3] == items;
    assert Group(items[..1]) == AddTo([], items[0]) == [Agg(EarlyBucket(), 10, 1)];
    assert Group(items[..2]) == AddTo([Agg(EarlyBucket(), 10, 1)], items[1]);
    assert AddTo([Agg(EarlyBucket(), 10, 1)], items[1]) == [Agg(EarlyBucket(), 10, 1)] + AddTo([], items[1]);
    assert Group(items) == AddTo([Agg(EarlyBucket(), 10, 1), Agg(LateBucket(), 20, 1)], items[2]);
  }

  /** The averages report drops the non-positive sale and puts 2010 with 2009, not with 2012. */
  lemma AverageExample()
    ensures AverageSales(Mixed()) == [Agg(EarlyBucket(), 40, 2), Agg(LateBucket(), 20, 1)]
  {
    var gs := [Agg(EarlyBucket(), 40, 2), Agg(LateBucket(), 20, 1)];
    MixedJoin();
    MixedGroup();
    assert AverageSales(Mixed()) == SortBy(gs, BucketLe);
    LabelOrder(Reports.Early, Reports.Late);
    assert BucketLe(gs[0], gs[1]);
    assert SortBy(gs[1..], BucketLe) == [gs[1]];
  }

  // ---------------------------------------------------------------------
  // Two records, two countries, one product, one year in each interval

  function RecX(): Record
  {
    Record("X", "Gasoline", 2009, 10)
  }

  function RecY(): Record
  {
    Record("Y", "Gasoline", 2012, 20)
  }

  /** The session after the first record on a fresh connection. */
  function AfterX(): IgnoreImport.Session
  {
    IgnoreImport.Session(
      Db([Row(1, "X")], [Row(1, "Gasoline")], [Row(1, 2009)], [Row(1, Fact(1, 1, 1, 10))]),
      1, map["X" := 1], map["Gasoline" := 1], map[2009 := 1])
  }

  /** The database the import of both records leaves. */
  function BothRun(): Db
  {
    Db([Row(1, "X"), Row(2, "Y")], [Row(1, "Gasoline")], [Row(1, 2009), Row(2, 2012)],
       [Row(1, Fact(1, 1, 1, 10)), Row(2, Fact(2, 1, 2, 20))])
  }

  lemma StepX()
    ensures IgnoreImport.Step(LastRowid, IgnoreImport.Session(EmptyDb(), 0, map[], map[], map[]), RecX()) == AfterX()
  {
  }

  /** The second record's new country and year are inserted under id 2; its product is cached. */
  lemma ResolveY()
    ensures ResolveName(LastRowid, [Row(1, "X")], map["X" := 1], 1, "Y")
      == Resolution([Row(1, "X"), Row(2, "Y")], map["X" := 1, "Y" := 2], 2, 2)
    ensures ResolveName(LastRowid, [Row(1, "Gasoline")], map["Gasoline" := 1], 2, "Gasoline")
      == Resolution([Row(1, "Gasoline")], map["Gasoline" := 1], 2, 1)
    ensures ResolveName(LastRowid, [Row(1, 2009)], map[2009 := 1], 2, 2012)
      == Resolution([Row(1, 2009), Row(2, 2012)], map[2009 := 1, 2012 := 2], 2, 2)
  {
    assert LookupId([Row(1, "X")], "Y").None?;
    assert LookupId([Row(1, 2009)], 2012).None?;
  }

  lemma StepY()
    ensures IgnoreImport.Step(LastRowid, AfterX(), RecY()).db == BothRun()
  {
    hide Keys, Ids;
    var sales := [Row(1, Fact(1, 1, 1, 10))];
    ResolveY();
    assert Append(sales, Fact(2, 1, 2, 20)) == sales + [Row(2, Fact(2, 1, 2, 20))];
    hide ResolveName, Append;
  }

  /** On a fresh database the importer stores both records with the ids of their rows. */
  lemma BothImport()
    ensures PopulateData(EmptyDb(), [RecX(), RecY()]) == BothRun()
  {
    var s0 := IgnoreImport.Session(EmptyDb(), 0, map[], map[], map[]);
    var data := [RecX(), RecY()];
    assert data[..1][..0] == [] && data[..1] == [RecX()];
    StepX();
    StepY();
    assert Run(LastRowid, s0, data[..1]) == AfterX();
  }

  /** When every row carries the same id, so do the first two. */
  lemma FirstTwoIds(ts: seq<Agg<Named>>, id: int)
    requires forall j :: 0 <= j < |ts| ==> ts[j].key.id == id
    ensures |ts| >= 2 ==> ts[0].key.id == id && ts[1].key.id == id
  {
  }

  /** The product total sums both sales: Gasoline, 30, and no other row. */
  lemma BothTotals()
    ensures TotalSales(BothRun()) == [Agg(Named(1, "Gasoline"), 30, 2)]
  {
    hide BothRun, SumRef, CountRef, Resolve, JoinDim, Group, DistinctKeys;
    var db := BothRun();
    var ts := TotalSales(db);
    BothRunFacts();
    assert ts == Totals(db, ProductDim);
    hide TotalSales, Totals;
    TotalsSpec(db, ProductDim);
    var i :| 0 <= i < |ts| && ts[i].key.id == 1;
    forall j | 0 <= j < |ts|
      ensures ts[j].key.id == 1
    {
      BothProductIds(ts[j].key.id);
    }
    FirstTwoIds(ts, 1);
    assert |ts| == 1;
    assert ts == [ts[i]];
  }

  /** The product table and the two sales rows of `BothRun()`. */
  lemma BothRunFacts()
    ensures UniqueIds(BothRun().products)
    ensures Resolve(BothRun().products, 1) == Some("Gasoline")
    ensures SumRef(BothRun().sales, ProductDim, 1) == 30 && CountRef(BothRun().sales, ProductDim, 1) == 2
  {
    var db := BothRun();
    assert Resolve(db.products, 1) == Some("Gasoline");
    assert db.sales[..1][..0] == [];
  }

  /** Product 1 is the only product of `BothRun()`. */
  lemma BothProductIds(id: int)
    ensures Resolve(BothRun().products, id).Some? ==> id == 1
  {
  }

  /** The join over two sales rows, row by row. */
  lemma AvgJoinTwo(r1: Row<Fact>, r2: Row<Fact>, products: Table<string>, years: Table<int>)
    ensures AvgJoin([r1, r2], products, years) == RowJoin(r1, products, years) + RowJoin(r2, products, years)
  {
    hide RowJoin, Cross, Matches;
    assert AvgJoin([], products, years) == [];
    assert [] + [r1] == [r1] && [r1] + [r2] == [r1, r2];
    AvgJoinSnoc([], r1, products, years);
    AvgJoinSnoc([r1], r2, products, years);
  }

  /** What each sale of `BothRun()` joins to. */
  lemma BothRows()
    ensures RowJoin(BothRun().sales[0], BothRun().products, BothRun().years) == [Entry(EarlyBucket(), 10)]
    ensures RowJoin(BothRun().sales[1], BothRun().products, BothRun().years) == [Entry(LateBucket(), 20)]
  {
    var p, y := BothRun().products, BothRun().years;
    assert Matches(p, 1) == ["Gasoline"];
    assert Matches(y, 1) == [2009] && Matches(y, 2) == [2012];
    CrossOne("Gasoline", 2009, 10);
    CrossOne("Gasoline", 2012, 20);
    hide Cross, Matches;
  }

  lemma BothGroup()
    ensures Group([Entry(EarlyBucket(), 10), Entry(LateBucket(), 20)]) == [Agg(EarlyBucket(), 10, 1), Agg(LateBucket(), 20, 1)]
  {
    var items := [Entry(EarlyBucket(), 10), Entry(LateBucket(), 20)];
    assert items[..1][..0] == [] && items[..1] == [items[0]];
    assert Group(items[..1]) == AddTo([], items[0]) == [Agg(EarlyBucket(), 10, 1)];
    assert AddTo([Agg(EarlyBucket(), 10, 1)], items[1]) == [Agg(EarlyBucket(), 10, 1)] + AddTo([], items[1]);
  }

  /** The averages: Gasoline 2007-2010 over the one 2009 sale, Gasoline 2011-2014 over the one 2012 sale. */
  lemma BothAverages()
    ensures AverageSales(BothRun()) == [Agg(EarlyBucket(), 10, 1), Agg(LateBucket(), 20, 1)]
  {
    var db := BothRun();
    var g1, g2 := Agg(EarlyBucket(), 10, 1), Agg(LateBucket(), 20, 1);
    assert db.sales == [db.sales[0], db.sales[1]];
    AvgJoinTwo(db.sales[0], db.sales[1], db.products, db.years);
    BothRows();
    BothGroup();
    assert AverageSales(db) == SortBy([g1, g2], BucketLe);
    LabelOrder(Reports.Early, Reports.Late);
    assert BucketLe(g1, g2);
    assert SortBy([g1, g2][1..], BucketLe) == [g2];
  }

  // ---------------------------------------------------------------------
  // A stored value after a new one in the same record takes the new row's id

  /**
   * Countries X, products Gasoline and Diesel, year 2009, and no sales yet;
   * each table's AUTOINCREMENT counter is at its largest id.
   */
  function TwoProducts(): Db
  {
    Db([Row(1, "X")], [Row(1, "Gasoline"), Row(2, "Diesel")], [Row(1, 2009)], [])
  }

  /** A new country with a stored product and a stored year. */
  function RecW(): Record
  {
    Record("Y", "Gasoline", 2009, 5)
  }

  /**
   * As written: Y is inserted under id 2, which sets the last-insert rowid to
   * 2; the ignored inserts of Gasoline and 2009 leave it there, so both read
   * id 2.
   */
  lemma ResolveW()
    ensures ResolveName(LastRowid, [Row(1, "X")], map[], 0, "Y")
      == Resolution([Row(1, "X"), Row(2, "Y")], map["Y" := 2], 2, 2)
    ensures ResolveName(LastRowid, TwoProducts().products, map[], 2, "Gasoline")
      == Resolution(TwoProducts().products, map["Gasoline" := 2], 2, 2)
    ensures ResolveName(LastRowid, [Row(1, 2009)], map[], 2, 2009)
      == Resolution([Row(1, 2009)], map[2009 := 2], 2, 2)
  {
    assert LookupId([Row(1, "X")], "Y").None?;
    assert LookupId(TwoProducts().products, "Gasoline") == Some(1);
    assert LookupId([Row(1, 2009)], 2009) == Some(1);
  }

  /** Corrected: the stored product and year are read back under their own ids. */
  lemma ResolveWFixed()
    ensures ResolveName(LookupByName, [Row(1, "X")], map[], 0, "Y")
      == Resolution([Row(1, "X"), Row(2, "Y")], map["Y" := 2], 2, 2)
    ensures ResolveName(LookupByName, TwoProducts().products, map[], 2, "Gasoline")
      == Resolution(TwoProducts().products, map["Gasoline" := 1], 2, 1)
    ensures ResolveName(LookupByName, [Row(1, 2009)], map[], 2, 2009)
      == Resolution([Row(1, 2009)], map[2009 := 1], 2, 1)
  {
    assert LookupId([Row(1, "X")], "Y").None?;
    assert LookupId([Row(1, "X"), Row(2, "Y")], "Y") == Some(2);
    assert LookupId(TwoProducts().products, "Gasoline") == Some(1);
    assert LookupId([Row(1, 2009)], 2009) == Some(1);
  }

  /**
   * The importer as written books the Gasoline sale to product 2, Diesel,
   * and to year id 2, which names no row.
   */
  lemma WrongProduct()
    ensures PopulateData(TwoProducts(), [RecW()]).sales == [Row(1, Fact(2, 2, 2, 5))]
    ensures PopulateData(TwoProducts(), [RecW()]).products == TwoProducts().products
    ensures Resolve(TwoProducts().products, 2) == Some("Diesel")
    ensures !Refers(PopulateData(TwoProducts(), [RecW()]), Fact(2, 2, 2, 5), RecW())
  {
    hide Keys, CountryNames, ProductNames, YearValues;
    var s0 := IgnoreImport.Session(TwoProducts(), 0, map[], map[], map[]);
    assert [RecW()][..0] == [];
    assert Run(LastRowid, s0, [RecW()]) == IgnoreImport.Step(LastRowid, s0, RecW());
    ResolveW();
    assert Append([], Fact(2, 2, 2, 5)) == [Row(1, Fact(2, 2, 2, 5))];
    hide ResolveName, Append;
  }

  /** The corrected importer books it to Gasoline and 2009. */
  lemma RightProduct()
    ensures PopulateDataFixed(TwoProducts(), [RecW()]).sales == [Row(1, Fact(2, 1, 1, 5))]
  {
    hide Keys, CountryNames, ProductNames, YearValues;
    var s0 := IgnoreImport.Session(TwoProducts(), 0, map[], map[], map[]);
    assert [RecW()][..0] == [];
    assert Run(LookupByName, s0, [RecW()]) == IgnoreImport.Step(LookupByName, s0, RecW());
    ResolveWFixed();
    assert Append([], Fact(2, 1, 1, 5)) == [Row(1, Fact(2, 1, 1, 5))];
    hide ResolveName, Append;
  }

  /** The database the importer as written leaves. */
  function WrongRun(): Db
  {
    Db([Row(1, "X"), Row(2, "Y")], TwoProducts().products, [Row(1, 2009)], [Row(1, Fact(2, 2, 2, 5))])
  }

  /** The totals report then shows the Gasoline sale as a Diesel total, and Gasoline has no row. */
  lemma WrongProductTotals()
    ensures exists i :: 0 <= i < |TotalSales(WrongRun())| && TotalSales(WrongRun())[i] == Agg(Named(2, "Diesel"), 5, 1)
    ensures forall i :: 0 <= i < |TotalSales(WrongRun())| ==> TotalSales(WrongRun())[i].key.name != "Gasoline"
  {
    hide WrongRun, SumRef, CountRef, Resolve, JoinDim, Group, DistinctKeys;
    var db := WrongRun();
    WrongRunFacts();
    assert TotalSales(db) == Totals(db, ProductDim);
    hide TotalSales, Totals;
    TotalsSpec(db, ProductDim);
    var i :| 0 <= i < |Totals(db, ProductDim)| && Totals(db, ProductDim)[i].key.id == 2;
    assert TotalSales(db)[i] == Agg(Named(2, "Diesel"), 5, 1);
    forall j | 0 <= j < |TotalSales(db)|
      ensures TotalSales(db)[j].key.name != "Gasoline"
    {
      WrongRunReferences(Totals(db, ProductDim)[j].key.id);
    }
  }

  /** The product table and the one sales row of `WrongRun()`. */
  lemma WrongRunFacts()
    ensures UniqueIds(WrongRun().products)
    ensures Resolve(WrongRun().products, 2) == Some("Diesel")
    ensures SumRef(WrongRun().sales, ProductDim, 2) == 5 && CountRef(WrongRun().sales, ProductDim, 2) == 1
  {
    var db := WrongRun();
    assert Resolve(db.products, 2) == Some("Diesel");
    assert db.sales[..0] == [];
  }

  /** The one sales row of `WrongRun()` references product 2 only. */
  lemma WrongRunReferences(id: int)
    ensures CountRef(WrongRun().sales, ProductDim, id) > 0 ==> id == 2
  {
    var sales := WrongRun().sales;
    assert sales[..|sales| - 1] == [] && RefOf(sales[|sales| - 1].key, ProductDim) == 2;
    assert CountRef(sales, ProductDim, id) == CountRef([], ProductDim, id) + (if 2 == id then 1 else 0);
  }

  /** With no sales every report fetches nothing and the program stops; an unknown name runs nothing. */
  lemma EmptyDatabase()
    ensures Execute(EmptyDb(), "totalsales") == EmptyResult
    ensures Execute(EmptyDb(), "top3countries") == EmptyResult
    ensures Execute(EmptyDb(), "averagesales") == EmptyResult
    ensures Execute(EmptyDb(), "sales") == InvalidQuery
  {
    ExecuteSpec(EmptyDb(), "totalsales");
    ExecuteSpec(EmptyDb(), "top3countries");
    ExecuteSpec(EmptyDb(), "averagesales");
    ExecuteSpec(EmptyDb(), "sales");
  }
}
