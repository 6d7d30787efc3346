/**
 * The three reports report.py runs over the populated database, as the rows
 * each query returns (printing them is left out), and the dispatch on the
 * query name.
 *
 * Every join the queries make is on a dimension's INTEGER PRIMARY KEY; the
 * join is modelled as SQL defines it (every matching row) and related to the
 * single row `Resolve` finds by the primary key.
 */
module Reports {
  import opened Tables
  import opened Schema
  import opened Grouping
  import opened Sorting
  import opened Collation

  /** The payloads of the rows of `t` with the given id: what `JOIN t ON t.id = id` pairs with. */
  function Matches<K>(t: Table<K>, id: int): (r: seq<K>)
    ensures |r| <= |t|
    ensures forall i :: 0 <= i < |r| ==> Row(id, r[i]) in t
    ensures forall j :: 0 <= j < |t| && t[j].id == id ==> t[j].key in r
  {
    if |t| == 0 then []
    else (if t[0].id == id then [t[0].key] else []) + Matches(t[1..], id)
  }

  /** Under the primary key a join on the id matches exactly the row Resolve finds, or none. */
  lemma {:induction false} MatchesResolve<K>(t: Table<K>, id: int)
    requires UniqueIds(t)
    ensures Matches(t, id) == match Resolve(t, id) case None => [] case Some(k) => [k]
  {
    if |t| > 0 {
      var rest := t[1..];
      assert UniqueIds(rest) by {
        forall i, j | 0 <= i < j < |rest|
          ensures rest[i].id != rest[j].id
        {
          assert rest[i] == t[i + 1] && rest[j] == t[j + 1];
        }
      }
      MatchesResolve(rest, id);
      if t[0].id == id {
        forall j | 0 <= j < |rest|
          ensures rest[j].id != id
        {
          assert rest[j] == t[j + 1];
        }
        assert id !in Ids(rest);
      }
    }
  }

  // ---------------------------------------------------------------------
  // Total sale per product, and per country

  /** The dimension a sales row is grouped by. */
  datatype Dim = CountryDim | ProductDim

  function RefOf(f: Fact, d: Dim): int
  {
    match d
    case CountryDim => f.countryId
    case ProductDim => f.productId
  }

  function DimTable(db: Db, d: Dim): Table<string>
  {
    match d
    case CountryDim => db.countries
    case ProductDim => db.products
  }

  /** A group of `GROUP BY sales.<dimension>_id`, with the name the join puts beside it. */
  datatype Named = Named(id: int, name: string)

  /** The joined rows for one sales row: one per matching dimension row. */
  function Tag(names: seq<string>, id: int, sale: int): (r: seq<Entry<Named>>)
    ensures |r| == |names|
    ensures forall i :: 0 <= i < |r| ==> r[i] == Entry(Named(id, names[i]), sale)
  {
    if |names| == 0 then [] else [Entry(Named(id, names[0]), sale)] + Tag(names[1..], id, sale)
  }

  /** `sales JOIN t ON sales.<dimension>_id = t.id`, each joined row as its group and its sale. */
  function JoinDim(sales: Table<Fact>, t: Table<string>, d: Dim): (r: seq<Entry<Named>>)
    ensures forall i :: 0 <= i < |r| ==> Row(r[i].key.id, r[i].key.name) in t
  {
    if |sales| == 0 then []
    else
      var f := sales[|sales| - 1].key;
      JoinDim(sales[..|sales| - 1], t, d) + Tag(Matches(t, RefOf(f, d)), RefOf(f, d), f.sale)
  }

  /** The total of the sales rows that reference `id`: what the report promises for `id`. */
  function SumRef(sales: Table<Fact>, d: Dim, id: int): int
  {
    if |sales| == 0 then 0
    else
      var f := sales[|sales| - 1].key;
      SumRef(sales[..|sales| - 1], d, id) + (if RefOf(f, d) == id then f.sale else 0)
  }

  /** The number of sales rows that reference `id`. */
  function CountRef(sales: Table<Fact>, d: Dim, id: int): nat
  {
    if |sales| == 0 then 0
    else
      var f := sales[|sales| - 1].key;
      CountRef(sales[..|sales| - 1], d, id) + (if RefOf(f, d) == id then 1 else 0)
  }

  lemma TagOne(n: string, id: int, sale: int, k: Named)
    ensures SumOf(Tag([n], id, sale), k) == if Named(id, n) == k then sale else 0
    ensures CountOf(Tag([n], id, sale), k) == if Named(id, n) == k then 1 else 0
  {
    var s := Tag([n], id, sale);
    assert s == [Entry(Named(id, n), sale)];
    assert s[..0] == [];
  }

  /** The joined rows one sales row contributes, under the primary key. */
  lemma JoinStep(t: Table<string>, f: Fact, d: Dim, k: Named)
    requires UniqueIds(t)
    ensures SumOf(Tag(Matches(t, RefOf(f, d)), RefOf(f, d), f.sale), k)
      == if k.id == RefOf(f, d) && Resolve(t, k.id) == Some(k.name) then f.sale else 0
    ensures CountOf(Tag(Matches(t, RefOf(f, d)), RefOf(f, d), f.sale), k)
      == if k.id == RefOf(f, d) && Resolve(t, k.id) == Some(k.name) then 1 else 0
  {
    var ref := RefOf(f, d);
    MatchesResolve(t, ref);
    match Resolve(t, ref)
    case None =>
      assert Tag([], ref, f.sale) == [];
    case Some(n) =>
      TagOne(n, ref, f.sale, k);
  }

  /**
   * Joining on the primary key: the joined rows of group `(id, name)` are
   * exactly the sales rows referencing `id` when `name` is the row with that
   * id, and there are none otherwise.
   */
  lemma {:induction false} JoinDimSums(sales: Table<Fact>, t: Table<string>, d: Dim, k: Named)
    requires UniqueIds(t)
    ensures SumOf(JoinDim(sales, t, d), k) == if Resolve(t, k.id) == Some(k.name) then SumRef(sales, d, k.id) else 0
    ensures CountOf(JoinDim(sales, t, d), k) == if Resolve(t, k.id) == Some(k.name) then CountRef(sales, d, k.id) else 0
  {
    if |sales| > 0 {
      var init, f := sales[..|sales| - 1], sales[|sales| - 1].key;
      var step := Tag(Matches(t, RefOf(f, d)), RefOf(f, d), f.sale);
      assert JoinDim(sales, t, d) == JoinDim(init, t, d) + step;
      assert SumRef(sales, d, k.id) == SumRef(init, d, k.id) + (if RefOf(f, d) == k.id then f.sale else 0);
      assert CountRef(sales, d, k.id) == CountRef(init, d, k.id) + (if RefOf(f, d) == k.id then 1 else 0);
      hide JoinDim, SumRef, CountRef, SumOf, CountOf;
      JoinDimSums(init, t, d, k);
      SumOfConcat(JoinDim(init, t, d), step, k);
      JoinStep(t, f, d, k);
    }
  }

  /** `SELECT <name>, SUM(sales.sale) FROM sales JOIN t ON ... GROUP BY sales.<dimension>_id`. */
  function Totals(db: Db, d: Dim): (r: seq<Agg<Named>>)
    ensures DistinctKeys(r)
  {
    GroupDistinct(JoinDim(db.sales, DimTable(db, d), d));
    Group(JoinDim(db.sales, DimTable(db, d), d))
  }

  /**
   * One row per id that some sales row references and the dimension holds,
   * carrying that row's name, the total of the sales rows referencing it and
   * their number; no id appears twice.
   */
  lemma TotalsSpec(db: Db, d: Dim)
    requires UniqueIds(DimTable(db, d))
    ensures forall i :: 0 <= i < |Totals(db, d)| ==>
      && Resolve(DimTable(db, d), Totals(db, d)[i].key.id) == Some(Totals(db, d)[i].key.name)
      && Totals(db, d)[i].sum == SumRef(db.sales, d, Totals(db, d)[i].key.id)
      && Totals(db, d)[i].count == CountRef(db.sales, d, Totals(db, d)[i].key.id)
      && Totals(db, d)[i].count > 0
    ensures forall i, j :: 0 <= i < j < |Totals(db, d)| ==> Totals(db, d)[i].key.id != Totals(db, d)[j].key.id
    ensures forall id :: CountRef(db.sales, d, id) > 0 && Resolve(DimTable(db, d), id).Some? ==>
      exists i :: 0 <= i < |Totals(db, d)| && Totals(db, d)[i].key.id == id
  {
    var t, items := DimTable(db, d), JoinDim(db.sales, DimTable(db, d), d);
    var gs := Group(items);
    assert Totals(db, d) == gs;
    GroupRows(items);
    GroupDistinct(items);
    forall i | 0 <= i < |gs|
      ensures Resolve(t, gs[i].key.id) == Some(gs[i].key.name)
      ensures gs[i].sum == SumRef(db.sales, d, gs[i].key.id) && gs[i].count == CountRef(db.sales, d, gs[i].key.id)
    {
      JoinDimSums(db.sales, t, d, gs[i].key);
    }
    forall id | CountRef(db.sales, d, id) > 0 && Resolve(t, id).Some?
      ensures exists i :: 0 <= i < |gs| && gs[i].key.id == id
    {
      var k := Named(id, Resolve(t, id).value);
      JoinDimSums(db.sales, t, d, k);
      var i :| 0 <= i < |gs| && gs[i].key == k;
    }
  }

  /** The total sale of each petroleum product. */
  function TotalSales(db: Db): (r: seq<Agg<Named>>)
    ensures DistinctKeys(r)
  {
    Totals(db, ProductDim)
  }

  /** A dimension value some sales row references and the dimension holds. */
  predicate Joined(db: Db, d: Dim, id: int)
  {
    exists i :: 0 <= i < |db.sales| && RefOf(db.sales[i].key, d) == id && Resolve(DimTable(db, d), id).Some?
  }

  lemma {:induction false} CountRefPositive(sales: Table<Fact>, d: Dim, id: int)
    ensures CountRef(sales, d, id) > 0 <==> exists i :: 0 <= i < |sales| && RefOf(sales[i].key, d) == id
  {
    if |sales| > 0 {
      var init := sales[..|sales| - 1];
      CountRefPositive(init, d, id);
      assert forall i :: 0 <= i < |init| ==> init[i] == sales[i];
    }
  }

  /** The totals query returns no row exactly when no sales row references a row of the dimension. */
  lemma TotalsEmpty(db: Db, d: Dim)
    requires UniqueIds(DimTable(db, d))
    ensures |Totals(db, d)| == 0 <==> forall id :: !Joined(db, d, id)
  {
    TotalsSpec(db, d);
    var t := DimTable(db, d);
    if |Totals(db, d)| > 0 {
      var g := Totals(db, d)[0];
      CountRefPositive(db.sales, d, g.key.id);
      assert Joined(db, d, g.key.id);
    }
    forall id | Joined(db, d, id)
      ensures |Totals(db, d)| > 0
    {
      CountRefPositive(db.sales, d, id);
    }
  }

  // ---------------------------------------------------------------------
  // The three countries with the highest, and with the lowest, total sale

  predicate SumDesc(a: Agg<Named>, b: Agg<Named>)
  {
    a.sum >= b.sum
  }

  predicate SumAsc(a: Agg<Named>, b: Agg<Named>)
  {
    a.sum <= b.sum
  }

  lemma SumOrders()
    ensures TotalPreorder(SumDesc) && TotalPreorder(SumAsc)
  {
    forall a, b, c
      ensures SumDesc(a, b) || SumDesc(b, a)
      ensures SumDesc(a, b) && SumDesc(b, c) ==> SumDesc(a, c)
      ensures SumAsc(a, b) || SumAsc(b, a)
      ensures SumAsc(a, b) && SumAsc(b, c) ==> SumAsc(a, c)
    {
    }
  }

  /** `... GROUP BY sales.country_id ORDER BY total_sale DESC LIMIT 3`. */
  function TopCountries(db: Db): (r: seq<Agg<Named>>)
    ensures |r| <= 3 && multiset(r) <= multiset(Totals(db, CountryDim))
  {
    TopBy(Totals(db, CountryDim), SumDesc, 3)
  }

  /** `... GROUP BY sales.country_id ORDER BY total_sale ASC LIMIT 3`. */
  function BottomCountries(db: Db): (r: seq<Agg<Named>>)
    ensures |r| <= 3 && multiset(r) <= multiset(Totals(db, CountryDim))
  {
    TopBy(Totals(db, CountryDim), SumAsc, 3)
  }

  /**
   * The top list holds min(3, n) of the n country totals, highest first, and
   * no country left out has a higher total than one kept.
   */
  lemma TopCountriesSpec(db: Db)
    ensures |TopCountries(db)| == Min(|Totals(db, CountryDim)|, 3)
    ensures multiset(TopCountries(db)) <= multiset(Totals(db, CountryDim))
    ensures forall i, j :: 0 <= i < j < |TopCountries(db)| ==> TopCountries(db)[i].sum >= TopCountries(db)[j].sum
    ensures forall x, y :: x in TopCountries(db) && y in multiset(Totals(db, CountryDim)) - multiset(TopCountries(db)) ==>
      x.sum >= y.sum
  {
    var ts := Totals(db, CountryDim);
    var top := TopCountries(db);
    assert top == TopBy(ts, SumDesc, 3);
    SumOrders();
    hide TotalPreorder, Totals, TopCountries;
    TopByOrder(ts, SumDesc, 3);
    forall x, y | x in top && y in multiset(ts) - multiset(top)
      ensures x.sum >= y.sum
    {
      assert SumDesc(x, y);
    }
  }

  /**
   * The bottom list holds min(3, n) of the n country totals, lowest first,
   * and no country left out has a lower total than one kept.
   */
  lemma BottomCountriesSpec(db: Db)
    ensures |BottomCountries(db)| == Min(|Totals(db, CountryDim)|, 3)
    ensures multiset(BottomCountries(db)) <= multiset(Totals(db, CountryDim))
    ensures forall i, j :: 0 <= i < j < |BottomCountries(db)| ==> BottomCountries(db)[i].sum <= BottomCountries(db)[j].sum
    ensures forall x, y :: x in BottomCountries(db) && y in multiset(Totals(db, CountryDim)) - multiset(BottomCountries(db)) ==>
      x.sum <= y.sum
  {
    var ts := Totals(db, CountryDim);
    var top := BottomCountries(db);
    assert top == TopBy(ts, SumAsc, 3);
    SumOrders();
    hide TotalPreorder, Totals, BottomCountries;
    TopByOrder(ts, SumAsc, 3);
    forall x, y | x in top && y in multiset(ts) - multiset(top)
      ensures x.sum <= y.sum
    {
      assert SumAsc(x, y);
    }
  }

  /** A sub-multiset as large as the whole is the whole. */
  lemma SubMultisetFull<T>(a: multiset<T>, b: multiset<T>)
    requires a <= b && |a| == |b|
    ensures a == b
  {
    var d := b - a;
    assert b == a + d;
    assert |d| == 0;
  }

  /** With at most three countries both lists hold every country total. */
  lemma FewCountriesListAll(db: Db)
    requires |Totals(db, CountryDim)| <= 3
    ensures multiset(TopCountries(db)) == multiset(Totals(db, CountryDim))
    ensures multiset(BottomCountries(db)) == multiset(Totals(db, CountryDim))
  {
    var ts := Totals(db, CountryDim);
    hide Totals;
    TopCountriesSpec(db);
    BottomCountriesSpec(db);
    SubMultisetFull(multiset(TopCountries(db)), multiset(ts));
    SubMultisetFull(multiset(BottomCountries(db)), multiset(ts));
  }

  // ---------------------------------------------------------------------
  // Average sale of each product over two four-year intervals

  /** The `year_interval` column: `CASE WHEN years.year <= 2010 THEN '2007-2010' ELSE '2011-2014' END`. */
  datatype Interval = Early | Late

  function IntervalOf(year: int): (r: Interval)
    ensures Label(r) == if year <= 2010 then "2007-2010" else "2011-2014"
  {
    if year <= 2010 then Early else Late
  }

  function Label(i: Interval): (r: string)
    ensures r == "2007-2010" || r == "2011-2014"
    ensures r == "2007-2010" <==> i == Early
  {
    match i
    case Early => "2007-2010"
    case Late => "2011-2014"
  }

  predicate IntervalLe(a: Interval, b: Interval)
  {
    a == Early || b == Late
  }

  /**
   * Grouping and ordering by the interval's label is grouping and ordering by
   * the interval: the labels are distinct and sort as the intervals do.
   */
  lemma LabelOrder(a: Interval, b: Interval)
    ensures Label(a) == Label(b) <==> a == b
    ensures StrLe(Label(a), Label(b)) <==> IntervalLe(a, b)
  {
    var e, l := Label(Early), Label(Late);
    assert e[0] == l[0] && e[1] == l[1] && e[2] < l[2];
    assert e[1..][1..][1..] == "7-2010" && l[1..][1..][1..] == "1-2014";
    assert StrLe(e, l) && !StrLe(l, e);
  }

  /** A group of `GROUP BY products.product, year_interval`. */
  datatype Bucket = Bucket(product: string, interval: Interval)

  /** `ORDER BY products.product, year_interval`. */
  predicate BucketLe(a: Agg<Bucket>, b: Agg<Bucket>)
  {
    if a.key.product != b.key.product then StrLe(a.key.product, b.key.product)
    else IntervalLe(a.key.interval, b.key.interval)
  }

  /** Two groups that each sort no later than the other share their key. */
  lemma BucketLeAntisymmetric(a: Agg<Bucket>, b: Agg<Bucket>)
    ensures BucketLe(a, b) && BucketLe(b, a) ==> a.key == b.key
  {
    StrLeAntisymmetric(a.key.product, b.key.product);
  }

  lemma BucketOrder()
    ensures TotalPreorder(BucketLe)
  {
    forall a, b
      ensures BucketLe(a, b) || BucketLe(b, a)
    {
      StrLeTotal(a.key.product, b.key.product);
    }
    forall a, b, c
      ensures BucketLe(a, b) && BucketLe(b, c) ==> BucketLe(a, c)
    {
      StrLeTransitive(a.key.product, b.key.product, c.key.product);
      StrLeAntisymmetric(a.key.product, b.key.product);
      StrLeAntisymmetric(b.key.product, c.key.product);
      StrLeAntisymmetric(a.key.product, c.key.product);
    }
  }

  /** The joined rows of one product row with every matching year row. */
  function Each(product: string, years: seq<int>, sale: int): (r: seq<Entry<Bucket>>)
    ensures forall i :: 0 <= i < |r| ==> r[i].key.product == product && r[i].value == sale
  {
    if |years| == 0 then []
    else [Entry(Bucket(product, IntervalOf(years[0])), sale)] + Each(product, years[1..], sale)
  }

  /** The joined rows of every matching product row with every matching year row. */
  function Cross(products: seq<string>, years: seq<int>, sale: int): (r: seq<Entry<Bucket>>)
    ensures forall i :: 0 <= i < |r| ==> r[i].key.product in products && r[i].value == sale
  {
    if |products| == 0 then []
    else Each(products[0], years, sale) + Cross(products[1..], years, sale)
  }

  /**
   * `sales JOIN products ON ... JOIN years ON ... WHERE sales.sale > 0`, each
   * joined row as its (product, interval) group and its sale.
   */
  function AvgJoin(sales: Table<Fact>, products: Table<string>, years: Table<int>): (r: seq<Entry<Bucket>>)
    ensures forall i :: 0 <= i < |r| ==> r[i].value > 0
  {
    if |sales| == 0 then []
    else
      var f := sales[|sales| - 1].key;
      AvgJoin(sales[..|sales| - 1], products, years)
        + (if f.sale > 0 then Cross(Matches(products, f.productId), Matches(years, f.yearId), f.sale) else [])
  }

  /** The group a sales row falls in, through the rows its ids name. */
  function BucketOf(products: Table<string>, years: Table<int>, f: Fact): (r: Option<Bucket>)
    ensures r.Some? <==> f.productId in Ids(products) && f.yearId in Ids(years)
    ensures r.Some? ==> Row(f.productId, r.value.product) in products
  {
    match Resolve(products, f.productId)
    case None => None
    case Some(p) =>
      match Resolve(years, f.yearId)
      case None => None
      case Some(y) => Some(Bucket(p, IntervalOf(y)))
  }

  /** The total of the positive sales that fall in group `b`: what the report promises for `b`. */
  function BucketSum(sales: Table<Fact>, products: Table<string>, years: Table<int>, b: Bucket): int
  {
    if |sales| == 0 then 0
    else
      var f := sales[|sales| - 1].key;
      BucketSum(sales[..|sales| - 1], products, years, b)
        + (if f.sale > 0 && BucketOf(products, years, f) == Some(b) then f.sale else 0)
  }

  /** The number of positive sales that fall in group `b`. */
  function BucketCount(sales: Table<Fact>, products: Table<string>, years: Table<int>, b: Bucket): nat
  {
    if |sales| == 0 then 0
    else
      var f := sales[|sales| - 1].key;
      BucketCount(sales[..|sales| - 1], products, years, b)
        + (if f.sale > 0 && BucketOf(products, years, f) == Some(b) then 1 else 0)
  }

  /** The joined rows one sales row contributes, under the primary keys. */
  lemma AvgStep(products: Table<string>, years: Table<int>, f: Fact, b: Bucket)
    requires UniqueIds(products) && UniqueIds(years)
    ensures SumOf(if f.sale > 0 then Cross(Matches(products, f.productId), Matches(years, f.yearId), f.sale) else [], b)
      == if f.sale > 0 && BucketOf(products, years, f) == Some(b) then f.sale else 0
    ensures CountOf(if f.sale > 0 then Cross(Matches(products, f.productId), Matches(years, f.yearId), f.sale) else [], b)
      == if f.sale > 0 && BucketOf(products, years, f) == Some(b) then 1 else 0
  {
    MatchesResolve(products, f.productId);
    MatchesResolve(years, f.yearId);
    var ps, ys := Matches(products, f.productId), Matches(years, f.yearId);
    if f.sale > 0 {
      if |ps| == 1 && |ys| == 1 {
        var e := Entry(Bucket(ps[0], IntervalOf(ys[0])), f.sale);
        assert Each(ps[0], ys, f.sale) == [e] + Each(ps[0], [], f.sale);
        assert Cross(ps, ys, f.sale) == [e] by {
          assert Cross(ps, ys, f.sale) == Each(ps[0], ys, f.sale) + Cross([], ys, f.sale);
        }
        assert [e][..0] == [];
      } else if |ps| == 1 {
        assert Cross(ps, ys, f.sale) == Each(ps[0], ys, f.sale) + Cross([], ys, f.sale);
      }
    }
  }

  /**
   * Joining on the primary keys: the joined rows of group `b` are exactly the
   * positive sales whose product and year rows put them in `b`.
   */
  lemma {:induction false} AvgJoinSums(sales: Table<Fact>, products: Table<string>, years: Table<int>, b: Bucket)
    requires UniqueIds(products) && UniqueIds(years)
    ensures SumOf(AvgJoin(sales, products, years), b) == BucketSum(sales, products, years, b)
    ensures CountOf(AvgJoin(sales, products, years), b) == BucketCount(sales, products, years, b)
  {
    if |sales| > 0 {
      hide SumOf, CountOf, Cross, Matches, BucketOf;
      var init, f := sales[..|sales| - 1], sales[|sales| - 1].key;
      var step := if f.sale > 0 then Cross(Matches(products, f.productId), Matches(years, f.yearId), f.sale) else [];
      assert AvgJoin(sales, products, years) == AvgJoin(init, products, years) + step;
      BucketLast(sales, products, years, b);
      hide AvgJoin, BucketSum, BucketCount;
      AvgJoinSums(init, products, years, b);
      SumOfConcat(AvgJoin(init, products, years), step, b);
      AvgStep(products, years, f, b);
    }
  }

  /** BucketSum and BucketCount over one more sales row. */
  lemma BucketLast(sales: Table<Fact>, products: Table<string>, years: Table<int>, b: Bucket)
    requires |sales| > 0
    ensures var f := sales[|sales| - 1].key;
      BucketSum(sales, products, years, b) == BucketSum(sales[..|sales| - 1], products, years, b)
        + (if f.sale > 0 && BucketOf(products, years, f) == Some(b) then f.sale else 0)
    ensures var f := sales[|sales| - 1].key;
      BucketCount(sales, products, years, b) == BucketCount(sales[..|sales| - 1], products, years, b)
        + (if f.sale > 0 && BucketOf(products, years, f) == Some(b) then 1 else 0)
  {
  }

  /** Only positive sales are averaged, so every group's total is at least its size. */
  lemma {:induction false} BucketSumAtLeastCount(sales: Table<Fact>, products: Table<string>, years: Table<int>, b: Bucket)
    ensures BucketSum(sales, products, years, b) >= BucketCount(sales, products, years, b)
  {
    if |sales| > 0 {
      BucketSumAtLeastCount(sales[..|sales| - 1], products, years, b);
    }
  }

  /** `SELECT product, year_interval, AVG(sales.sale) ... GROUP BY ... ORDER BY ...`, before AVG is taken. */
  function AverageSales(db: Db): (r: seq<Agg<Bucket>>)
    ensures DistinctKeys(r)
  {
    var gs := Group(AvgJoin(db.sales, db.products, db.years));
    GroupDistinct(AvgJoin(db.sales, db.products, db.years));
    SortKeepsDistinct(gs, BucketLe);
    SortBy(gs, BucketLe)
  }

  /**
   * One row per (product, interval), in strictly increasing (product,
   * interval) order: the ORDER BY leaves no tie to break.
   */
  lemma AverageSalesOrder(db: Db)
    ensures DistinctKeys(AverageSales(db))
    ensures forall i, j :: 0 <= i < j < |AverageSales(db)| ==>
      BucketLe(AverageSales(db)[i], AverageSales(db)[j]) && !BucketLe(AverageSales(db)[j], AverageSales(db)[i])
  {
    var items := AvgJoin(db.sales, db.products, db.years);
    var gs := Group(items);
    var rs := SortBy(gs, BucketLe);
    assert AverageSales(db) == rs;
    GroupDistinct(items);
    SortKeepsDistinct(gs, BucketLe);
    BucketOrder();
    SortSorted(gs, BucketLe);
    hide AverageSales, AvgJoin, Group, SortBy, TotalPreorder;
    forall i, j | 0 <= i < j < |rs|
      ensures BucketLe(rs[i], rs[j]) && !BucketLe(rs[j], rs[i])
    {
      BucketLeAntisymmetric(rs[i], rs[j]);
    }
  }

  /**
   * Every row carries the total and the number of the positive sales in its
   * (product, interval), so its average is taken over exactly those sales.
   */
  lemma AverageSalesRows(db: Db)
    requires UniqueIds(db.products) && UniqueIds(db.years)
    ensures forall i :: 0 <= i < |AverageSales(db)| ==>
      && AverageSales(db)[i].sum == BucketSum(db.sales, db.products, db.years, AverageSales(db)[i].key)
      && AverageSales(db)[i].count == BucketCount(db.sales, db.products, db.years, AverageSales(db)[i].key)
      && AverageSales(db)[i].sum >= AverageSales(db)[i].count > 0
  {
    var items := AvgJoin(db.sales, db.products, db.years);
    var gs := Group(items);
    var rs := SortBy(gs, BucketLe);
    assert AverageSales(db) == rs;
    GroupRows(items);
    hide AverageSales, AvgJoin, Group, SortBy;
    forall i | 0 <= i < |rs|
      ensures rs[i].sum == BucketSum(db.sales, db.products, db.years, rs[i].key)
      ensures rs[i].count == BucketCount(db.sales, db.products, db.years, rs[i].key)
      ensures rs[i].sum >= rs[i].count > 0
    {
      assert rs[i] in multiset(gs);
      var j :| 0 <= j < |gs| && gs[j] == rs[i];
      AvgJoinSums(db.sales, db.products, db.years, rs[i].key);
      BucketSumAtLeastCount(db.sales, db.products, db.years, rs[i].key);
    }
  }

  /** A (product, interval) has a row exactly when some positive sale falls in it. */
  lemma AverageSalesCovers(db: Db)
    requires UniqueIds(db.products) && UniqueIds(db.years)
    ensures forall b :: BucketCount(db.sales, db.products, db.years, b) > 0 <==>
      exists i :: 0 <= i < |AverageSales(db)| && AverageSales(db)[i].key == b
  {
    forall b
      ensures BucketCount(db.sales, db.products, db.years, b) > 0 <==>
        exists i :: 0 <= i < |AverageSales(db)| && AverageSales(db)[i].key == b
    {
      AverageSalesCoversAt(db, b);
    }
  }

  lemma AverageSalesCoversAt(db: Db, b: Bucket)
    requires UniqueIds(db.products) && UniqueIds(db.years)
    ensures BucketCount(db.sales, db.products, db.years, b) > 0 <==>
      exists i :: 0 <= i < |AverageSales(db)| && AverageSales(db)[i].key == b
  {
    var items := AvgJoin(db.sales, db.products, db.years);
    var gs := Group(items);
    var rs := SortBy(gs, BucketLe);
    assert AverageSales(db) == rs;
    hide AverageSales, AvgJoin, Group, SortBy, GroupKeys, EntryKeys;
    AvgJoinSums(db.sales, db.products, db.years, b);
    GroupHasKey(items, b);
    SortKeepsKeys(gs, BucketLe, b);
    if BucketCount(db.sales, db.products, db.years, b) > 0 {
      var i :| 0 <= i < |rs| && rs[i].key == b;
      assert AverageSales(db)[i].key == b;
    }
    if exists i :: 0 <= i < |AverageSales(db)| && AverageSales(db)[i].key == b {
      var i :| 0 <= i < |AverageSales(db)| && AverageSales(db)[i].key == b;
      assert rs[i].key == b;
    }
  }

  /** The WHERE clause: appending a sale that is not positive leaves the report unchanged. */
  lemma NonPositiveSaleIgnored(db: Db, row: Row<Fact>)
    requires row.key.sale <= 0
    ensures AverageSales(db.(sales := db.sales + [row])) == AverageSales(db)
  {
    var sales := db.sales + [row];
    assert sales[..|sales| - 1] == db.sales;
    assert AvgJoin(sales, db.products, db.years) == AvgJoin(db.sales, db.products, db.years) + [];
    assert AvgJoin(db.sales, db.products, db.years) + [] == AvgJoin(db.sales, db.products, db.years);
  }

  /** A positive sale some row of which falls in a group. */
  predicate Averaged(db: Db, b: Bucket)
  {
    exists i :: 0 <= i < |db.sales| && db.sales[i].key.sale > 0 && BucketOf(db.products, db.years, db.sales[i].key) == Some(b)
  }

  lemma {:induction false} BucketCountPositive(sales: Table<Fact>, products: Table<string>, years: Table<int>, b: Bucket)
    ensures BucketCount(sales, products, years, b) > 0 <==>
      exists i :: 0 <= i < |sales| && sales[i].key.sale > 0 && BucketOf(products, years, sales[i].key) == Some(b)
  {
    if |sales| > 0 {
      var init := sales[..|sales| - 1];
      BucketCountPositive(init, products, years, b);
      assert forall i :: 0 <= i < |init| ==> init[i] == sales[i];
    }
  }

  /** The averages query returns no row exactly when no positive sale falls in any group. */
  lemma AverageSalesEmpty(db: Db)
    requires UniqueIds(db.products) && UniqueIds(db.years)
    ensures |AverageSales(db)| == 0 <==> forall b :: !Averaged(db, b)
  {
    AverageSalesRows(db);
    AverageSalesCovers(db);
    if |AverageSales(db)| > 0 {
      var b := AverageSales(db)[0].key;
      BucketCountPositive(db.sales, db.products, db.years, b);
      assert Averaged(db, b);
    }
    forall b | Averaged(db, b)
      ensures |AverageSales(db)| > 0
    {
      BucketCountPositive(db.sales, db.products, db.years, b);
    }
  }

  // ---------------------------------------------------------------------
  // Dispatch on the query name

  datatype Query = TotalSalesQuery | TopCountriesQuery | AverageSalesQuery

  function QueryName(q: Query): string
  {
    match q
    case TotalSalesQuery => "totalsales"
    case TopCountriesQuery => "top3countries"
    case AverageSalesQuery => "averagesales"
  }

  /** The query a name selects; any other name is invalid. */
  function ParseQuery(name: string): (r: Option<Query>)
    ensures r.Some? ==> QueryName(r.value) == name
    ensures r.None? <==> forall q :: QueryName(q) != name
  {
    if name == "totalsales" then Some(TotalSalesQuery)
    else if name == "top3countries" then Some(TopCountriesQuery)
    else if name == "averagesales" then Some(AverageSalesQuery)
    else None
  }

  /** Every query is selected by its own name. */
  lemma ParseQueryName(q: Query)
    ensures ParseQuery(QueryName(q)) == Some(q)
  {
    match q
    case TotalSalesQuery =>
    case TopCountriesQuery =>
    case AverageSalesQuery =>
  }

  /** The rows a query fetches. */
  datatype Report =
    | TotalSalesReport(totals: seq<Agg<Named>>)
    | TopCountriesReport(top: seq<Agg<Named>>, bottom: seq<Agg<Named>>)
    | AverageSalesReport(averages: seq<Agg<Bucket>>)

  /**
   * What running a query ends in: an unknown name is reported and nothing
   * runs; a query that fetches no row stops the program, because sizing the
   * printed columns takes the maximum of an empty sequence; otherwise the
   * fetched rows are printed.
   */
  datatype Outcome = InvalidQuery | EmptyResult | Shown(report: Report)

  function Answer(db: Db, q: Query): (r: Outcome)
    ensures r != InvalidQuery
    ensures r.Shown? ==> match r.report
      case TotalSalesReport(totals) => q == TotalSalesQuery && |totals| > 0
      case TopCountriesReport(top, bottom) => q == TopCountriesQuery && 0 < |top| == |bottom| <= 3
      case AverageSalesReport(averages) => q == AverageSalesQuery && |averages| > 0
  {
    match q
    case TotalSalesQuery =>
      if |TotalSales(db)| == 0 then EmptyResult else Shown(TotalSalesReport(TotalSales(db)))
    case TopCountriesQuery =>
      if |TopCountries(db)| == 0 then EmptyResult else Shown(TopCountriesReport(TopCountries(db), BottomCountries(db)))
    case AverageSalesQuery =>
      if |AverageSales(db)| == 0 then EmptyResult else Shown(AverageSalesReport(AverageSales(db)))
  }

  function Execute(db: Db, name: string): (r: Outcome)
    ensures r == InvalidQuery <==> name !in {"totalsales", "top3countries", "averagesales"}
  {
    match ParseQuery(name)
    case None => InvalidQuery
    case Some(q) => Answer(db, q)
  }

  /**
   * On a database satisfying its constraints a query name is invalid unless
   * it is one of the three, and a valid query stops the program exactly when
   * its joins find nothing to report.
   */
  lemma ExecuteSpec(db: Db, name: string)
    requires WellFormed(db)
    ensures Execute(db, name) == InvalidQuery <==> name !in {"totalsales", "top3countries", "averagesales"}
    ensures Execute(db, name) == EmptyResult <==>
      || (name == "totalsales" && forall id :: !Joined(db, ProductDim, id))
      || (name == "top3countries" && forall id :: !Joined(db, CountryDim, id))
      || (name == "averagesales" && forall b :: !Averaged(db, b))
    ensures Execute(db, name).Shown? && name == "top3countries" ==>
      |Execute(db, name).report.top| == |Execute(db, name).report.bottom| == Min(|Totals(db, CountryDim)|, 3)
  {
    assert UniqueIds(DimTable(db, ProductDim)) && UniqueIds(DimTable(db, CountryDim)) && UniqueIds(db.years);
    hide Totals, TopBy, AverageSales, Joined, Averaged, WellFormed;
    if name == "totalsales" {
      TotalsEmpty(db, ProductDim);
    } else if name == "top3countries" {
      TotalsEmpty(db, CountryDim);
      TopCountriesSpec(db);
      BottomCountriesSpec(db);
    } else if name == "averagesales" {
      AverageSalesEmpty(db);
    }
  }
}
