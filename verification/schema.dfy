/**
 * The normalised schema that report.py and addingdata.py create: three
 * dimension tables (countries, products, years) and a sales fact table whose
 * rows reference them by id. The feed records, already decoded and with
 * `int()` applied to year and sale, are the importers' input.
 */
module Schema {
  import opened Tables

  /** One element of the feed. */
  datatype Record = Record(country: string, product: string, year: int, sale: int)

  /** The payload of a sales row: ids into the three dimensions, and the sale. */
  datatype Fact = Fact(countryId: int, productId: int, yearId: int, sale: int)

  datatype Db = Db(
    countries: Table<string>,
    products: Table<string>,
    years: Table<int>,
    sales: Table<Fact>)

  function EmptyDb(): Db
  {
    Db([], [], [], [])
  }

  /**
   * The constraints of the CREATE TABLE statements that SQLite enforces:
   * every id is a PRIMARY KEY, and country names, product names and years are
   * UNIQUE. The sales table also declares FOREIGN KEYs on its three ids, but
   * SQLite checks those only under `PRAGMA foreign_keys = ON`, which is off by
   * default and which no script sets; so a sales row may name an id no
   * dimension row has, and none is required here.
   */
  predicate WellFormed(db: Db)
  {
    && UniqueIds(db.countries) && UniqueKeys(db.countries)
    && UniqueIds(db.products) && UniqueKeys(db.products)
    && UniqueIds(db.years) && UniqueKeys(db.years)
    && UniqueIds(db.sales)
  }

  /** The distinct country names of a feed. */
  function CountryNames(data: seq<Record>): set<string>
  {
    if |data| == 0 then {} else CountryNames(data[..|data| - 1]) + {data[|data| - 1].country}
  }

  /** The distinct product names of a feed. */
  function ProductNames(data: seq<Record>): set<string>
  {
    if |data| == 0 then {} else ProductNames(data[..|data| - 1]) + {data[|data| - 1].product}
  }

  /** The distinct years of a feed. */
  function YearValues(data: seq<Record>): set<int>
  {
    if |data| == 0 then {} else YearValues(data[..|data| - 1]) + {data[|data| - 1].year}
  }

  /** A sales row that records `rec`: each id names the row holding the record's value. */
  predicate Refers(db: Db, f: Fact, rec: Record)
  {
    && Row(f.countryId, rec.country) in db.countries
    && Row(f.productId, rec.product) in db.products
    && Row(f.yearId, rec.year) in db.years
    && f.sale == rec.sale
  }

  /** `b` is `a` with rows appended only: no row is changed or removed. */
  predicate Extends(a: Db, b: Db)
  {
    && a.countries <= b.countries
    && a.products <= b.products
    && a.years <= b.years
    && a.sales <= b.sales
  }

  predicate SameDimensions(a: Db, b: Db)
  {
    a.countries == b.countries && a.products == b.products && a.years == b.years
  }

  /** The rows appended after the first `base` sales rows record `data`, one each, in order. */
  predicate RecordsFacts(db: Db, base: nat, data: seq<Record>)
  {
    && |db.sales| == base + |data|
    && forall i :: 0 <= i < |data| ==> Refers(db, db.sales[base + i].key, data[i])
  }

  lemma ExtendsRefers(a: Db, b: Db, f: Fact, rec: Record)
    requires Extends(a, b) && Refers(a, f, rec)
    ensures Refers(b, f, rec)
  {
    assert b.countries == a.countries + b.countries[|a.countries|..];
    assert b.products == a.products + b.products[|a.products|..];
    assert b.years == a.years + b.years[|a.years|..];
  }
}
