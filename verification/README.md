# Petroleum Report: importers and reports

A Dafny model of the Petroleum-Report scripts. They load a feed of petroleum
sales records into a SQLite database. The schema has three dimension tables
(countries, products, years) and a sales fact table. Three reports are then
run over it: total sale per product, the three countries with the highest
and with the lowest total sale, and the average sale of each product over
the two intervals 2007-2010 and 2011-2014.

The repository holds three importers, and all three are modelled:

- `report.py`, `DataImporter.populate_data`, in module `IgnoreImport`. It
  keeps a per-run cache from name to id. On a miss it issues
  `INSERT OR IGNORE` into the UNIQUE column and takes the connection's
  `lastrowid` as the id.
- `addingdata.py`, in module `PreloadImport`. It fills the caches from the
  tables first. On a miss it issues a plain `INSERT`.
- `reports.py`, in module `DenseImport`. It hands out ids itself
  (`len(cache) + 1`). It has no year dimension and no UNIQUE columns.

`report.py`'s `QueryExecutor.execute_query` and its three queries are in
module `Reports`.

Modules:

- `Tables` models rows and tables as sequences in insertion order, plus the
  SQLite insert forms: `INSERT`, `INSERT OR IGNORE`, insert with an explicit
  id. A new rowid is one more than the largest id the table holds (see
  "Left out" for AUTOINCREMENT).
- `Schema` models feed records, sales facts, the database and the enforced
  constraints.
- `Grouping`, `Sorting` and `Collation` model `GROUP BY` with `SUM`/`COUNT`,
  `ORDER BY ... LIMIT`, and the BINARY text collation.
- `Scenarios` holds worked examples on small feeds. They include the
  two-record import, both reports over it, and the counterexample of the
  finding below.

Every importer is a fold over the feed: `Run` on a feed is `Step` applied to
the run over all but its last record. A database error the script does not
catch is an `Err` result. With it the whole run ends and nothing is
committed. The averages query is modelled as the per-group sum and count,
and `Grouping.Mean` is their exact quotient.

What the code does in three situations worth knowing:

- Re-running an import over the database it left:
  - `report.py` stores sales rows with wrong ids whenever a record's value is
    already stored (see Findings).
  - `reports.py` fails on the primary key on any second non-empty run
    (`DenseImport.ImportTwiceFails`).
  - `addingdata.py` re-runs cleanly (`PreloadImport.LoadTwiceKeepsDimensions`).
- Storage errors: nothing catches them in `addingdata.py` and `reports.py`,
  so the run stops before `commit`, and the model returns `Err`.
- Queries: an unrecognised query name prints a message (`InvalidQuery`). A
  recognised query that fetches no row stops the program instead:
  `max()` over an empty result raises `ValueError`, which no `except` clause
  names. The model calls this outcome `EmptyResult`.

## Model

| member | source | states |
|---|---|---|
| Tables.MaxId | report.py:42 | The largest id stored, or 0 for an empty table; no row has a larger id. |
| Tables.NextId | report.py:42 | The rowid a new row gets is positive, unused, and larger than every stored id. |
| Tables.Append | report.py:119-121 | A plain insert into sales adds one row at the end under a fresh id and keeps every earlier row. |
| Tables.InsertOrIgnore | report.py:88 | INSERT OR IGNORE leaves the table unchanged when the value is stored, otherwise appends it under the next rowid; the stored values gain exactly the value. |
| Tables.Insert | addingdata.py:81 | A plain INSERT into a UNIQUE column fails with a UNIQUE violation exactly when the value is stored; otherwise it appends the value under a fresh id, which it returns. |
| Tables.InsertWithId | reports.py:51 | An INSERT with an explicit id fails with a primary-key violation exactly when the id is taken; otherwise it keeps every row, adds exactly that id and that value, and keeps the PRIMARY KEY. |
| Tables.InsertWithIdResolves | reports.py:51 | After a successful INSERT with an explicit id, the join on that id finds the new row and every other id finds what it found before. |
| Tables.Resolve | report.py:157 | The join on a dimension's id finds the stored row with that id, or nothing exactly when no row has it. |
| Tables.LookupId | report.py:43 | The row a value is checked against on the UNIQUE column: a stored row of that value, or nothing exactly when the value is not stored. |
| Tables.FreshIdKeepsUniqueIds | report.py:60 | Appending under an unused id keeps the PRIMARY KEY. |
| Tables.FreshKeyKeepsUniqueKeys | report.py:43 | Appending an unstored value keeps the UNIQUE constraint. |
| Tables.InsertOrIgnoreKeepsConstraints | report.py:41-44 | INSERT OR IGNORE never breaks the PRIMARY KEY or the UNIQUE constraint. |
| Tables.ResolveUnique | report.py:42 | Under the PRIMARY KEY the join on an id finds exactly the row stored with it. |
| Tables.LookupUnique | report.py:43 | Under the UNIQUE constraint a name determines its row's id. |
| Tables.UniqueKeysCount | report.py:41-44 | Under the UNIQUE constraint a dimension table has exactly one row per distinct value. |
| Schema.WellFormed | report.py:40-69 | The constraints SQLite enforces: every id a PRIMARY KEY, country, product and year UNIQUE; the declared FOREIGN KEYs are not enforced. |
| Schema.ExtendsRefers | report.py:65-67 | A sales row that references its record's rows still does after more rows are appended. |
| IgnoreImport.Populate | report.py:73-123 | The importer, on a new connection with empty caches, only appends rows: one sales row per record, and each dimension ends up holding exactly its old values and the feed's. |
| IgnoreImport.PopulateData | report.py:73-123 | The importer as written does the same; which ids its sales rows carry is the finding below. |
| IgnoreImport.PopulateDataFixed | report.py:73-123 | The corrected importer does the same; that every sales row records its record is PopulateDataFixedRefers. |
| IgnoreImport.ResolveName | report.py:86-94 | A hit reuses the cached id and changes nothing; a miss inserts the value if it is new (and then reads the new id); if it was stored already the table and lastrowid are unchanged and the id read is the previous lastrowid; the cache gains the value and keeps every other entry. |
| IgnoreImport.ResolveNameKeepsConstraints | report.py:86-116 | Get-or-create keeps its table's PRIMARY KEY and UNIQUE constraint. |
| IgnoreImport.Step | report.py:79-123 | One record appends exactly one sales row, carrying its sale, and only appends to the tables; a dimension already holding the record's value is unchanged; when the caches name only stored values, each dimension gains exactly the record's value and they still do. |
| IgnoreImport.StepWellFormed | report.py:79-123 | One record keeps every PRIMARY KEY and UNIQUE constraint. |
| IgnoreImport.Run | report.py:79 | The loop appends one sales row per record and only appends. |
| IgnoreImport.RunSaleAt | report.py:119-121 | The i-th appended sales row carries the i-th record's sale. |
| IgnoreImport.RunStoredCountries | report.py:86-94 | After the loop the countries table holds exactly the countries it held plus the feed's countries. |
| IgnoreImport.RunStoredProducts | report.py:97-105 | As for countries, for the products table. |
| IgnoreImport.RunStoredYears | report.py:108-116 | As for countries, for the years table. |
| IgnoreImport.RunWellFormed | report.py:73-123 | The whole loop keeps every PRIMARY KEY and UNIQUE constraint. |
| IgnoreImport.ResolveNameTracks | report.py:86-94 | When the value is stored by this run or not at all (or ids are read back by name), get-or-create returns the id of the value's row and keeps the cache sound. |
| IgnoreImport.StepTracks | report.py:79-123 | Under that condition one record appends a sales row that references its own country, product and year rows. |
| IgnoreImport.RunTracking | report.py:79-123 | The condition holds throughout the loop. |
| IgnoreImport.RunRefersAt | report.py:79-123 | Under that condition the i-th appended sales row references the i-th record's rows. |
| IgnoreImport.RunTracks | report.py:79-123 | Under that condition every appended sales row records its record, in feed order. |
| IgnoreImport.PopulateDataRefersWhenUnseen | report.py:73-123 | The importer as written stores correct ids when none of the feed's values is stored yet (e.g. a fresh database). |
| IgnoreImport.PopulateDataFixedRefers | report.py:73-123 | With ids read back by name, every sales row records its record whatever the database held. |
| IgnoreImport.RunOverStoredKeepsDimensions | report.py:86-116 | A run over values that are all stored inserts no dimension row. |
| IgnoreImport.PopulateTwiceKeepsDimensions | report.py:73-123 | Importing a feed twice: the second import leaves the dimension tables as the first left them, and each import adds one sales row per record. |
| IgnoreImport.PopulateGrowsByNewValues | report.py:73-123 | Each dimension table ends with one row per distinct value of the old table and the feed. |
| PreloadImport.CacheOf | addingdata.py:49-71 | The preload maps exactly the stored values, each to the id of a row holding it. |
| PreloadImport.PreloadAgrees | addingdata.py:49-71 | On a table with its constraints, the preloaded cache gives every stored value the id a lookup by name finds. |
| PreloadImport.GetOrCreate | addingdata.py:80-85 | A hit reuses the cached id and changes nothing; a miss inserts the value under a fresh id and caches it; it fails with a UNIQUE violation exactly when the cache misses a stored value. |
| PreloadImport.GetOrCreateAgrees | addingdata.py:80-85 | With a cache that agrees with its table, get-or-create never fails, keeps the agreement, stores the value under the returned id and adds exactly that value. |
| PreloadImport.Preloaded | addingdata.py:45-71 | The caches after the preload list exactly the values the three tables hold. |
| PreloadImport.PreloadedAgree | addingdata.py:45-71 | On a database with its constraints, all three preloaded caches agree with their tables. |
| PreloadImport.Step | addingdata.py:73-105 | A successful record appends one sales row carrying its sale and only appends. |
| PreloadImport.StepAgree | addingdata.py:73-105 | With agreeing caches a record never fails, keeps the agreement, and appends a sales row referencing its own rows. |
| PreloadImport.StepStores | addingdata.py:79-101 | With agreeing caches each dimension gains exactly the record's value, and is unchanged when it already holds it. |
| PreloadImport.Run | addingdata.py:73 | A successful loop appends one sales row per record and only appends. |
| PreloadImport.RunAgree | addingdata.py:73-105 | From agreeing caches the loop never fails and keeps the agreement. |
| PreloadImport.RunRefersAt | addingdata.py:73-105 | The i-th appended sales row references the i-th record's rows. |
| PreloadImport.RunStoresCountries | addingdata.py:80-85 | The countries table gains exactly the feed's countries. |
| PreloadImport.RunStoresProducts | addingdata.py:88-93 | The products table gains exactly the feed's products. |
| PreloadImport.RunStoresYears | addingdata.py:96-101 | The years table gains exactly the feed's years. |
| PreloadImport.RunOverStoredKeepsDimensions | addingdata.py:73-101 | A loop over stored values succeeds and inserts no dimension row. |
| PreloadImport.Load | addingdata.py:45-105 | A successful import appends one sales row per record and only appends. |
| PreloadImport.LoadRecordsFacts | addingdata.py:45-105 | On any database with its constraints the import succeeds, keeps them, and appends one sales row per record, in order, referencing that record's rows. |
| PreloadImport.LoadStoresNewValues | addingdata.py:45-101 | Each dimension table gains exactly the feed's values. |
| PreloadImport.LoadTwiceKeepsDimensions | addingdata.py:45-105 | Importing the same feed again succeeds, leaves the dimension tables as they were, and adds one sales row per record. |
| DenseImport.Distinct | reports.py:48-50 | The names in order of first appearance: the same names, none twice, and a name listed before another occurs in the feed before every occurrence of the other. |
| DenseImport.CountrySeq | reports.py:42 | The country of each record, in order. |
| DenseImport.ProductSeq | reports.py:43 | The product of each record, in order. |
| DenseImport.Assign | reports.py:48-53 | A hit reuses the cached id; a miss takes the cache size plus one, caches it and inserts the row with that id, failing with a primary-key violation exactly when the id is taken. |
| DenseImport.AssignTabulates | reports.py:48-53 | On a table holding names 1..n under ids 1..n, assignment succeeds and keeps that shape with the name added if new. |
| DenseImport.Step | reports.py:41-65 | A successful record appends one sales row carrying its raw year and sale and only appends. |
| DenseImport.Run | reports.py:41 | A successful loop appends one sales row per record and only appends. |
| DenseImport.Import | reports.py:38-65 | A successful import appends one sales row per record and only appends. |
| DenseImport.RunFreshTabulates | reports.py:41-61 | On a fresh database, after every prefix of the feed, each table holds the distinct names seen so far, the k-th under id k. |
| DenseImport.FlatExtendsRefers | reports.py:32-33 | A sales row referencing its record's rows still does after more rows are appended. |
| DenseImport.StepTabulates | reports.py:41-65 | On tables of that shape a record succeeds, keeps the shape, and appends a sales row recording it. |
| DenseImport.RunFreshLast | reports.py:41-65 | On a fresh database the last record's sales row records it. |
| DenseImport.RunFreshRefersAt | reports.py:41-65 | On a fresh database the i-th sales row records the i-th record. |
| DenseImport.ImportFresh | reports.py:38-65 | On a fresh database the import succeeds; each table holds the distinct names in first-appearance order under ids 1..n; one sales row per record, in order, records it. |
| DenseImport.TabulatedIds | reports.py:49-50 | Ids handed out this way lie in 1..n, no two names share one, and the table holds exactly the ids 1..n. |
| DenseImport.RunConflict | reports.py:49-51 | A run starting with an empty cache on a table that holds id 1 fails on its first record with a primary-key violation. |
| DenseImport.ImportConflict | reports.py:38-51 | Importing a non-empty feed into a countries table holding id 1 fails with a primary-key violation. |
| DenseImport.ImportTwiceFails | reports.py:38-65 | Re-running the import with the same non-empty feed fails on the primary key. |
| Grouping.NoRowsNoSum | report.py:155 | SUM over no rows of a group is 0. |
| Grouping.AddTo | report.py:158 | Adding a row adds at most one group; the group keys gain exactly the row's key, and every group other than the key's was there before. |
| Grouping.AddToFind | report.py:155-158 | The key's group gains the row's sale and one more row, or starts with them if it did not exist; the group of every other key is found as before. |
| Grouping.Group | report.py:158 | GROUP BY yields no more groups than rows, and the group keys are exactly the keys of the rows. |
| Grouping.GroupDistinct | report.py:158 | GROUP BY yields each key at most once. |
| Grouping.GroupFind | report.py:155-158 | The group for a key carries the SUM and COUNT of exactly the rows with that key, and exists exactly when such a row exists. |
| Grouping.GroupRows | report.py:155-158 | Every group carries the SUM and COUNT of its key's rows and is non-empty; a key has a group exactly when some row carries it. |
| Grouping.SortKeepsDistinct | report.py:250-251 | ORDER BY keeps group keys distinct. |
| Grouping.SortKeepsKeys | report.py:250-251 | ORDER BY neither adds nor drops a group. |
| Grouping.Mean | report.py:245 | AVG times the count gives the sum, and is non-negative for a non-negative sum. |
| Sorting.InsertBy | report.py:185 | Insertion adds exactly the one row. |
| Sorting.SortBy | report.py:185 | ORDER BY returns a permutation of its input. |
| Sorting.InsertSorted | report.py:185 | Inserting into a sorted list keeps it sorted. |
| Sorting.SortSorted | report.py:185 | ORDER BY output is sorted by its key. |
| Sorting.TopBy | report.py:185-186 | LIMIT n keeps min(n, count) of the input rows. |
| Sorting.TopByOrder | report.py:185-186 | The rows kept are sorted and none follows a row dropped. |
| Collation.StrLeTotal | report.py:251 | Any two texts are ordered one way or the other. |
| Collation.StrLeTransitive | report.py:251 | The text order is transitive. |
| Collation.StrLeAntisymmetric | report.py:251 | Texts ordered both ways are equal. |
| Collation.PrefixFirst | report.py:251 | A proper prefix sorts strictly first. |
| Collation.StrLe | report.py:251 | A text sorts no later than any text it is a prefix of, itself included. |
| Collation.StrLeFirstDifference | report.py:251 | A text sorts no later than another exactly when it is a prefix of it, or where they first differ it has the smaller character. |
| Reports.Matches | report.py:157 | The join on an id pairs with exactly the values of the rows with that id, no more of them than the table has rows. |
| Reports.JoinDim | report.py:155-158 | Every joined row's group (id, name) is a row of the dimension. |
| Reports.MatchesResolve | report.py:157 | Under the PRIMARY KEY, the join on an id matches exactly the one row with that id, or none. |
| Reports.JoinDimSums | report.py:155-158 | The joined rows of a group (id, name) sum and count exactly the sales referencing id when name is that id's row, and are none otherwise. |
| Reports.Totals | report.py:154-159 | GROUP BY the dimension id gives each group once; what each row holds is TotalsSpec. |
| Reports.TotalSales | report.py:154-159 | The total-sales report lists each product group once. |
| Reports.TotalsSpec | report.py:154-159 | The totals report has one row per dimension id that some sale references and the dimension holds; each row has its row's name, the total and number of the sales referencing it, and no id appears twice. |
| Reports.CountRefPositive | report.py:158 | A dimension id has sales exactly when some sales row references it. |
| Reports.TotalsEmpty | report.py:154-164 | The totals query returns nothing exactly when no sales row joins a row of the dimension. |
| Reports.SumOrders | report.py:185 | Ordering by total, descending or ascending, is a total preorder. |
| Reports.TopCountries | report.py:180-187 | At most three rows, all taken from the country totals. |
| Reports.BottomCountries | report.py:209-216 | At most three rows, all taken from the country totals. |
| Reports.TopCountriesSpec | report.py:180-187 | The top list holds min(3, n) of the n country totals, highest first; no dropped country has a higher total than a kept one. |
| Reports.BottomCountriesSpec | report.py:209-216 | The bottom list holds min(3, n) of the country totals, lowest first; no dropped country has a lower total than a kept one. |
| Reports.FewCountriesListAll | report.py:180-216 | With at most three countries, both lists hold every country total. |
| Reports.IntervalOf | report.py:241-244 | A year's label is '2007-2010' for every year up to 2010 and '2011-2014' for every later one. |
| Reports.Label | report.py:241-244 | An interval's label is one of the two texts, '2007-2010' exactly for the first interval. |
| Reports.LabelOrder | report.py:241-244 | The two interval labels are distinct and sort as the intervals do, so grouping by label is grouping by interval. |
| Reports.BucketLeAntisymmetric | report.py:251 | Two groups ordered both ways share their (product, interval). |
| Reports.BucketOrder | report.py:251 | Ordering by product, then interval, is a total preorder. |
| Reports.AvgJoin | report.py:246-249 | Every joined row carries a positive sale. |
| Reports.BucketOf | report.py:246-248 | A sale falls in a group exactly when its product id and its year id both name stored rows; the group's product is that product row's name. |
| Reports.AvgStep | report.py:246-249 | A sales row joins one entry, in its product's and year's group, when its sale is positive and both rows exist, and none otherwise. |
| Reports.AvgJoinSums | report.py:246-250 | The joined rows of a group sum and count exactly the positive sales whose rows put them in it. |
| Reports.BucketSumAtLeastCount | report.py:249 | Only positive sales are averaged, so a group's total is at least its size. |
| Reports.AverageSales | report.py:239-252 | Each (product, interval) group appears once. |
| Reports.AverageSalesOrder | report.py:250-251 | One row per (product, interval), in strictly increasing (product, interval) order. |
| Reports.AverageSalesRows | report.py:239-252 | Every row carries the total and number of the positive sales in its group, so its average is over exactly those. |
| Reports.AverageSalesCovers | report.py:246-250 | A (product, interval) has a row exactly when some positive sale falls in it. |
| Reports.NonPositiveSaleIgnored | report.py:249 | Adding a sale that is not positive leaves the averages report unchanged. |
| Reports.BucketCountPositive | report.py:249-250 | A group has a positive count exactly when some positive sale falls in it. |
| Reports.AverageSalesEmpty | report.py:239-258 | The averages query returns nothing exactly when no positive sale falls in a group. |
| Reports.ParseQuery | report.py:137-145 | A name selects the query of that name, and none exactly when it is not one of the three. |
| Reports.ParseQueryName | report.py:137-142 | Every query is selected by its own name. |
| Reports.Answer | report.py:151-260 | A recognised query is never invalid; a report it shows is the one for that query and is not empty, and the two country lists have the same number of rows, at most three. |
| Reports.Execute | report.py:136-145 | A query name is invalid exactly when it is not one of the three. |
| Reports.ExecuteSpec | report.py:130-145 | A name is invalid exactly when it is not one of the three; a valid query stops on an empty result exactly when its joins find nothing; both country lists have min(3, n) rows. |
| Scenarios.FirstImport | report.py:73-123 | PopulateData and PopulateDataFixed both store a single record on a fresh database with ids 1 for every row. |
| Scenarios.SecondImportDangles | report.py:86-94 | Re-importing the record stores a sales row with ids 0, which references no row, so the product total stays 10. |
| Scenarios.SecondImportFixed | report.py:86-94 | With ids read back by name the second sales row has ids 1 and the product total is 20. |
| Scenarios.SecondRuns | report.py:73-123 | The databases the two second runs leave. |
| Scenarios.SecondRunTotals | report.py:154-159 | After the second run as written, the totals report shows Gasoline with 10 over one sale. |
| Scenarios.SecondRunFixedTotals | report.py:154-159 | After the corrected second run it shows Gasoline with 20 over two sales. |
| Scenarios.MixedJoin | report.py:246-249 | The averages join drops the non-positive sale and keeps the others in order. |
| Scenarios.MixedGroup | report.py:250 | Grouping puts 2009 and 2010 together and 2012 apart. |
| Scenarios.AverageExample | report.py:239-252 | The averages report on sales in 2009, 2010 (one negative) and 2012 is Gasoline 2007-2010 (40 over 2) then Gasoline 2011-2014 (20 over 1). |
| Scenarios.ResolveY | report.py:86-116 | The second record's new country and year get id 2; its product comes from the cache. |
| Scenarios.StepY | report.py:79-123 | The second record's step leaves the two-record database. |
| Scenarios.BothImport | report.py:73-123 | Importing the two records into a fresh database leaves countries X=1, Y=2, product Gasoline=1, years 2009=1, 2012=2, and two sales rows referencing them. |
| Scenarios.BothTotals | report.py:154-159 | Its totals report is the single row Gasoline, 30. |
| Scenarios.BothAverages | report.py:239-252 | Its averages report is Gasoline 2007-2010 (10 over 1) then Gasoline 2011-2014 (20 over 1). |
| Scenarios.ResolveW | report.py:86-116 | On countries X, products Gasoline and Diesel, year 2009, the record (Y, Gasoline, 2009) inserts Y under id 2; the ignored inserts of Gasoline and 2009 both read that id 2. |
| Scenarios.ResolveWFixed | report.py:86-116 | Reading ids back by name gives Y 2, Gasoline 1 and 2009 1 instead. |
| Scenarios.WrongProduct | report.py:86-123 | The importer as written stores the Gasoline sale as product 2 (Diesel) and year id 2 (no row), so the row does not record its record. |
| Scenarios.RightProduct | report.py:86-123 | The corrected importer stores it as product 1 and year 1. |
| Scenarios.WrongProductTotals | report.py:154-159 | The totals report over that database shows Diesel with 5 and no row for Gasoline. |
| Scenarios.EmptyDatabase | report.py:137-164 | On an empty database every query stops on an empty result and an unknown name is invalid. |

## Left out

- Fetching the feed over HTTP and decoding the JSON. Records enter the model already decoded, with `int()` applied to year and sale. A missing field or a non-numeric value raises an exception no `except` clause names, and the model has no such record.
- Connections, `CREATE TABLE IF NOT EXISTS`, `commit` and `close`. The schema appears as the constraints in `Schema.WellFormed`: the PRIMARY KEYs and UNIQUE columns. An `Err` result stands for the run stopping before `commit`, which leaves the database as it was. The model does not spell out that rollback.
- FOREIGN KEY checks. The sales tables of all three scripts (report.py:65-67, addingdata.py:38-40, reports.py:32-33) declare FOREIGN KEYs, but SQLite enforces them only under `PRAGMA foreign_keys = ON`, which is off by default and which no script sets. So a sales row naming an id that no dimension row has is stored, and the model lets `Tables.Append` and the sales inserts succeed for it. The dangling row of the finding below depends on this.
- Printing and column-width formatting of the reports. The reports are modelled as the rows each query fetches.
- The `except sqlite3.Error` blocks in `report.py`, which print and continue. None of the statements the model issues there can fail, so those branches are not modelled.
- `finally: conn.close()` in `execute_query` when `connect` itself fails, which would raise on an unbound name. Opening the database is outside the model.
- The command line: `sys.argv`, the usage message and the exit code.
- 64-bit integer bounds: ids, sales and SUM are unbounded integers. SQLite's overflow error on an integer SUM is not modelled.
- Tables.NextId: the tables of `report.py` and `addingdata.py` are AUTOINCREMENT. SQLite then takes a new rowid from a per-table sequence counter, and an insert that fails its UNIQUE check may already have advanced that counter. The model takes one more than the largest stored id and keeps no counter, so it does not reproduce the gaps such inserts leave.
- Tables.InsertOrIgnore: for the same reason, the row it appends gets one more than the largest stored id. After an earlier ignored insert into the same table, SQLite may give a larger id. The row's value, the set of stored values and the last-insert rowid it leaves after an ignored insert are as SQLite gives them.
- Grouping.Mean: AVG is a floating-point division in SQLite. The model gives its exact rational value, with the sum and count kept separately.
- Reports.TotalsSpec: the totals query has no ORDER BY. The contract states the rows' contents but not their order; the model lists groups in order of first occurrence.
- Reports.TopCountriesSpec: SQLite leaves the order of equal totals unspecified. The contract states only what every admissible order shares. Which countries LIMIT keeps among equal totals is therefore left open.
- Reports.BottomCountriesSpec: as for the top list, ties are left open.
- `DataImporter.import_data` in `report.py`: the fetch, and the logging of fetch and database errors to `error.log`. What it wraps, `create_tables` and `populate_data`, is modelled.

## Findings

| source | as written | input that shows it | evidently intended | confidence | as-written member | corrected member |
|---|---|---|---|---|---|---|
| report.py:88-90 (also 99-101, 110-112) | After `INSERT OR IGNORE` the id is read from `cursor.lastrowid`. When the name is already stored the insert is ignored and `lastrowid` keeps whatever the last successful insert on the connection left: 0 on a new connection, the id of the previous record's sales row, or, within the same record, the id of a country or product just inserted. So the sale is either detached from every row or booked to another product or year. | (1) Import `[X, Gasoline, 2009, 10]` into an empty database, then import it again: the second sales row gets ids 0, which name no row, and `totalsales` reports Gasoline 10 instead of 20. (2) Into countries `[1:X]`, products `[1:Gasoline, 2:Diesel]`, years `[1:2009]`, import `[Y, Gasoline, 2009, 5]`: Y is inserted as 2, and Gasoline and 2009 both read 2, so the sale is stored as `Fact(2, 2, 2, 5)` and `totalsales` reports it under Diesel. | A name that is already stored gets the id of its existing row, as a lookup by name returns. | not executed | IgnoreImport.PopulateData (Scenarios.SecondImportDangles, Scenarios.SecondRunTotals, Scenarios.WrongProduct, Scenarios.WrongProductTotals) | IgnoreImport.PopulateDataFixed (IgnoreImport.PopulateDataFixedRefers, Scenarios.SecondImportFixed, Scenarios.SecondRunFixedTotals, Scenarios.RightProduct) |
