# Financial-data cache and repository layer, modelled in Dafny

This project models the persistence core of an AI hedge-fund application.
- **Cache repository.** `FinancialDataCacheRepository` keeps fetched market data (prices, financial metrics, line items, insider trades, company news) in a `financial_data_cache` table. Each row is keyed by ticker, data type and an optional period.
- **Cache adapter.** `DatabaseBackedCache` offers a get/set pair per data category on top of that repository.
- **Generic repository.** `BaseRepository` supplies the get, get_all, create, update and delete every repository relies on.
- **Analysis repositories.** They hold analysis requests, with a status rule for their completion time, and the analysts' results. Their queries filter, order and page.

The model works on values:
- A database table is a `seq` of row datatypes inside a repository class whose methods reassign it.
- An update in place becomes replacing the row with the same primary key.
- SQL `filter`, `order_by`, `offset`, `limit` and `first` are the functions of module `Query`.
- `datetime.utcnow()` becomes a parameter `now`.
- A `DateTime` is a record of calendar and clock fields, as Python's `datetime` is. Its instant on the time line, `Dates.ToTimestamp`, is an integer number of microseconds since 0001-01-01; stored times are such integers.

Modules:
- `Optional`: the option type.
- `Query`: SQL query combinators and their laws.
- `TextOrder`: Python's `str` ordering, with `min` and `max`.
- `Dates`: the calendar, the `fromisoformat` subset and `strptime("%Y-%m-%d")`, and conversion to a time line.
- `Values`: JSON documents and column values.
- `Base`: the generic repository class.
- `Cache`: rows, lookups, the upsert specification, eviction, and the repository class.
- `CacheAdapter`: categories, date conversion, date-range derivation, and the adapter class.
- `Analysis`: the request and result rows, the status rule, and both repository classes.

How the pieces connect:
- The generic `Repository` takes a `Schema` that tells it how to read and write a row's columns by name, the way `hasattr`/`setattr` do. Every concrete schema is proved lawful: a column written reads back, and nothing else moves.
- `update_or_create` is specified by the function `Cache.Upserted`. The method `UpdateOrCreate` is proved to produce exactly that table and row.
- The lemmas about `Upserted` state the update path, the create path, the lookup round trip, idempotence of the row count, and independence of other keys. The adapter's setters are specified through `Upserted` in the same way.

## Model

| member | source | states |
|---|---|---|
| Query.Where | src/database/repositories/cache.py:36-42 | a SQL filter keeps at most the rows it is given |
| Query.WhereMembers | src/database/repositories/cache.py:36-42 | a row is in the filtered table exactly when it is a stored row that passes the filter (both directions) |
| Query.WherePartition | src/database/repositories/cache.py:119-122 | a filter and its negation split the table: their counts add up to the table size |
| Query.WhereConcat | src/database/repositories/base.py:45-47 | filtering a table with a row appended is filtering the old table, then the new row |
| Query.WhereSingle | src/database/repositories/base.py:28 | when exactly one row passes, the filter yields that row alone |
| Query.WhereAllBut | src/database/repositories/base.py:75-76 | when all rows but one pass, the filter yields the table without that row, in order |
| Query.OrderByDesc | src/database/repositories/cache.py:47 | `order_by(col.desc())` is a permutation of its input, sorted by descending key |
| Query.OrderBy | src/database/repositories/analysis.py:72 | `order_by(col)` is a permutation of its input, sorted by ascending key |
| Query.Page | src/database/repositories/base.py:34 | `offset(skip).limit(limit)` is the contiguous slice from `skip`, of the length the bounds allow |
| Query.FirstOfOrderByDesc | src/database/repositories/cache.py:47 | the first row by descending key is a stored row whose key is maximal among all rows |
| Query.FirstOfOrderByDescUnique | src/database/repositories/cache.py:47 | when one row has a strictly greatest key, `first()` after descending order returns it |
| Query.NewestFirst | src/database/repositories/analysis.py:43-50 | filter, descending order and paging: the result is the window from `skip` of at most `limit` rows of some descending ordering of exactly the matches (as a multiset), so no row appears more often than it is stored; hence its size, rows that all match, descending keys, all matches when unpaged and they fit, and the newest match leading |
| Query.OldestFirst | src/database/repositories/analysis.py:69-75 | filter, ascending order and limit: the result is the first `limit` rows of some ascending ordering of exactly the matches (as a multiset); hence its size, matching rows, no row more often than stored, ascending keys, all matches when they fit, and the oldest match leading |
| Query.WhereMultiplicity | src/database/repositories/analysis.py:102-106 | a filter keeps each passing row as many times as the table holds it, and no failing row |
| TextOrder.LexLeTotal | src/database/data/db_cache_adapter.py:49-50 | Python's string comparison is total, so `min`/`max` of date strings are defined |
| TextOrder.LexLeTransitive | src/database/data/db_cache_adapter.py:49-50 | Python's string comparison is transitive |
| TextOrder.LexLeAntisymmetric | src/database/data/db_cache_adapter.py:49-50 | two strings that compare both ways are equal |
| TextOrder.Min | src/database/data/db_cache_adapter.py:49 | `min` of a non-empty list of strings is one of them and is at most each of them |
| TextOrder.Max | src/database/data/db_cache_adapter.py:50 | `max` of a non-empty list of strings is one of them and is at least each of them |
| Dates.FromIsoFormat | src/database/data/db_cache_adapter.py:30 | `fromisoformat` yields only valid date-times |
| Dates.FromIsoFormatReads | src/database/data/db_cache_adapter.py:30 | for any year, month and day up to 31 written `YYYY-MM-DD`, `fromisoformat` yields those fields exactly when they form a calendar date, and None otherwise |
| Dates.FromIsoFormatOfDate | src/database/data/db_cache_adapter.py:30 | `fromisoformat` of the zero-padded `YYYY-MM-DD` text of a date gives back that date |
| Dates.PaddedValue | src/database/data/db_cache_adapter.py:30 | zero-padded decimal digits read back as the number written |
| Dates.StrptimeYmd | src/database/data/db_cache_adapter.py:34 | `strptime(s, "%Y-%m-%d")` yields only valid dates at midnight, and only from strings of 7 to 10 characters with a dash after the year |
| Dates.StrptimeYmdReads | src/database/data/db_cache_adapter.py:34 | for any year, month and day up to 31 written with one- or two-digit month and day, `strptime` yields those fields exactly when they form a calendar date, and None otherwise |
| Dates.StrptimeYmdOfDate | src/database/data/db_cache_adapter.py:34 | every calendar date written with a four-digit year and a month and day of one or two digits each parses back to that date at midnight |
| Dates.RangeEnds | src/database/repositories/cache.py:118 | the `datetime` range on the time line: 0001-01-01T00:00:00 is instant 0 and the last microsecond of 9999-12-31 is `MaxInstant`, the bounds the eviction cutoff must stay within |
| Dates.TimestampOrder | src/database/repositories/cache.py:121 | comparing instants on the time line agrees with comparing the calendar dates, and equal instants are equal dates |
| Values.PayloadRoundTrip | src/database/data/db_cache_adapter.py:42 | reading a stored list of records back gives the same records in the same order |
| Values.PayloadJsonInjective | src/database/models.py:195 | different lists are stored as different documents |
| Base.ReplaceStoredRow | src/database/repositories/base.py:66-68 | under the primary key, replacing a stored row changes that position alone and keeps keys unique |
| Base.KeyFilterHit | src/database/repositories/base.py:28 | under the primary key, filtering by a stored key yields exactly that row |
| Base.KeyFilterMiss | src/database/repositories/base.py:75-76 | under the primary key, filtering out a stored key leaves all other rows in order |
| Base.DeleteStoredRow | src/database/repositories/base.py:75-77 | removing a stored row keeps keys unique, keeps them below the sequence, and leaves no row with that key |
| Base.FilterKeepsKeys | src/database/repositories/cache.py:119-122 | a bulk delete keeps keys unique and below the sequence |
| Base.Repository.constructor | src/database/repositories/base.py:17-22 | a repository over a lawful schema and the table the session holds (unique keys, all below the sequence) starts with exactly those rows and that sequence, and is valid |
| Base.Repository.Get | src/database/repositories/base.py:28 | None exactly when no row has the key; else the stored row with that key |
| Base.Repository.GetAll | src/database/repositories/base.py:34 | at most `limit` rows, row `k` being stored row `skip + k`, short only at the end of the table |
| Base.Repository.Create | src/database/repositories/base.py:40-49 | exactly one row appended, with the given attributes, under the next key; earlier rows unchanged; found by `get` |
| Base.Repository.Update | src/database/repositories/base.py:57-69 | each named attribute the row has takes its new value, unknown names are ignored, the key and every other attribute stay; the table holds the returned row in place of the old one |
| Base.Repository.Delete | src/database/repositories/base.py:75-78 | for a stored key: returns that row, removes exactly it, keeps all others in order, and `get` then misses |
| Cache.CacheSchemaLawful | src/database/models.py:186-196 | the cache row's columns read back what was written, and no write touches another column or the key |
| Cache.CacheRowsAgree | src/database/models.py:186-196 | a cache row is determined by its key and its column values |
| Cache.GetByTickerAndType | src/database/repositories/cache.py:36-47 | None exactly when no row matches ticker, type and a truthy period; else a matching stored row with the latest `last_updated` of all matches |
| Cache.FalsyPeriodIgnored | src/database/repositories/cache.py:44-45 | a null or empty period is the same lookup as no period, and it hits exactly when some row has the ticker and type |
| Cache.GetByDateRange | src/database/repositories/cache.py:60-73 | None exactly when no matching row contains the range; a hit has both bounds set, `start_date <= start` and `end_date >= end` inclusive, and is the newest such row |
| Cache.UpdateDataFits | src/database/repositories/cache.py:92-98 | every column `update_data` names can hold the value given for it |
| Cache.RefreshedIsUpdate | src/database/repositories/cache.py:92-100 | the refreshed row is exactly what the generic `update` makes of the existing row and `update_data` |
| Cache.UpsertKeepsKeys | src/database/repositories/cache.py:88-111 | `update_or_create` keeps keys unique and below the sequence |
| Cache.UpsertUpdatePath | src/database/repositories/cache.py:92-100 | on a hit: same row count and sequence; the payload is replaced and `last_updated` is now; `end_date` changes only when one is given; key, ticker, type, period and `start_date` are kept; every other row is unchanged |
| Cache.UpsertCreatePath | src/database/repositories/cache.py:103-111 | on a miss: exactly one row appended, carrying every argument, under the next key, refreshed now |
| Cache.LookupAfterUpsert | src/database/repositories/cache.py:88-111 | after `update_or_create`, the lookup of the same key, and the lookup by ticker and type alone, return the row just written, holding the data given (with the clock past every stored refresh) |
| Cache.LookupFindsNewest | src/database/repositories/cache.py:47 | a matching row strictly newer than every other row is the one the lookup returns |
| Cache.UpsertTwice | src/database/repositories/cache.py:88-100 | after one upsert the key hits, so a second upsert of the same key takes the update path: at most one row is added in total |
| Cache.UpsertKeepsOnePerKey | src/database/repositories/cache.py:88-111 | when no two rows share a (ticker, type, period) key, none do after an upsert: a hit keeps the row's key, a miss adds a key no row has |
| Cache.OneEntryAfterUpsert | src/database/repositories/cache.py:88-111 | with a truthy period and one row per key before, exactly one row matches the key just upserted |
| Cache.UpsertTwiceOneEntry | src/database/repositories/cache.py:88-111 | upserting the same truthy key twice leaves exactly one row under it |
| Cache.UpsertLeavesOtherKeys | src/database/repositories/cache.py:88-111 | upserting one (ticker, type) pair leaves the lookup of every other pair unchanged, whatever period either uses |
| Cache.UpdateTakesUpdatePath | src/database/repositories/cache.py:90-100 | the table the generic `update` leaves on a hit is the upsert specification's table |
| Cache.EvictionSpec | src/database/repositories/cache.py:118-125 | a row is kept exactly when `last_updated >= cutoff`, so a row at the cutoff stays; the number removed is the number of stale rows |
| Cache.FinancialDataCacheRepository.constructor | src/database/repositories/cache.py:22 | a cache repository over the session's table (unique keys below the sequence) holds exactly that table and is valid |
| Cache.FinancialDataCacheRepository.UpdateOrCreate | src/database/repositories/cache.py:75-111 | the table afterwards and the row returned are those of the upsert specification |
| Cache.FinancialDataCacheRepository.ClearOldCache | src/database/repositories/cache.py:113-125 | `None`, with the table untouched, exactly when `now - timedelta(days)` overflows (more than 999999999 days either way, or a cutoff outside the years 1 to 9999); otherwise keeps exactly the rows with `last_updated >= now - days`, in order, and returns the number of rows deleted |
| CacheAdapter.DataTypeInjective | src/database/data/db_cache_adapter.py:40-172 | the five categories are stored under five different data types |
| CacheAdapter.ConvertToDatetime | src/database/data/db_cache_adapter.py:25-36 | None or empty input gives None; any date produced is a valid one; it never fails otherwise |
| CacheAdapter.ConvertIsoDate | src/database/data/db_cache_adapter.py:29-30 | a well-formed `YYYY-MM-DD` string converts to that date |
| CacheAdapter.ConvertDateString | src/database/data/db_cache_adapter.py:25-36 | every calendar date written `YYYY-M-D` with a one- or two-digit month and day converts to that date at midnight; `fromisoformat` rejects every such string that is not fully padded, so those go through the fallback |
| CacheAdapter.ConvertFallsBack | src/database/data/db_cache_adapter.py:31-34 | the example "2023-1-5": `fromisoformat` rejects it and the `%Y-%m-%d` fallback reads 5 January 2023 |
| CacheAdapter.ConvertRejectsBadDay | src/database/data/db_cache_adapter.py:29-36 | every day past the end of its month, written `YYYY-MM-DD` or with an unpadded month, yields None under both parsers rather than an error |
| CacheAdapter.FieldValues | src/database/data/db_cache_adapter.py:48 | the list comprehension picks the field of each record that has it |
| CacheAdapter.FieldValuesFromData | src/database/data/db_cache_adapter.py:48 | every value picked is the field of some record |
| CacheAdapter.DateBounds | src/database/data/db_cache_adapter.py:48-50 | both bounds are None exactly when no record has the field; otherwise the start is the raw-string minimum and the end the raw-string maximum of the records' fields, start `<=` end, each taken from a record |
| CacheAdapter.BoundsOfTwo | src/database/data/db_cache_adapter.py:48-50 | for two records the bounds are the two values in string order |
| CacheAdapter.UnpaddedSortsLast | src/database/data/db_cache_adapter.py:49-50 | in string order "2023-01-10" comes before "2023-1-5" |
| CacheAdapter.RawBoundsCanInvert | src/database/data/db_cache_adapter.py:48-54 | the example "2023-1-5" and "2023-01-10": the raw-string bounds convert to a start (10 January) after the end (5 January) |
| CacheAdapter.IsoDayConverts | src/database/data/db_cache_adapter.py:30 | "2023-01-10" converts to 10 January 2023 |
| CacheAdapter.Cached | src/database/data/db_cache_adapter.py:38-43 | a getter returns None exactly when no row has the ticker and the category's type; else the data of such a row whose `last_updated` is the latest among them |
| CacheAdapter.GetAfterSet | src/database/data/db_cache_adapter.py:38-64 | a get after a set for the same ticker and category returns the list passed to the set, records in order |
| CacheAdapter.SetLeavesOthers | src/database/data/db_cache_adapter.py:40-68 | a set for one (category, ticker) leaves every other category's and ticker's get unchanged |
| CacheAdapter.SetStoresCategory | src/database/data/db_cache_adapter.py:57-64 | a setter writes under the category's data type, with period "daily" for prices and none for the rest, and the table keeps that shape |
| CacheAdapter.DatabaseBackedCache.constructor | src/database/data/db_cache_adapter.py:20-23 | a new adapter holds a fresh cache repository over the session's cache table, with exactly its rows and sequence |
| CacheAdapter.DatabaseBackedCache.Set | src/database/data/db_cache_adapter.py:45-64 | upserts the whole list under the category's type and period with the converted raw bounds, after which the category's get returns the list |
| CacheAdapter.DatabaseBackedCache.GetPrices | src/database/data/db_cache_adapter.py:38-43 | the newest "prices" row's data, None exactly when there is none |
| CacheAdapter.DatabaseBackedCache.SetPrices | src/database/data/db_cache_adapter.py:45-64 | stores under "prices"/"daily" with the range of the "time" field; `get_prices` then returns the list |
| CacheAdapter.DatabaseBackedCache.GetFinancialMetrics | src/database/data/db_cache_adapter.py:66-71 | the newest "financial_metrics" row's data, None exactly when there is none |
| CacheAdapter.DatabaseBackedCache.SetFinancialMetrics | src/database/data/db_cache_adapter.py:73-91 | stores under "financial_metrics" with the range of "report_period"; the getter then returns the list |
| CacheAdapter.DatabaseBackedCache.GetLineItems | src/database/data/db_cache_adapter.py:93-98 | the newest "line_items" row's data, None exactly when there is none |
| CacheAdapter.DatabaseBackedCache.SetLineItems | src/database/data/db_cache_adapter.py:100-118 | stores under "line_items" with the range of "report_period"; the getter then returns the list |
| CacheAdapter.DatabaseBackedCache.GetInsiderTrades | src/database/data/db_cache_adapter.py:120-125 | the newest "insider_trades" row's data, None exactly when there is none |
| CacheAdapter.DatabaseBackedCache.SetInsiderTrades | src/database/data/db_cache_adapter.py:127-145 | stores under "insider_trades" with the range of "filing_date"; the getter then returns the list |
| CacheAdapter.DatabaseBackedCache.GetCompanyNews | src/database/data/db_cache_adapter.py:147-152 | the newest "company_news" row's data, None exactly when there is none |
| CacheAdapter.DatabaseBackedCache.SetCompanyNews | src/database/data/db_cache_adapter.py:154-172 | stores under "company_news" with the range of "date"; the getter then returns the list |
| Analysis.RequestSchemaLawful | src/database/models.py:135-148 | the request row's columns read back what was written, and no write touches another column or the key |
| Analysis.ResultSchemaLawful | src/database/models.py:154-164 | the result row's columns read back what was written, and no write touches another column or the key |
| Analysis.CompletedAtRule | src/database/repositories/analysis.py:82-87 | the status becomes the one given; a given `completed_at` is stored as given; without one, "completed" stamps now and any other status keeps the old value; no other field changes |
| Analysis.StatusChangeSettles | src/database/repositories/analysis.py:82-87 | repeating a status change with an explicit time, or to a status other than "completed", changes nothing more |
| Analysis.LeavesPendingQueue | src/database/repositories/analysis.py:65-83 | after its status moves off "pending", a request is not among the pending requests |
| Analysis.OthersStayQueued | src/database/repositories/analysis.py:65-83 | every other request is pending after a status change exactly when it was before |
| Analysis.AnalysisRequestRepository.constructor | src/database/repositories/analysis.py:34 | a request repository over the session's table (unique keys below the sequence) holds exactly that table and is valid |
| Analysis.AnalysisRequestRepository.GetByUserId | src/database/repositories/analysis.py:39-50 | the window after `skip` of at most `limit` rows of some newest-first ordering of exactly the user's requests, each as often as stored and no more: hence the user's requests only, newest first, all of them when unpaged and they fit, the newest leading |
| Analysis.AnalysisRequestRepository.GetByTicker | src/database/repositories/analysis.py:52-63 | the window after `skip` of at most `limit` rows of some newest-first ordering of exactly the ticker's requests, each as often as stored and no more: hence the ticker's requests only, newest first, all of them when unpaged and they fit, the newest leading |
| Analysis.AnalysisRequestRepository.GetPendingRequests | src/database/repositories/analysis.py:65-75 | the first `limit` rows of some oldest-first ordering of exactly the pending requests, each as often as stored and no more: hence pending requests only, oldest first, all of them when they fit, the oldest pending request leading |
| Analysis.AnalysisRequestRepository.UpdateStatus | src/database/repositories/analysis.py:77-91 | None and no change for an unknown key; otherwise the stored request becomes its status-changed form, is returned, and is what `get` then finds, with every other row kept |
| Analysis.AnalysisResultRepository.constructor | src/database/repositories/analysis.py:93 | a result repository over the session's table (unique keys below the sequence) holds exactly that table and is valid |
| Analysis.AnalysisResultRepository.GetByRequestId | src/database/repositories/analysis.py:98-106 | exactly the results of that request: each returned row is stored and belongs to it, each stored row of it is returned, and each as many times as the table holds it |
| Analysis.AnalysisResultRepository.GetByTickerAndAnalyst | src/database/repositories/analysis.py:108-121 | the first `limit` rows of some most-recent-first ordering of exactly that analyst's results for the ticker, each as often as stored and no more: hence those results only, most recent first, all of them when they fit, the most recent of all leading |

## Left out

- Database sessions, `add`/`commit`/`refresh`, transactions and rollback are not modelled. The table is a sequence of rows, and a commit is the assignment to it.
- The lookup-then-create race in `update_or_create` under concurrent writers is not modelled; concurrency is out of scope.
- The wall clock `datetime.utcnow()` is the parameter `now`. Column defaults that read the clock take `now` too.
- `Dates.FromIsoFormat` covers `YYYY-MM-DD`, optionally followed by one separator character and `HH`, `HH:MM` or `HH:MM:SS`. Fractions of a second, time zones, the basic format without dashes, week dates and ordinal dates are not modelled, so those strings are treated as rejected.
- Digits are the ASCII digits. Python's `int()` also accepts other Unicode decimal digits, which is not modelled.
- `Query.OrderByDesc`: SQL leaves the order of rows with equal keys open. The model fixes a stable order, so the lookups return the first of several equally recent rows.
- `Base.Repository.Update` does not let `update_data` reassign the primary key `id`. It also requires each value to fit its column, where SQLAlchemy would accept any value and fail at commit. Names that `hasattr` finds but that are no mapped column (relationships such as `AnalysisRequest.results`, and declarative attributes such as `metadata`) are ignored, where the source would `setattr` them.
- `Base.Repository.Delete` requires the key to exist. On a missing key the source passes `None` to `delete` and raises, which is not modelled.
- `get_all`, `get_by_user_id` and friends take `skip`/`limit` as natural numbers, and `clear_old_cache` takes `days`. The source's defaults (0/100, 10 for pending requests, 1 for analyst results, 30 days) are left to the caller. Negative offsets are not modelled.
- JSON serialisation is identity: the `JSON` column stores the document value itself. Float values in JSON and the `confidence` column are exact reals.
- Rows are values, so the aliasing between an ORM object returned by one call and the row held by the session is not modelled. A returned row is a snapshot equal to the stored one.
- The `Cache` base class the adapter extends is not part of this model. Neither is the Pydantic validation of `DataCacheCreate`.
- `CacheAdapter.DatesAreText`: a date field that is present but not a string is not modelled. `None` mixed with strings, or a number, may make `min`/`max` or the conversion raise `TypeError`, which the conversion's `except ValueError` does not catch; a field that is `None` in exactly one record converts to no bound, while two or more `None`s make `min` raise `TypeError`. The setters require the field to be a string wherever present.
- Three source defects are modelled as the evidently intended behaviour:
  - `clear_old_cache` calls `datetime.timedelta` on the `datetime` class (src/database/repositories/cache.py:118), which raises `AttributeError`. The model subtracts `days` whole days.
  - The adapter builds its repository with `model=None` (src/database/data/db_cache_adapter.py:23), so `create` would call `None`. The model's repository creates cache rows.
  - `DataCacheCreate.data` is typed as a dict (src/database/repositories/cache.py:15), but the adapter passes a list. The model stores any JSON document.
- `last_updated`, `status` and `created_at` are modelled as never null, since the columns have defaults. The model fills `last_updated` with `now` when it creates a cache row (`Cache.NewEntry`). For requests and results, the caller of `Base.Repository.Create` supplies `status` and `created_at`; the defaults `"pending"` and the current time are not applied.
- `Cache.LookupAfterUpsert`, `CacheAdapter.GetAfterSet` and the setters' round trip assume the clock has moved past every stored `last_updated`. With equal timestamps the SQL order, and so the row returned, is open.
- `CacheAdapter.RawBoundsCanInvert` records how the source behaves as written: `min`/`max` over raw strings followed by conversion can yield a start after the end. The model keeps that behaviour rather than correcting it.
- `Cache.CacheFits`, `Analysis.RequestFits`, `Analysis.ResultFits`: the widths of the `String(n)` columns are not modelled: `ticker` (20 characters), `data_type` and `time_period` (50), `status` (20) and `analyst_name` (100). PostgreSQL rejects a longer value at commit; the model stores it.
- `Base.Repository.GetAll` and `Analysis.AnalysisResultRepository.GetByRequestId`: the queries have no `ORDER BY`, so SQL leaves the order of their rows open. The model returns them in table order, the order of insertion.
- `Dates.StrptimeYmd` states what it accepts only in outline (a valid date at midnight, from a string of 7 to 10 characters). The exact read-back is `Dates.StrptimeYmdOfDate`, for dates written with digits; the day token with a leading space (`" 5"`) is accepted but has no read-back lemma.
- `Cache.OnePerKey` is not part of any class invariant: the table declares no unique constraint on (ticker, data_type, time_period). The lemmas show that `update_or_create` keeps it once it holds.
- The repositories for users, portfolios, positions, watchlists and trades, the session and engine setup, and database initialisation are not part of this model.
