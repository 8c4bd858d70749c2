/**
 * The financial-data cache table and its repository: lookup by
 * (ticker, data_type, time_period), lookup of a covering date range,
 * update-or-create by key, and age-based eviction.
 *
 * Timestamps (`start_date`, `end_date`, `last_updated`, the current time
 * `now`) are instants on the time line of module Dates; `now` stands for
 * `datetime.utcnow()` and is a parameter.
 */
module Cache {
  import opened Optional
  import opened Values
  import opened Query
  import opened Base
  import Dates

  /** One row of `financial_data_cache`. */
  datatype CacheRow = CacheRow(
    id: int,
    ticker: string,
    dataType: string,
    timePeriod: Option<string>,
    startDate: Option<int>,
    endDate: Option<int>,
    data: Json,
    lastUpdated: int)

  // ------------------------------------------------------------ the schema

  function CacheId(r: CacheRow): int {
    r.id
  }

  function CacheWithId(r: CacheRow, i: int): CacheRow {
    r.(id := i)
  }

  /** The mapped attributes of `FinancialDataCache` other than the key. */
  function CacheAttr(r: CacheRow, f: string): Option<SqlValue> {
    if f == "ticker" then Some(SqlText(r.ticker))
    else if f == "data_type" then Some(SqlText(r.dataType))
    else if f == "time_period" then Some(OptText(r.timePeriod))
    else if f == "start_date" then Some(OptTime(r.startDate))
    else if f == "end_date" then Some(OptTime(r.endDate))
    else if f == "data" then Some(SqlJson(r.data))
    else if f == "last_updated" then Some(SqlTime(r.lastUpdated))
    else None
  }

  /** The column types: `ticker`, `data_type` and `data` are NOT NULL, `last_updated` is always stamped. */
  function CacheFits(f: string, v: SqlValue): bool {
    if f == "ticker" || f == "data_type" then v.SqlText?
    else if f == "time_period" then v.SqlText? || v.SqlNull?
    else if f == "start_date" || f == "end_date" then v.SqlTime? || v.SqlNull?
    else if f == "data" then v.SqlJson?
    else if f == "last_updated" then v.SqlTime?
    else false
  }

  function CacheSetAttr(r: CacheRow, f: string, v: SqlValue): CacheRow {
    if !CacheFits(f, v) then r
    else if f == "ticker" then r.(ticker := v.t)
    else if f == "data_type" then r.(dataType := v.t)
    else if f == "time_period" then r.(timePeriod := if v.SqlText? then Some(v.t) else None)
    else if f == "start_date" then r.(startDate := if v.SqlTime? then Some(v.at) else None)
    else if f == "end_date" then r.(endDate := if v.SqlTime? then Some(v.at) else None)
    else if f == "data" then r.(data := v.doc)
    else r.(lastUpdated := v.at)
  }

  function CacheSchema(): Schema<CacheRow> {
    Schema(CacheId, CacheWithId, CacheAttr, CacheFits, CacheSetAttr)
  }

  lemma CacheSchemaLawful()
    ensures Lawful(CacheSchema())
  {
    var s := CacheSchema();
    assert forall r, f, v, g | s.attr(r, f).Some? && s.fits(f, v) ::
        s.attr(s.setAttr(r, f, v), g) == if g == f then Some(v) else s.attr(r, g) by {
      forall r, f, v, g | CacheAttr(r, f).Some? && CacheFits(f, v)
        ensures CacheAttr(CacheSetAttr(r, f, v), g) == if g == f then Some(v) else CacheAttr(r, g)
      {
        SetAttrReadsBack(r, f, v, g);
      }
    }
    assert forall r, i, g :: s.attr(s.withId(r, i), g) == s.attr(r, g) by {
      forall r, i, g
        ensures CacheAttr(CacheWithId(r, i), g) == CacheAttr(r, g)
      {
        WithIdKeepsAttrs(r, i, g);
      }
    }
    assert forall r, f, v | s.attr(r, f).Some? && s.fits(f, v) :: s.id(s.setAttr(r, f, v)) == s.id(r) by {
      forall r, f, v | CacheAttr(r, f).Some? && CacheFits(f, v)
        ensures CacheSetAttr(r, f, v).id == r.id
      {
        SetAttrKeepsId(r, f, v);
      }
    }
  }

  lemma WithIdKeepsAttrs(r: CacheRow, i: int, g: string)
    ensures CacheAttr(CacheWithId(r, i), g) == CacheAttr(r, g)
  {
  }

  lemma SetAttrKeepsId(r: CacheRow, f: string, v: SqlValue)
    ensures CacheSetAttr(r, f, v).id == r.id
  {
  }

  lemma SetAttrReadsBack(r: CacheRow, f: string, v: SqlValue, g: string)
    requires CacheAttr(r, f).Some? && CacheFits(f, v)
    ensures CacheAttr(CacheSetAttr(r, f, v), g) == if g == f then Some(v) else CacheAttr(r, g)
  {
    if f == "ticker" {
    } else if f == "data_type" {
    } else if f == "time_period" {
    } else if f == "start_date" {
    } else if f == "end_date" {
    } else if f == "data" {
    } else {
    }
  }

  /** A cache row is determined by its key and its attributes. */
  lemma CacheRowsAgree(a: CacheRow, b: CacheRow)
    requires a.id == b.id
    requires forall f :: CacheAttr(a, f) == CacheAttr(b, f)
    ensures a == b
  {
    assert CacheAttr(a, "ticker") == CacheAttr(b, "ticker");
    assert CacheAttr(a, "data_type") == CacheAttr(b, "data_type");
    assert CacheAttr(a, "time_period") == CacheAttr(b, "time_period");
    assert CacheAttr(a, "start_date") == CacheAttr(b, "start_date");
    assert CacheAttr(a, "end_date") == CacheAttr(b, "end_date");
    assert CacheAttr(a, "data") == CacheAttr(b, "data");
    assert CacheAttr(a, "last_updated") == CacheAttr(b, "last_updated");
  }

  // --------------------------------------------------------------- lookups

  /** Python truthiness of the period argument: `None` and `""` are false. */
  predicate Truthy(period: Option<string>) {
    period.Some? && period.value != ""
  }

  /** The filter of `get_by_ticker_and_type`: ticker and type always, the period only when it is truthy. */
  predicate KeyMatches(r: CacheRow, ticker: string, dataType: string, period: Option<string>) {
    && r.ticker == ticker
    && r.dataType == dataType
    && (Truthy(period) ==> r.timePeriod == period)
  }

  function Matching(ticker: string, dataType: string, period: Option<string>): CacheRow -> bool {
    r => KeyMatches(r, ticker, dataType, period)
  }

  function LastUpdated(r: CacheRow): int {
    r.lastUpdated
  }

  /** `get_by_ticker_and_type`: of the matching rows, the most recently updated one. */
  function GetByTickerAndType(rows: seq<CacheRow>, ticker: string, dataType: string, period: Option<string>): (r: Option<CacheRow>)
    ensures r.None? <==> forall k :: 0 <= k < |rows| ==> !KeyMatches(rows[k], ticker, dataType, period)
    ensures r.Some? ==> r.value in rows && KeyMatches(r.value, ticker, dataType, period)
    ensures r.Some? ==>
      forall k :: 0 <= k < |rows| && KeyMatches(rows[k], ticker, dataType, period) ==> rows[k].lastUpdated <= r.value.lastUpdated
  {
    var hits := Where(rows, Matching(ticker, dataType, period));
    WhereMembers(rows, Matching(ticker, dataType, period));
    if hits != [] then
      FirstOfOrderByDesc(hits, LastUpdated);
      First(OrderByDesc(hits, LastUpdated))
    else
      First(OrderByDesc(hits, LastUpdated))
  }

  /** A `None` or empty period puts no constraint on the stored period: the lookup is the unfiltered one. */
  lemma FalsyPeriodIgnored(rows: seq<CacheRow>, ticker: string, dataType: string, period: Option<string>)
    requires !Truthy(period)
    ensures GetByTickerAndType(rows, ticker, dataType, period) == GetByTickerAndType(rows, ticker, dataType, None)
    ensures GetByTickerAndType(rows, ticker, dataType, period).Some? <==>
            exists k :: 0 <= k < |rows| && rows[k].ticker == ticker && rows[k].dataType == dataType
  {
    WherePointwise(rows, rows, Matching(ticker, dataType, period));
    assert Where(rows, Matching(ticker, dataType, period)) == Where(rows, Matching(ticker, dataType, None)) by {
      WhereSameFilter(rows, Matching(ticker, dataType, period), Matching(ticker, dataType, None));
    }
  }

  /** The filter of `get_by_date_range`: the stored range must contain the requested one. */
  predicate Covers(r: CacheRow, start: int, end: int) {
    && r.startDate.Some? && r.startDate.value <= start
    && r.endDate.Some? && r.endDate.value >= end
  }

  function CoveringMatch(ticker: string, dataType: string, start: int, end: int, period: Option<string>): CacheRow -> bool {
    r => KeyMatches(r, ticker, dataType, period) && Covers(r, start, end)
  }

  /**
   * `get_by_date_range`: of the matching rows whose stored range contains
   * `[start, end]` (bounds inclusive), the most recently updated one. A row
   * that only overlaps the request, or lacks a bound, is never returned.
   */
  function GetByDateRange(rows: seq<CacheRow>, ticker: string, dataType: string, start: int, end: int, period: Option<string>): (r: Option<CacheRow>)
    ensures r.None? <==>
      forall k :: 0 <= k < |rows| ==> !(KeyMatches(rows[k], ticker, dataType, period) && Covers(rows[k], start, end))
    ensures r.Some? ==> r.value in rows && KeyMatches(r.value, ticker, dataType, period)
    ensures r.Some? ==> r.value.startDate.Some? && r.value.startDate.value <= start
    ensures r.Some? ==> r.value.endDate.Some? && r.value.endDate.value >= end
    ensures r.Some? ==>
      forall k :: 0 <= k < |rows| && KeyMatches(rows[k], ticker, dataType, period) && Covers(rows[k], start, end) ==>
        rows[k].lastUpdated <= r.value.lastUpdated
  {
    var hits := Where(rows, CoveringMatch(ticker, dataType, start, end, period));
    WhereMembers(rows, CoveringMatch(ticker, dataType, start, end, period));
    if hits != [] then
      FirstOfOrderByDesc(hits, LastUpdated);
      First(OrderByDesc(hits, LastUpdated))
    else
      First(OrderByDesc(hits, LastUpdated))
  }

  // ------------------------------------------------------ update_or_create

  /** The repository's table as a value: its rows and the next key its sequence hands out. */
  datatype Table = Table(rows: seq<CacheRow>, nextId: int)

  /** The primary key constraint, and every stored key below the sequence's next value. */
  ghost predicate WellKeyed(t: Table) {
    && UniqueIds(CacheId, t.rows)
    && forall k :: 0 <= k < |t.rows| ==> t.rows[k].id < t.nextId
  }

  /** The clock has moved on since every stored refresh. */
  ghost predicate ClockAhead(rows: seq<CacheRow>, now: int) {
    forall k :: 0 <= k < |rows| ==> rows[k].lastUpdated < now
  }

  /** The `update_data` of the update path: the payload, the refresh time, and the end date only when one is given. */
  function UpdateData(data: Json, endDate: Option<int>, now: int): map<string, SqlValue> {
    var m := map["data" := SqlJson(data), "last_updated" := SqlTime(now)];
    if endDate.Some? then m["end_date" := SqlTime(endDate.value)] else m
  }

  /** Every column `update_data` names can hold the value given for it. */
  lemma UpdateDataFits(data: Json, endDate: Option<int>, now: int)
    ensures forall f :: f in UpdateData(data, endDate, now) ==> CacheFits(f, UpdateData(data, endDate, now)[f])
  {
  }

  /** The row `update(existing, update_data)` leaves behind. */
  function Refreshed(e: CacheRow, data: Json, endDate: Option<int>, now: int): CacheRow {
    e.(data := data, lastUpdated := now, endDate := if endDate.Some? then endDate else e.endDate)
  }

  /**
   * The row the create path inserts; `last_updated` takes its column default,
   * the current time. `data` may be any JSON document: `DataCacheCreate` types
   * it as a dict (cache.py:15), but the adapter stores lists, as intended.
   */
  function NewEntry(id: int, ticker: string, dataType: string, data: Json, period: Option<string>,
                    startDate: Option<int>, endDate: Option<int>, now: int): CacheRow {
    CacheRow(id, ticker, dataType, period, startDate, endDate, data, now)
  }

  /** `update_or_create` on a table: the table afterwards and the row returned. */
  function Upserted(t: Table, ticker: string, dataType: string, data: Json, period: Option<string>,
                    startDate: Option<int>, endDate: Option<int>, now: int): (Table, CacheRow) {
    match GetByTickerAndType(t.rows, ticker, dataType, period)
    case Some(e) =>
      var r := Refreshed(e, data, endDate, now);
      (Table(ReplaceById(CacheId, t.rows, r), t.nextId), r)
    case None =>
      var r := NewEntry(t.nextId, ticker, dataType, data, period, startDate, endDate, now);
      (Table(t.rows + [r], t.nextId + 1), r)
  }

  /** The refreshed row is exactly what the generic `update` makes of the existing row and `update_data`. */
  lemma RefreshedIsUpdate(e: CacheRow, data: Json, endDate: Option<int>, now: int)
    ensures forall f :: (CacheAttr(Refreshed(e, data, endDate, now), f) ==
      (var u := UpdateData(data, endDate, now);
       if f in u && CacheAttr(e, f).Some? then Some(u[f]) else CacheAttr(e, f)))
  {
  }

  /** Upserting keeps the key constraint. */
  lemma UpsertKeepsKeys(t: Table, ticker: string, dataType: string, data: Json, period: Option<string>,
                        startDate: Option<int>, endDate: Option<int>, now: int)
    requires WellKeyed(t)
    ensures WellKeyed(Upserted(t, ticker, dataType, data, period, startDate, endDate, now).0)
  {
    match GetByTickerAndType(t.rows, ticker, dataType, period)
    case Some(e) =>
      var k :| 0 <= k < |t.rows| && t.rows[k] == e;
      RefreshKeepsKeys(t, k, Refreshed(e, data, endDate, now));
    case None =>
      AppendKeepsKeys(t, NewEntry(t.nextId, ticker, dataType, data, period, startDate, endDate, now));
  }

  /** Replacing a stored row by one with its key keeps the key constraint. */
  lemma RefreshKeepsKeys(t: Table, k: int, r: CacheRow)
    requires WellKeyed(t) && 0 <= k < |t.rows| && r.id == t.rows[k].id
    ensures ReplaceById(CacheId, t.rows, r) == t.rows[k := r]
    ensures WellKeyed(Table(t.rows[k := r], t.nextId))
  {
    ReplaceStoredRow(CacheId, t.rows, k, r);
    assert forall j :: 0 <= j < |t.rows| ==> t.rows[k := r][j].id == t.rows[j].id;
  }

  /** Appending a row under the sequence's next key, and advancing the sequence, keeps the key constraint. */
  lemma AppendKeepsKeys(t: Table, r: CacheRow)
    requires WellKeyed(t) && r.id == t.nextId
    ensures WellKeyed(Table(t.rows + [r], t.nextId + 1))
  {
  }

  /**
   * The update path: the row found keeps its key, ticker, type, period and
   * start date, takes the new payload and `now`, takes the new end date only
   * when one is given; no row is added and every other row is unchanged.
   */
  lemma UpsertUpdatePath(t: Table, ticker: string, dataType: string, data: Json, period: Option<string>,
                         startDate: Option<int>, endDate: Option<int>, now: int, k: int)
    requires WellKeyed(t)
    requires 0 <= k < |t.rows| && GetByTickerAndType(t.rows, ticker, dataType, period) == Some(t.rows[k])
    ensures var (t', r) := Upserted(t, ticker, dataType, data, period, startDate, endDate, now);
      && |t'.rows| == |t.rows| && t'.nextId == t.nextId
      && t'.rows[k] == r
      && r.id == t.rows[k].id && r.ticker == t.rows[k].ticker && r.dataType == t.rows[k].dataType
      && r.timePeriod == t.rows[k].timePeriod && r.startDate == t.rows[k].startDate
      && r.data == data && r.lastUpdated == now
      && r.endDate == (if endDate.Some? then endDate else t.rows[k].endDate)
      && forall j :: 0 <= j < |t.rows| && j != k ==> t'.rows[j] == t.rows[j]
  {
    ReplaceStoredRow(CacheId, t.rows, k, Refreshed(t.rows[k], data, endDate, now));
  }

  /** The create path: only on a miss, one new row carrying the arguments, under the next key, refreshed now. */
  lemma UpsertCreatePath(t: Table, ticker: string, dataType: string, data: Json, period: Option<string>,
                         startDate: Option<int>, endDate: Option<int>, now: int)
    requires forall k :: 0 <= k < |t.rows| ==> !KeyMatches(t.rows[k], ticker, dataType, period)
    ensures var (t', r) := Upserted(t, ticker, dataType, data, period, startDate, endDate, now);
      && t'.rows == t.rows + [r]
      && r.id == t.nextId && r.ticker == ticker && r.dataType == dataType && r.timePeriod == period
      && r.startDate == startDate && r.endDate == endDate && r.data == data && r.lastUpdated == now
  {
  }

  /**
   * Round trip: after `update_or_create(ticker, data_type, data, period, ...)`,
   * the lookup by the same key (or by ticker and type alone) returns the row
   * just written, holding `data`, provided the clock has moved on since every
   * earlier refresh.
   */
  lemma {:induction false} LookupAfterUpsert(t: Table, ticker: string, dataType: string, data: Json, period: Option<string>,
                                              startDate: Option<int>, endDate: Option<int>, now: int)
    requires WellKeyed(t)
    requires ClockAhead(t.rows, now)
    ensures var (t', r) := Upserted(t, ticker, dataType, data, period, startDate, endDate, now);
      && r.data == data
      && GetByTickerAndType(t'.rows, ticker, dataType, period) == Some(r)
      && GetByTickerAndType(t'.rows, ticker, dataType, None) == Some(r)
  {
    match GetByTickerAndType(t.rows, ticker, dataType, period)
    case Some(e) =>
      var k :| 0 <= k < |t.rows| && t.rows[k] == e;
      var r := Refreshed(e, data, endDate, now);
      UpsertUpdatePath(t, ticker, dataType, data, period, startDate, endDate, now, k);
      var rows' := Upserted(t, ticker, dataType, data, period, startDate, endDate, now).0.rows;
      assert rows'[k] == r;
      LookupFindsNewest(rows', ticker, dataType, period, r);
      LookupFindsNewest(rows', ticker, dataType, None, r);
    case None =>
      var r := NewEntry(t.nextId, ticker, dataType, data, period, startDate, endDate, now);
      var rows' := t.rows + [r];
      assert rows'[|t.rows|] == r;
      LookupFindsNewest(rows', ticker, dataType, period, r);
      LookupFindsNewest(rows', ticker, dataType, None, r);
  }

  /** A matching row refreshed strictly later than every other row is the one the lookup returns. */
  lemma LookupFindsNewest(rows: seq<CacheRow>, ticker: string, dataType: string, period: Option<string>, r: CacheRow)
    requires r in rows && KeyMatches(r, ticker, dataType, period)
    requires forall j :: 0 <= j < |rows| && rows[j] != r ==> rows[j].lastUpdated < r.lastUpdated
    ensures GetByTickerAndType(rows, ticker, dataType, period) == Some(r)
  {
    var hits := Where(rows, Matching(ticker, dataType, period));
    WhereMembers(rows, Matching(ticker, dataType, period));
    forall y | y in hits && y != r
      ensures y.lastUpdated < r.lastUpdated
    {
      var i :| 0 <= i < |hits| && hits[i] == y;
    }
    FirstOfOrderByDescUnique(hits, LastUpdated, r);
  }

  /**
   * Upserting the same key twice adds at most one row: after the first call
   * the key is present, so the second call takes the update path and keeps
   * the row count.
   */
  lemma {:induction false} UpsertTwice(t: Table, ticker: string, dataType: string, period: Option<string>,
                                       data1: Json, start1: Option<int>, end1: Option<int>, now1: int,
                                       data2: Json, start2: Option<int>, end2: Option<int>, now2: int)
    requires WellKeyed(t)
    ensures var t1 := Upserted(t, ticker, dataType, data1, period, start1, end1, now1).0;
      && GetByTickerAndType(t1.rows, ticker, dataType, period).Some?
      && |Upserted(t1, ticker, dataType, data2, period, start2, end2, now2).0.rows| == |t1.rows| <= |t.rows| + 1
  {
    UpsertThenHits(t, ticker, dataType, data1, period, start1, end1, now1);
    var t1 := Upserted(t, ticker, dataType, data1, period, start1, end1, now1).0;
    HitKeepsCount(t1, ticker, dataType, data2, period, start2, end2, now2);
  }

  /** After an upsert the key hits, and the table grew by one row at most. */
  lemma UpsertThenHits(t: Table, ticker: string, dataType: string, data: Json, period: Option<string>,
                       startDate: Option<int>, endDate: Option<int>, now: int)
    requires WellKeyed(t)
    ensures var t1 := Upserted(t, ticker, dataType, data, period, startDate, endDate, now).0;
      GetByTickerAndType(t1.rows, ticker, dataType, period).Some? && |t1.rows| <= |t.rows| + 1
  {
    var (t1, r) := Upserted(t, ticker, dataType, data, period, startDate, endDate, now);
    match GetByTickerAndType(t.rows, ticker, dataType, period)
    case Some(e) =>
      var k :| 0 <= k < |t.rows| && t.rows[k] == e;
      UpsertUpdatePath(t, ticker, dataType, data, period, startDate, endDate, now, k);
      assert KeyMatches(t1.rows[k], ticker, dataType, period);
    case None =>
      assert KeyMatches(t1.rows[|t.rows|], ticker, dataType, period);
  }

  /** An upsert whose key hits keeps the row count. */
  lemma HitKeepsCount(t: Table, ticker: string, dataType: string, data: Json, period: Option<string>,
                      startDate: Option<int>, endDate: Option<int>, now: int)
    requires GetByTickerAndType(t.rows, ticker, dataType, period).Some?
    ensures |Upserted(t, ticker, dataType, data, period, startDate, endDate, now).0.rows| == |t.rows|
  {
  }

  /** The identity `update_or_create` keeps one row for: ticker, data type and period. */
  function CacheKey(r: CacheRow): (string, string, Option<string>) {
    (r.ticker, r.dataType, r.timePeriod)
  }

  /**
   * No two rows share a (ticker, data_type, time_period) key. The table
   * declares no such constraint; it holds because the writer keeps it.
   */
  ghost predicate OnePerKey(rows: seq<CacheRow>) {
    forall i, j :: 0 <= i < j < |rows| ==> CacheKey(rows[i]) != CacheKey(rows[j])
  }

  /**
   * Upserting never puts a second row under a key already present: a hit
   * refreshes a row and leaves its key alone, a miss adds a key no row has.
   */
  lemma UpsertKeepsOnePerKey(t: Table, ticker: string, dataType: string, data: Json, period: Option<string>,
                             startDate: Option<int>, endDate: Option<int>, now: int)
    requires WellKeyed(t) && OnePerKey(t.rows)
    ensures OnePerKey(Upserted(t, ticker, dataType, data, period, startDate, endDate, now).0.rows)
  {
    var rows' := Upserted(t, ticker, dataType, data, period, startDate, endDate, now).0.rows;
    match GetByTickerAndType(t.rows, ticker, dataType, period)
    case Some(e) =>
      var k :| 0 <= k < |t.rows| && t.rows[k] == e;
      UpsertUpdatePath(t, ticker, dataType, data, period, startDate, endDate, now, k);
      assert forall j :: 0 <= j < |rows'| ==> CacheKey(rows'[j]) == CacheKey(t.rows[j]);
    case None =>
      assert forall j :: 0 <= j < |t.rows| ==> CacheKey(t.rows[j]) != CacheKey(rows'[|t.rows|]) by {
        forall j | 0 <= j < |t.rows|
          ensures CacheKey(t.rows[j]) != CacheKey(rows'[|t.rows|])
        {
          assert !KeyMatches(t.rows[j], ticker, dataType, period);
        }
      }
  }

  /**
   * With a period given (truthy) and one row per key beforehand, an upsert
   * leaves exactly one row under the key it wrote.
   */
  lemma OneEntryAfterUpsert(t: Table, ticker: string, dataType: string, data: Json, period: Option<string>,
                            startDate: Option<int>, endDate: Option<int>, now: int)
    requires WellKeyed(t) && OnePerKey(t.rows) && Truthy(period)
    ensures var t' := Upserted(t, ticker, dataType, data, period, startDate, endDate, now).0;
      OnePerKey(t'.rows) && |Where(t'.rows, Matching(ticker, dataType, period))| == 1
  {
    var t' := Upserted(t, ticker, dataType, data, period, startDate, endDate, now).0;
    UpsertKeepsOnePerKey(t, ticker, dataType, data, period, startDate, endDate, now);
    UpsertThenHits(t, ticker, dataType, data, period, startDate, endDate, now);
    var hit := GetByTickerAndType(t'.rows, ticker, dataType, period).value;
    var k :| 0 <= k < |t'.rows| && t'.rows[k] == hit;
    assert forall j :: 0 <= j < |t'.rows| && j != k ==> !Matching(ticker, dataType, period)(t'.rows[j]);
    WhereSingle(t'.rows, Matching(ticker, dataType, period), k);
  }

  /** Upserting the same truthy key twice still leaves one row under it. */
  lemma UpsertTwiceOneEntry(t: Table, ticker: string, dataType: string, period: Option<string>,
                            data1: Json, start1: Option<int>, end1: Option<int>, now1: int,
                            data2: Json, start2: Option<int>, end2: Option<int>, now2: int)
    requires WellKeyed(t) && OnePerKey(t.rows) && Truthy(period)
    ensures var t1 := Upserted(t, ticker, dataType, data1, period, start1, end1, now1).0;
      var t2 := Upserted(t1, ticker, dataType, data2, period, start2, end2, now2).0;
      |Where(t2.rows, Matching(ticker, dataType, period))| == 1
  {
    var t1 := Upserted(t, ticker, dataType, data1, period, start1, end1, now1).0;
    OneEntryAfterUpsert(t, ticker, dataType, data1, period, start1, end1, now1);
    UpsertKeepsKeys(t, ticker, dataType, data1, period, start1, end1, now1);
    OneEntryAfterUpsert(t1, ticker, dataType, data2, period, start2, end2, now2);
  }

  /**
   * Upserting one (ticker, data_type) key leaves the lookup of every other
   * (ticker, data_type) pair as it was, whatever period either uses.
   */
  lemma {:induction false} UpsertLeavesOtherKeys(t: Table, ticker: string, dataType: string, data: Json, period: Option<string>,
                                                 startDate: Option<int>, endDate: Option<int>, now: int,
                                                 otherTicker: string, otherType: string, otherPeriod: Option<string>)
    requires WellKeyed(t)
    requires (ticker, dataType) != (otherTicker, otherType)
    ensures GetByTickerAndType(Upserted(t, ticker, dataType, data, period, startDate, endDate, now).0.rows, otherTicker, otherType, otherPeriod)
         == GetByTickerAndType(t.rows, otherTicker, otherType, otherPeriod)
  {
    var rows' := Upserted(t, ticker, dataType, data, period, startDate, endDate, now).0.rows;
    var m := Matching(otherTicker, otherType, otherPeriod);
    match GetByTickerAndType(t.rows, ticker, dataType, period)
    case Some(e) =>
      var k :| 0 <= k < |t.rows| && t.rows[k] == e;
      UpsertUpdatePath(t, ticker, dataType, data, period, startDate, endDate, now, k);
      SameRowsElsewhere(t.rows, rows', k, m);
      LookupSeesOnlyMatches(t.rows, rows', otherTicker, otherType, otherPeriod);
    case None =>
      var r := NewEntry(t.nextId, ticker, dataType, data, period, startDate, endDate, now);
      assert Where(rows', m) == Where(t.rows, m) by {
        WhereConcat(t.rows, [r], m);
        WhereNone([r], m);
      }
      LookupSeesOnlyMatches(t.rows, rows', otherTicker, otherType, otherPeriod);
  }

  /** The lookup depends on the matching rows alone. */
  lemma LookupSeesOnlyMatches(rows: seq<CacheRow>, rows': seq<CacheRow>, ticker: string, dataType: string, period: Option<string>)
    requires Where(rows', Matching(ticker, dataType, period)) == Where(rows, Matching(ticker, dataType, period))
    ensures GetByTickerAndType(rows', ticker, dataType, period) == GetByTickerAndType(rows, ticker, dataType, period)
  {
  }

  /** Changing one row that a filter rejects before and after does not change what the filter selects. */
  lemma SameRowsElsewhere(rows: seq<CacheRow>, rows': seq<CacheRow>, k: int, m: CacheRow -> bool)
    requires |rows'| == |rows| && 0 <= k < |rows|
    requires !m(rows[k]) && !m(rows'[k])
    requires forall j :: 0 <= j < |rows| && j != k ==> rows'[j] == rows[j]
    ensures Where(rows', m) == Where(rows, m)
  {
    WherePointwise(rows', rows, m);
  }

  // --------------------------------------------------------- clear_old_cache

  /** The largest number of days a `timedelta` holds, either way. */
  const MaxTimedeltaDays: int := 999_999_999

  /**
   * `datetime.utcnow() - timedelta(days=days)`, or `None` where Python raises
   * OverflowError: a span `timedelta` cannot hold, or a cutoff outside the
   * years 1 to 9999. The source writes `datetime.timedelta` on the class
   * `datetime` (cache.py:118), which raises AttributeError; the model takes
   * the evidently intended `timedelta`.
   */
  function Cutoff(days: int, now: int): Option<int> {
    if days < -MaxTimedeltaDays || days > MaxTimedeltaDays then None
    else
      var cutoff := now - days * Dates.MicrosPerDay;
      if 0 <= cutoff <= Dates.MaxInstant then Some(cutoff) else None
  }

  function Stale(cutoff: int): CacheRow -> bool {
    (r: CacheRow) => r.lastUpdated < cutoff
  }

  function Kept(cutoff: int): CacheRow -> bool {
    (r: CacheRow) => !(r.lastUpdated < cutoff)
  }

  /**
   * What `clear_old_cache` leaves: exactly the rows refreshed at or after the
   * cutoff (a row exactly at the cutoff stays), in table order; the number
   * deleted is the number of rows refreshed before the cutoff.
   */
  lemma EvictionSpec(rows: seq<CacheRow>, cutoff: int)
    ensures forall k :: 0 <= k < |rows| ==> (rows[k] in Where(rows, Kept(cutoff)) <==> rows[k].lastUpdated >= cutoff)
    ensures forall k :: 0 <= k < |Where(rows, Kept(cutoff))| ==> Where(rows, Kept(cutoff))[k].lastUpdated >= cutoff
    ensures |rows| - |Where(rows, Kept(cutoff))| == |Where(rows, Stale(cutoff))|
  {
    WhereMembers(rows, Kept(cutoff));
    WherePartition(rows, Kept(cutoff), Stale(cutoff));
  }

  /** What the generic `update` returns on the update path is the row and table `Upserted` describes. */
  lemma UpdateTakesUpdatePath(t: Table, ticker: string, dataType: string, data: Json, period: Option<string>,
                              startDate: Option<int>, endDate: Option<int>, now: int,
                              entry: CacheRow, rows: seq<CacheRow>)
    requires GetByTickerAndType(t.rows, ticker, dataType, period).Some?
    requires var e := GetByTickerAndType(t.rows, ticker, dataType, period).value;
      && entry.id == e.id
      && forall f :: (CacheAttr(entry, f) ==
           (var u := UpdateData(data, endDate, now); if f in u && CacheAttr(e, f).Some? then Some(u[f]) else CacheAttr(e, f)))
    requires rows == ReplaceById(CacheId, t.rows, entry)
    ensures (Table(rows, t.nextId), entry) == Upserted(t, ticker, dataType, data, period, startDate, endDate, now)
  {
    var e := GetByTickerAndType(t.rows, ticker, dataType, period).value;
    RefreshedIsUpdate(e, data, endDate, now);
    CacheRowsAgree(entry, Refreshed(e, data, endDate, now));
  }

  // ------------------------------------------------------------ the class

  class FinancialDataCacheRepository {
    const table: Repository<CacheRow>

    ghost predicate Valid()
      reads this, table
    {
      table.Valid() && table.schema == CacheSchema()
    }

    /** The table's state as a value. */
    function State(): Table
      reads table
    {
      Table(table.rows, table.nextId)
    }

    /**
     * `__init__(db)`: a repository over the cache table as the session finds
     * it. The adapter builds it with `model=None` (db_cache_adapter.py:23);
     * the model gives it the cache row type, as intended.
     */
    constructor (initial: seq<CacheRow>, nextId: int)
      requires WellKeyed(Table(initial, nextId))
      ensures Valid() && fresh(table) && State() == Table(initial, nextId)
    {
      CacheSchemaLawful();
      table := new Repository(CacheSchema(), initial, nextId);
    }

    /**
     * `update_or_create`: refresh the row the key lookup finds, or insert a
     * new one on a miss.
     */
    method UpdateOrCreate(ticker: string, dataType: string, data: Json, period: Option<string>,
                          startDate: Option<int>, endDate: Option<int>, now: int) returns (entry: CacheRow)
      requires Valid()
      modifies table
      ensures Valid()
      ensures (State(), entry) == Upserted(old(State()), ticker, dataType, data, period, startDate, endDate, now)
    {
      var existing := GetByTickerAndType(table.rows, ticker, dataType, period);
      if existing.Some? {
        var e := existing.value;
        ghost var before := State();
        UpdateDataFits(data, endDate, now);
        entry := table.Update(e, UpdateData(data, endDate, now));
        UpdateTakesUpdatePath(before, ticker, dataType, data, period, startDate, endDate, now, entry, table.rows);

      } else {
        entry := table.Create(NewEntry(0, ticker, dataType, data, period, startDate, endDate, now));
      }
    }

    /**
     * `clear_old_cache(days)`: deletes the rows refreshed before `now - days`
     * and returns how many; `None` where computing the cutoff raises
     * OverflowError, before anything is deleted.
     */
    method ClearOldCache(days: int, now: int) returns (deleted: Option<int>)
      requires Valid()
      modifies table
      ensures Valid() && table.nextId == old(table.nextId)
      ensures deleted.None? <==> Cutoff(days, now).None?
      ensures deleted.None? ==> table.rows == old(table.rows)
      ensures deleted.Some? ==> table.rows == Where(old(table.rows), Kept(Cutoff(days, now).value))
      ensures deleted.Some? ==> deleted.value == |Where(old(table.rows), Stale(Cutoff(days, now).value))|
    {
      var c := Cutoff(days, now);
      if c.None? {
        return None;
      }
      var cutoff := c.value;
      var before := table.rows;
      FilterKeepsKeys(CacheId, before, Kept(cutoff), table.nextId);
      table.rows := Where(before, Kept(cutoff));
      EvictionSpec(before, cutoff);
      deleted := Some(|before| - |table.rows|);
    }
  }
}
