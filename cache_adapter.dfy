/**
 * The database-backed implementation of the data cache: one get/set pair per
 * kind of dataset, each set deriving the dataset's date range from one of its
 * fields and upserting the whole dataset under (ticker, data_type).
 */
module CacheAdapter {
  import opened Optional
  import opened Values
  import opened Query
  import opened Cache
  import Dates
  import TextOrder

  /** The five kinds of dataset the cache holds. */
  datatype Category = Prices | FinancialMetrics | LineItems | InsiderTrades | CompanyNews

  /** The `data_type` a category is stored under. */
  function DataType(c: Category): string {
    match c
    case Prices => "prices"
    case FinancialMetrics => "financial_metrics"
    case LineItems => "line_items"
    case InsiderTrades => "insider_trades"
    case CompanyNews => "company_news"
  }

  /** The record field a category's date range is taken from. */
  function DateField(c: Category): string {
    match c
    case Prices => "time"
    case FinancialMetrics => "report_period"
    case LineItems => "report_period"
    case InsiderTrades => "filing_date"
    case CompanyNews => "date"
  }

  /** The `time_period` a category's setter passes: `"daily"` for prices, none for the others. */
  function Period(c: Category): Option<string> {
    if c == Prices then Some("daily") else None
  }

  /** Distinct categories are stored under distinct data types. */
  lemma DataTypeInjective(c: Category, d: Category)
    requires DataType(c) == DataType(d)
    ensures c == d
  {
  }

  // ---------------------------------------------------- _convert_to_datetime

  /**
   * `_convert_to_datetime`: nothing for a missing or empty string, otherwise
   * `fromisoformat`, otherwise `strptime(s, "%Y-%m-%d")`, otherwise nothing;
   * it never fails.
   */
  function ConvertToDatetime(s: Option<string>): (r: Option<Dates.DateTime>)
    ensures (s.None? || s.value == "") ==> r.None?
    ensures r.Some? ==> Dates.Valid(r.value)
  {
    if s.None? || s.value == "" then None
    else match Dates.FromIsoFormat(s.value)
      case Some(d) => Some(d)
      case None => Dates.StrptimeYmd(s.value)
  }

  /** A well-formed `YYYY-MM-DD` string converts to that date, at midnight. */
  lemma ConvertIsoDate(d: Dates.DateTime)
    requires Dates.Valid(d) && d.hour == 0 && d.minute == 0 && d.second == 0
    ensures ConvertToDatetime(Some(Dates.IsoDateString(d))) == Some(d)
  {
    Dates.FromIsoFormatOfDate(d);
  }

  /**
   * Every calendar date written `YYYY-M-D`, with a one- or two-digit month and
   * day, converts to that date at midnight: through `fromisoformat` when both
   * are padded, through the `strptime` fallback, which `fromisoformat`
   * leaves it to, otherwise.
   */
  lemma ConvertDateString(d: Dates.DateTime, mw: nat, dw: nat)
    requires Dates.Valid(d) && d.hour == 0 && d.minute == 0 && d.second == 0
    requires 1 <= mw <= 2 && 1 <= dw <= 2
    requires mw == 1 ==> d.month <= 9
    requires dw == 1 ==> d.day <= 9
    ensures mw == 1 || dw == 1 ==> Dates.FromIsoFormat(Dates.DateString(d, mw, dw)) == None
    ensures ConvertToDatetime(Some(Dates.DateString(d, mw, dw))) == Some(d)
  {
    if mw == 2 && dw == 2 {
      ConvertIsoDate(d);
    } else {
      Dates.StrptimeYmdOfDate(d, mw, dw);
    }
  }

  /** The digit strings the examples below read. */
  lemma DigitStrings()
    ensures Dates.AllDigits("2023") && Dates.DecimalValue("2023") == 2023
    ensures Dates.AllDigits("01") && Dates.DecimalValue("01") == 1
    ensures Dates.AllDigits("02") && Dates.DecimalValue("02") == 2
    ensures Dates.AllDigits("10") && Dates.DecimalValue("10") == 10
    ensures Dates.AllDigits("30") && Dates.DecimalValue("30") == 30
  {
    assert "2023"[..3] == "202" && "202"[..2] == "20" && "20"[..1] == "2" && "2"[..0] == "";
    assert "01"[..1] == "0" && "02"[..1] == "0" && "10"[..1] == "1" && "30"[..1] == "3";
    assert "0"[..0] == "" && "1"[..0] == "" && "3"[..0] == "";
  }

  /** An unpadded date is refused by `fromisoformat` and read by the `strptime` fallback. */
  lemma ConvertFallsBack()
    ensures Dates.FromIsoFormat("2023-1-5") == None
    ensures ConvertToDatetime(Some("2023-1-5")) == Some(Dates.DateTime(2023, 1, 5, 0, 0, 0))
  {
    var s := "2023-1-5";
    DigitStrings();
    assert s[..4] == "2023" && s[4] == '-';
    assert s[5..] == "1-5";
    assert "1-5"[..1] == "1" && "1-5"[2..] == "5";
    assert Dates.MonthToken("1") && Dates.DayToken("5");
    assert Dates.TokenValue("1") == 1 && Dates.TokenValue("5") == 5;
    assert Dates.Valid(Dates.DateTime(2023, 1, 5, 0, 0, 0));
  }

  /**
   * A day past the end of its month, written `YYYY-MM-DD` or with an
   * unpadded month, converts to nothing under either parser rather than
   * raising.
   */
  lemma ConvertRejectsBadDay(d: Dates.DateTime, mw: nat)
    requires Dates.Writable(d) && d.day > Dates.DaysInMonth(d.year, d.month)
    requires 1 <= mw <= 2 && (mw == 1 ==> d.month <= 9)
    ensures ConvertToDatetime(Some(Dates.DateString(d, mw, 2))) == None
  {
    Dates.StrptimeYmdReads(d, mw, 2);
    if mw == 2 {
      Dates.FromIsoFormatReads(d);
    }
  }

  // ------------------------------------------------------ the date range

  /** Every record that has the field holds a string there (`min` and the conversion need one). */
  predicate DatesAreText(data: Payload, key: string) {
    forall k :: 0 <= k < |data| && key in data[k] ==> data[k][key].Str?
  }

  /** `[item.get(key) for item in data if key in item]`: it takes the value of every record that has the field. */
  function FieldValues(data: Payload, key: string): (r: seq<string>)
    requires DatesAreText(data, key)
    ensures |r| <= |data|
    ensures forall k :: 0 <= k < |data| && key in data[k] ==> data[k][key].s in r
  {
    if data == [] then []
    else
      assert DatesAreText(data[1..], key) by {
        forall k | 0 <= k < |data[1..]| && key in data[1..][k]
          ensures data[1..][k][key].Str?
        {
          assert data[1..][k] == data[k + 1];
        }
      }
      var rest := FieldValues(data[1..], key);
      assert forall k :: 1 <= k < |data| && key in data[k] ==> data[k][key].s in rest by {
        forall k | 1 <= k < |data| && key in data[k]
          ensures data[k][key].s in rest
        {
          assert data[1..][k - 1] == data[k];
        }
      }
      if key in data[0] then [data[0][key].s] + rest else rest
  }

  /** ...and nothing else: every value taken is the field of some record. */
  lemma {:induction false} FieldValuesFromData(data: Payload, key: string)
    requires DatesAreText(data, key)
    ensures forall i :: 0 <= i < |FieldValues(data, key)| ==>
      exists k :: 0 <= k < |data| && key in data[k] && data[k][key] == Str(FieldValues(data, key)[i])
  {
    if data != [] {
      assert DatesAreText(data[1..], key) by {
        forall k | 0 <= k < |data[1..]| && key in data[1..][k]
          ensures data[1..][k][key].Str?
        {
          assert data[1..][k] == data[k + 1];
        }
      }
      FieldValuesFromData(data[1..], key);
      var rest := FieldValues(data[1..], key);
      var r := FieldValues(data, key);
      var skip := if key in data[0] then 1 else 0;
      assert r == if key in data[0] then [data[0][key].s] + rest else rest;
      forall i | 0 <= i < |r|
        ensures exists k :: 0 <= k < |data| && key in data[k] && data[k][key] == Str(r[i])
      {
        if i < skip {
          assert key in data[0] && data[0][key] == Str(r[i]);
        } else {
          assert r[i] == rest[i - skip];
          var j :| 0 <= j < |data[1..]| && key in data[1..][j] && data[1..][j][key] == Str(rest[i - skip]);
          assert data[j + 1] == data[1..][j];
          assert key in data[j + 1] && data[j + 1][key] == Str(r[i]);
        }
      }
      assert forall i :: 0 <= i < |r| ==> exists k :: 0 <= k < |data| && key in data[k] && data[k][key] == Str(r[i]);
    } else {
      assert FieldValues(data, key) == [];
    }
  }

  /**
   * The raw bounds a setter derives: the least and the greatest string in the
   * field, in Python's string order, over the records that have the field;
   * both absent when none has it.
   */
  function DateBounds(data: Payload, key: string): (b: (Option<string>, Option<string>))
    requires DatesAreText(data, key)
    ensures b.0.None? <==> forall k :: 0 <= k < |data| ==> key !in data[k]
    ensures b.0.None? <==> b.1.None?
    ensures b.0.Some? ==> TextOrder.LexLe(b.0.value, b.1.value)
    ensures b.0.Some? ==> forall k :: 0 <= k < |data| && key in data[k] ==>
      TextOrder.LexLe(b.0.value, data[k][key].s) && TextOrder.LexLe(data[k][key].s, b.1.value)
    ensures b.0.Some? ==> exists k :: 0 <= k < |data| && key in data[k] && data[k][key] == Str(b.0.value)
    ensures b.1.Some? ==> exists k :: 0 <= k < |data| && key in data[k] && data[k][key] == Str(b.1.value)
  {
    var xs := FieldValues(data, key);
    FieldValuesFromData(data, key);
    if xs == [] then (None, None)
    else
      var lo, hi := TextOrder.Min(xs), TextOrder.Max(xs);
      assert TextOrder.LexLe(lo, hi) by {
        var i :| 0 <= i < |xs| && xs[i] == hi;
      }
      assert forall k :: 0 <= k < |data| && key in data[k] ==>
          TextOrder.LexLe(lo, data[k][key].s) && TextOrder.LexLe(data[k][key].s, hi) by {
        forall k | 0 <= k < |data| && key in data[k]
          ensures TextOrder.LexLe(lo, data[k][key].s) && TextOrder.LexLe(data[k][key].s, hi)
        {
          var i :| 0 <= i < |xs| && xs[i] == data[k][key].s;
        }
      }
      assert exists k :: 0 <= k < |data| && key in data[k] && data[k][key] == Str(lo) by {
        var i :| 0 <= i < |xs| && xs[i] == lo;
      }
      assert exists k :: 0 <= k < |data| && key in data[k] && data[k][key] == Str(hi) by {
        var i :| 0 <= i < |xs| && xs[i] == hi;
      }
      (Some(lo), Some(hi))
  }

  /** Text order puts a zero-padded month before an unpadded one of the same year. */
  lemma UnpaddedSortsLast()
    ensures TextOrder.LexLe("2023-01-10", "2023-1-5")
    ensures !TextOrder.LexLe("2023-1-5", "2023-01-10")
  {
    var a, b := "2023-01-10", "2023-1-5";
    assert a[1..] == "023-01-10" && b[1..] == "023-1-5";
    assert a[1..][1..] == "23-01-10" && b[1..][1..] == "23-1-5";
    assert a[1..][1..][1..] == "3-01-10" && b[1..][1..][1..] == "3-1-5";
    assert a[1..][1..][1..][1..] == "-01-10" && b[1..][1..][1..][1..] == "-1-5";
    assert a[1..][1..][1..][1..][1..] == "01-10" && b[1..][1..][1..][1..][1..] == "1-5";
  }

  /**
   * The bounds are compared as text, before any parsing: with an unpadded
   * month the raw start sorts after the raw end, and the range stored is
   * inverted (January 10th to January 5th).
   */
  lemma RawBoundsCanInvert()
    ensures var data := [map["time" := Str("2023-1-5")], map["time" := Str("2023-01-10")]];
      && DateBounds(data, "time") == (Some("2023-01-10"), Some("2023-1-5"))
      && ConvertToDatetime(Some("2023-01-10")) == Some(Dates.DateTime(2023, 1, 10, 0, 0, 0))
      && ConvertToDatetime(Some("2023-1-5")) == Some(Dates.DateTime(2023, 1, 5, 0, 0, 0))
  {
    var data := [map["time" := Str("2023-1-5")], map["time" := Str("2023-01-10")]];
    UnpaddedSortsLast();
    BoundsOfTwo(data, "time", "2023-1-5", "2023-01-10");
    ConvertFallsBack();
    IsoDayConverts();
  }

  /** `"2023-01-10"` is read by `fromisoformat`. */
  lemma IsoDayConverts()
    ensures ConvertToDatetime(Some("2023-01-10")) == Some(Dates.DateTime(2023, 1, 10, 0, 0, 0))
  {
    var s := "2023-01-10";
    DigitStrings();
    assert s[..4] == "2023" && s[5..7] == "01" && s[8..10] == "10";
    assert Dates.Valid(Dates.DateTime(2023, 1, 10, 0, 0, 0));
  }

  // ------------------------------------------------------------- set / get

  /** A converted bound as the timestamp stored in the row. */
  function Stamp(d: Option<Dates.DateTime>): Option<int>
    requires d.None? || Dates.Valid(d.value)
  {
    if d.Some? then Some(Dates.ToTimestamp(d.value)) else None
  }

  /** The `start_date` and `end_date` a setter passes: the raw bounds of the category's field, converted. */
  function StoredRange(c: Category, data: Payload): (Option<int>, Option<int>)
    requires DatesAreText(data, DateField(c))
  {
    var bounds := DateBounds(data, DateField(c));
    (Stamp(ConvertToDatetime(bounds.0)), Stamp(ConvertToDatetime(bounds.1)))
  }

  /** What a setter does to the table: it upserts the whole dataset under the category's type and period, with the converted bounds. */
  function Stored(t: Table, c: Category, ticker: string, data: Payload, now: int): (Table, CacheRow)
    requires DatesAreText(data, DateField(c))
  {
    var range := StoredRange(c, data);
    Upserted(t, ticker, DataType(c), PayloadJson(data), Period(c), range.0, range.1, now)
  }

  /** What a getter returns: the dataset of the newest row of the category for the ticker, whatever its period. */
  function Cached(rows: seq<CacheRow>, c: Category, ticker: string): (r: Option<Json>)
    ensures r.None? <==> forall k :: 0 <= k < |rows| ==> !(rows[k].ticker == ticker && rows[k].dataType == DataType(c))
    ensures r.Some? ==> exists k :: 0 <= k < |rows| && rows[k].ticker == ticker && rows[k].dataType == DataType(c) && rows[k].data == r.value
                               && forall j :: 0 <= j < |rows| && rows[j].ticker == ticker && rows[j].dataType == DataType(c) ==> rows[j].lastUpdated <= rows[k].lastUpdated
  {
    match GetByTickerAndType(rows, ticker, DataType(c), None)
    case Some(e) =>
      var k :| 0 <= k < |rows| && rows[k] == e;
      Some(e.data)
    case None => None
  }

  /**
   * A get after a set for the same ticker and category returns the dataset
   * just stored, which reads back as the very list of records passed, in
   * order; this needs the clock to have moved on since every stored refresh.
   */
  lemma GetAfterSet(t: Table, c: Category, ticker: string, data: Payload, now: int)
    requires WellKeyed(t) && ClockAhead(t.rows, now)
    requires DatesAreText(data, DateField(c))
    ensures Cached(Stored(t, c, ticker, data, now).0.rows, c, ticker) == Some(PayloadJson(data))
    ensures JsonPayload(PayloadJson(data)) == Some(data)
  {
    var range := StoredRange(c, data);
    LookupAfterUpsert(t, ticker, DataType(c), PayloadJson(data), Period(c), range.0, range.1, now);
    PayloadRoundTrip(data);
  }

  /** Setting one category for one ticker changes what no other (category, ticker) getter returns. */
  lemma SetLeavesOthers(t: Table, c: Category, ticker: string, data: Payload, now: int, other: Category, otherTicker: string)
    requires WellKeyed(t)
    requires DatesAreText(data, DateField(c))
    requires (other, otherTicker) != (c, ticker)
    ensures Cached(Stored(t, c, ticker, data, now).0.rows, other, otherTicker) == Cached(t.rows, other, otherTicker)
  {
    var range := StoredRange(c, data);
    if DataType(other) == DataType(c) {
      DataTypeInjective(other, c);
    }
    UpsertLeavesOtherKeys(t, ticker, DataType(c), PayloadJson(data), Period(c), range.0, range.1, now,
                          otherTicker, DataType(other), None);
  }

  /** A row stored under a category's data type carries that category's period. */
  predicate PeriodFits(r: CacheRow) {
    forall c :: r.dataType == DataType(c) ==> r.timePeriod == Period(c)
  }

  /** Every row of the table has the shape the setters give it. */
  ghost predicate SetterShaped(rows: seq<CacheRow>) {
    forall k :: 0 <= k < |rows| ==> PeriodFits(rows[k])
  }

  /**
   * The row a setter writes is stored under the category's data type and
   * period (`"daily"` for prices, none otherwise), and a table written only
   * by setters keeps that shape.
   */
  lemma SetStoresCategory(t: Table, c: Category, ticker: string, data: Payload, now: int)
    requires WellKeyed(t) && SetterShaped(t.rows)
    requires DatesAreText(data, DateField(c))
    ensures var (t', r) := Stored(t, c, ticker, data, now);
      && r.ticker == ticker && r.dataType == DataType(c) && r.timePeriod == Period(c)
      && SetterShaped(t'.rows)
  {
    var range := StoredRange(c, data);
    var start, end := range.0, range.1;
    var (t', r) := Stored(t, c, ticker, data, now);
    assert PeriodFits(r) by {
      forall d | r.dataType == DataType(d)
        ensures r.timePeriod == Period(d)
      {
        DataTypeInjective(c, d);
      }
    }
    match GetByTickerAndType(t.rows, ticker, DataType(c), Period(c))
    case Some(e) =>
      var k :| 0 <= k < |t.rows| && t.rows[k] == e;
      UpsertUpdatePath(t, ticker, DataType(c), PayloadJson(data), Period(c), start, end, now, k);
      assert PeriodFits(t.rows[k]);
      assert forall j :: 0 <= j < |t'.rows| ==> PeriodFits(t'.rows[j]) by {
        forall j | 0 <= j < |t'.rows|
          ensures PeriodFits(t'.rows[j])
        {
          if j != k {
            assert t'.rows[j] == t.rows[j];
          }
        }
      }
    case None =>
      UpsertCreatePath(t, ticker, DataType(c), PayloadJson(data), Period(c), start, end, now);
  }

  /** `min` and `max` of two different strings. */
  lemma MinMaxOfTwo(a: string, b: string)
    requires a != b
    ensures TextOrder.Min([a, b]) == (if TextOrder.LexLe(a, b) then a else b)
    ensures TextOrder.Max([a, b]) == (if TextOrder.LexLe(a, b) then b else a)
  {
    assert [a, b][1..] == [b];
    TextOrder.LexLeTotal(a, b);
    if TextOrder.LexLe(a, b) && TextOrder.LexLe(b, a) {
      TextOrder.LexLeAntisymmetric(a, b);
    }
  }

  /** The raw bounds of a dataset of two records carrying two different dates. */
  lemma BoundsOfTwo(data: Payload, key: string, a: string, b: string)
    requires |data| == 2 && key in data[0] && key in data[1]
    requires data[0][key] == Str(a) && data[1][key] == Str(b) && a != b
    ensures DatesAreText(data, key)
    ensures DateBounds(data, key) == if TextOrder.LexLe(a, b) then (Some(a), Some(b)) else (Some(b), Some(a))
  {
    assert data[1..] == [data[1]];
    assert data[1..][1..] == [];
    assert FieldValues(data, key) == [a, b];
    MinMaxOfTwo(a, b);
  }

  // ------------------------------------------------------------ the class

  /**
   * `DatabaseBackedCache`. Its repository is built with `model=None` in
   * `db_cache_adapter.py`, which would make `create` call `None`; the model gives it the
   * cache table's row type, as evidently intended.
   */
  class DatabaseBackedCache {
    const cacheRepo: FinancialDataCacheRepository

    ghost predicate Valid()
      reads cacheRepo, cacheRepo.table
    {
      cacheRepo.Valid()
    }

    /** The rows of the cache table. */
    function Rows(): seq<CacheRow>
      reads cacheRepo.table
    {
      cacheRepo.table.rows
    }

    /** `__init__(db)`: a cache over the session's cache table, rows `initial`, key sequence at `nextId`. */
    constructor (initial: seq<CacheRow>, nextId: int)
      requires WellKeyed(Table(initial, nextId))
      ensures Valid() && fresh(cacheRepo) && fresh(cacheRepo.table)
      ensures Rows() == initial && cacheRepo.table.nextId == nextId
    {
      cacheRepo := new FinancialDataCacheRepository(initial, nextId);
    }

    /** The body every setter shares. */
    method Set(c: Category, ticker: string, data: Payload, now: int)
      requires Valid() && DatesAreText(data, DateField(c))
      modifies cacheRepo.table
      ensures Valid()
      ensures cacheRepo.State() == Stored(old(cacheRepo.State()), c, ticker, data, now).0
      ensures old(ClockAhead(Rows(), now)) ==> Cached(Rows(), c, ticker) == Some(PayloadJson(data))
    {
      ghost var before := cacheRepo.State();
      var bounds := DateBounds(data, DateField(c));
      var startDt := ConvertToDatetime(bounds.0);
      var endDt := ConvertToDatetime(bounds.1);
      assert (Stamp(startDt), Stamp(endDt)) == StoredRange(c, data);
      var _ := cacheRepo.UpdateOrCreate(ticker, DataType(c), PayloadJson(data), Period(c), Stamp(startDt), Stamp(endDt), now);
      if ClockAhead(before.rows, now) {
        GetAfterSet(before, c, ticker, data, now);
      }
    }

    function GetPrices(ticker: string): (r: Option<Json>)
      reads cacheRepo.table
      ensures r == Cached(Rows(), Prices, ticker)
      ensures r.None? <==> forall k :: 0 <= k < |Rows()| ==> !(Rows()[k].ticker == ticker && Rows()[k].dataType == "prices")
    {
      Cached(Rows(), Prices, ticker)
    }

    method SetPrices(ticker: string, data: Payload, now: int)
      requires Valid() && DatesAreText(data, "time")
      modifies cacheRepo.table
      ensures Valid()
      ensures cacheRepo.State() == Stored(old(cacheRepo.State()), Prices, ticker, data, now).0
      ensures old(ClockAhead(Rows(), now)) ==> GetPrices(ticker) == Some(PayloadJson(data))
    {
      Set(Prices, ticker, data, now);
    }

    function GetFinancialMetrics(ticker: string): (r: Option<Json>)
      reads cacheRepo.table
      ensures r == Cached(Rows(), FinancialMetrics, ticker)
      ensures r.None? <==> forall k :: 0 <= k < |Rows()| ==> !(Rows()[k].ticker == ticker && Rows()[k].dataType == "financial_metrics")
    {
      Cached(Rows(), FinancialMetrics, ticker)
    }

    method SetFinancialMetrics(ticker: string, data: Payload, now: int)
      requires Valid() && DatesAreText(data, "report_period")
      modifies cacheRepo.table
      ensures Valid()
      ensures cacheRepo.State() == Stored(old(cacheRepo.State()), FinancialMetrics, ticker, data, now).0
      ensures old(ClockAhead(Rows(), now)) ==> GetFinancialMetrics(ticker) == Some(PayloadJson(data))
    {
      Set(FinancialMetrics, ticker, data, now);
    }

    function GetLineItems(ticker: string): (r: Option<Json>)
      reads cacheRepo.table
      ensures r == Cached(Rows(), LineItems, ticker)
      ensures r.None? <==> forall k :: 0 <= k < |Rows()| ==> !(Rows()[k].ticker == ticker && Rows()[k].dataType == "line_items")
    {
      Cached(Rows(), LineItems, ticker)
    }

    method SetLineItems(ticker: string, data: Payload, now: int)
      requires Valid() && DatesAreText(data, "report_period")
      modifies cacheRepo.table
      ensures Valid()
      ensures cacheRepo.State() == Stored(old(cacheRepo.State()), LineItems, ticker, data, now).0
      ensures old(ClockAhead(Rows(), now)) ==> GetLineItems(ticker) == Some(PayloadJson(data))
    {
      Set(LineItems, ticker, data, now);
    }

    function GetInsiderTrades(ticker: string): (r: Option<Json>)
      reads cacheRepo.table
      ensures r == Cached(Rows(), InsiderTrades, ticker)
      ensures r.None? <==> forall k :: 0 <= k < |Rows()| ==> !(Rows()[k].ticker == ticker && Rows()[k].dataType == "insider_trades")
    {
      Cached(Rows(), InsiderTrades, ticker)
    }

    method SetInsiderTrades(ticker: string, data: Payload, now: int)
      requires Valid() && DatesAreText(data, "filing_date")
      modifies cacheRepo.table
      ensures Valid()
      ensures cacheRepo.State() == Stored(old(cacheRepo.State()), InsiderTrades, ticker, data, now).0
      ensures old(ClockAhead(Rows(), now)) ==> GetInsiderTrades(ticker) == Some(PayloadJson(data))
    {
      Set(InsiderTrades, ticker, data, now);
    }

    function GetCompanyNews(ticker: string): (r: Option<Json>)
      reads cacheRepo.table
      ensures r == Cached(Rows(), CompanyNews, ticker)
      ensures r.None? <==> forall k :: 0 <= k < |Rows()| ==> !(Rows()[k].ticker == ticker && Rows()[k].dataType == "company_news")
    {
      Cached(Rows(), CompanyNews, ticker)
    }

    method SetCompanyNews(ticker: string, data: Payload, now: int)
      requires Valid() && DatesAreText(data, "date")
      modifies cacheRepo.table
      ensures Valid()
      ensures cacheRepo.State() == Stored(old(cacheRepo.State()), CompanyNews, ticker, data, now).0
      ensures old(ClockAhead(Rows(), now)) ==> GetCompanyNews(ticker) == Some(PayloadJson(data))
    {
      Set(CompanyNews, ticker, data, now);
    }
  }
}
