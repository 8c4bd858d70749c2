/**
 * The analysis repositories: requests a user submits for a ticker, with a
 * status that moves from "pending" to its outcome, and the per-analyst
 * results a request produces.
 */
module Analysis {
  import opened Optional
  import opened Values
  import opened Query
  import opened Base

  /** `SignalType`. */
  datatype Signal = Bullish | Bearish | Neutral

  /** One row of `analysis_requests`; instants are on the time line of module Dates. */
  datatype AnalysisRequest = AnalysisRequest(
    id: int,
    userId: int,
    ticker: string,
    startDate: int,
    endDate: int,
    modelName: Option<string>,
    modelProvider: Option<string>,
    analysts: Json,
    status: string,
    createdAt: int,
    completedAt: Option<int>)

  /** One row of `analysis_results`. */
  datatype AnalysisResult = AnalysisResult(
    id: int,
    requestId: int,
    analystName: string,
    ticker: string,
    signal: Option<Signal>,
    confidence: Option<real>,
    reasoning: Option<string>,
    createdAt: int)

  // ------------------------------------------------------------ column values

  function OptReal(o: Option<real>): SqlValue {
    if o.Some? then SqlReal(o.value) else SqlNull
  }

  /** An `Enum` column of SQLAlchemy stores a member by its name, not by its value. */
  function SignalText(g: Signal): string {
    match g
    case Bullish => "BULLISH"
    case Bearish => "BEARISH"
    case Neutral => "NEUTRAL"
  }

  function OptSignal(o: Option<Signal>): SqlValue {
    if o.Some? then SqlText(SignalText(o.value)) else SqlNull
  }

  predicate IsSignalText(t: string) {
    t == "BULLISH" || t == "BEARISH" || t == "NEUTRAL"
  }

  function ParseSignal(t: string): Signal
    requires IsSignalText(t)
  {
    if t == "BULLISH" then Bullish else if t == "BEARISH" then Bearish else Neutral
  }

  // ---------------------------------------------------- the requests' schema

  function RequestId(r: AnalysisRequest): int {
    r.id
  }

  function RequestWithId(r: AnalysisRequest, i: int): AnalysisRequest {
    r.(id := i)
  }

  function RequestAttr(r: AnalysisRequest, f: string): Option<SqlValue> {
    if f == "user_id" then Some(SqlInt(r.userId))
    else if f == "ticker" then Some(SqlText(r.ticker))
    else if f == "start_date" then Some(SqlTime(r.startDate))
    else if f == "end_date" then Some(SqlTime(r.endDate))
    else if f == "model_name" then Some(OptText(r.modelName))
    else if f == "model_provider" then Some(OptText(r.modelProvider))
    else if f == "analysts" then Some(SqlJson(r.analysts))
    else if f == "status" then Some(SqlText(r.status))
    else if f == "created_at" then Some(SqlTime(r.createdAt))
    else if f == "completed_at" then Some(OptTime(r.completedAt))
    else None
  }

  function RequestFits(f: string, v: SqlValue): bool {
    if f == "user_id" then v.SqlInt?
    else if f == "ticker" || f == "status" then v.SqlText?
    else if f == "start_date" || f == "end_date" || f == "created_at" then v.SqlTime?
    else if f == "model_name" || f == "model_provider" then v.SqlText? || v.SqlNull?
    else if f == "analysts" then v.SqlJson?
    else if f == "completed_at" then v.SqlTime? || v.SqlNull?
    else false
  }

  function RequestSetAttr(r: AnalysisRequest, f: string, v: SqlValue): AnalysisRequest {
    if !RequestFits(f, v) then r
    else if f == "user_id" then r.(userId := v.i)
    else if f == "ticker" then r.(ticker := v.t)
    else if f == "start_date" then r.(startDate := v.at)
    else if f == "end_date" then r.(endDate := v.at)
    else if f == "model_name" then r.(modelName := if v.SqlText? then Some(v.t) else None)
    else if f == "model_provider" then r.(modelProvider := if v.SqlText? then Some(v.t) else None)
    else if f == "analysts" then r.(analysts := v.doc)
    else if f == "status" then r.(status := v.t)
    else if f == "created_at" then r.(createdAt := v.at)
    else r.(completedAt := if v.SqlTime? then Some(v.at) else None)
  }

  function RequestSchema(): Schema<AnalysisRequest> {
    Schema(RequestId, RequestWithId, RequestAttr, RequestFits, RequestSetAttr)
  }

  lemma RequestSetAttrReadsBack(r: AnalysisRequest, f: string, v: SqlValue, g: string)
    requires RequestAttr(r, f).Some? && RequestFits(f, v)
    ensures RequestAttr(RequestSetAttr(r, f, v), g) == if g == f then Some(v) else RequestAttr(r, g)
  {
    if f in {"user_id", "ticker", "start_date", "end_date", "model_name"} {
      RequestSetLeadingAttr(r, f, v, g);
    } else {
      RequestSetTrailingAttr(r, f, v, g);
    }
  }

  lemma RequestSetLeadingAttr(r: AnalysisRequest, f: string, v: SqlValue, g: string)
    requires f in {"user_id", "ticker", "start_date", "end_date", "model_name"} && RequestFits(f, v)
    ensures RequestAttr(RequestSetAttr(r, f, v), g) == if g == f then Some(v) else RequestAttr(r, g)
  {
    if f == "user_id" {
    } else if f == "ticker" {
    } else if f == "start_date" {
    } else if f == "end_date" {
    } else {
    }
  }

  lemma RequestSetTrailingAttr(r: AnalysisRequest, f: string, v: SqlValue, g: string)
    requires RequestAttr(r, f).Some? && RequestFits(f, v)
    requires f !in {"user_id", "ticker", "start_date", "end_date", "model_name"}
    ensures RequestAttr(RequestSetAttr(r, f, v), g) == if g == f then Some(v) else RequestAttr(r, g)
  {
    if f == "model_provider" {
    } else if f == "analysts" {
    } else if f == "status" {
    } else if f == "created_at" {
    } else {
    }
  }

  lemma RequestSchemaLawful()
    ensures Lawful(RequestSchema())
  {
    var s := RequestSchema();
    assert forall r, f, v, g | s.attr(r, f).Some? && s.fits(f, v) ::
        s.attr(s.setAttr(r, f, v), g) == if g == f then Some(v) else s.attr(r, g) by {
      forall r, f, v, g | RequestAttr(r, f).Some? && RequestFits(f, v)
        ensures RequestAttr(RequestSetAttr(r, f, v), g) == if g == f then Some(v) else RequestAttr(r, g)
      {
        RequestSetAttrReadsBack(r, f, v, g);
      }
    }
    assert forall r, i, g :: s.attr(s.withId(r, i), g) == s.attr(r, g) by {
      forall r, i, g
        ensures RequestAttr(RequestWithId(r, i), g) == RequestAttr(r, g)
      {
        RequestWithIdKeepsAttrs(r, i, g);
      }
    }
    assert forall r, f, v | s.attr(r, f).Some? && s.fits(f, v) :: s.id(s.setAttr(r, f, v)) == s.id(r) by {
      forall r, f, v | RequestAttr(r, f).Some? && RequestFits(f, v)
        ensures RequestSetAttr(r, f, v).id == r.id
      {
        RequestSetAttrKeepsId(r, f, v);
      }
    }
  }

  lemma RequestWithIdKeepsAttrs(r: AnalysisRequest, i: int, g: string)
    ensures RequestAttr(RequestWithId(r, i), g) == RequestAttr(r, g)
  {
  }

  lemma RequestSetAttrKeepsId(r: AnalysisRequest, f: string, v: SqlValue)
    ensures RequestSetAttr(r, f, v).id == r.id
  {
  }

  // ----------------------------------------------------- the results' schema

  function ResultId(r: AnalysisResult): int {
    r.id
  }

  function ResultWithId(r: AnalysisResult, i: int): AnalysisResult {
    r.(id := i)
  }

  function ResultAttr(r: AnalysisResult, f: string): Option<SqlValue> {
    if f == "analysis_request_id" then Some(SqlInt(r.requestId))
    else if f == "analyst_name" then Some(SqlText(r.analystName))
    else if f == "ticker" then Some(SqlText(r.ticker))
    else if f == "signal" then Some(OptSignal(r.signal))
    else if f == "confidence" then Some(OptReal(r.confidence))
    else if f == "reasoning" then Some(OptText(r.reasoning))
    else if f == "created_at" then Some(SqlTime(r.createdAt))
    else None
  }

  function ResultFits(f: string, v: SqlValue): bool {
    if f == "analysis_request_id" then v.SqlInt?
    else if f == "analyst_name" || f == "ticker" then v.SqlText?
    else if f == "signal" then (v.SqlText? && IsSignalText(v.t)) || v.SqlNull?
    else if f == "confidence" then v.SqlReal? || v.SqlNull?
    else if f == "reasoning" then v.SqlText? || v.SqlNull?
    else if f == "created_at" then v.SqlTime?
    else false
  }

  function ResultSetAttr(r: AnalysisResult, f: string, v: SqlValue): AnalysisResult {
    if !ResultFits(f, v) then r
    else if f == "analysis_request_id" then r.(requestId := v.i)
    else if f == "analyst_name" then r.(analystName := v.t)
    else if f == "ticker" then r.(ticker := v.t)
    else if f == "signal" then r.(signal := if v.SqlText? then Some(ParseSignal(v.t)) else None)
    else if f == "confidence" then r.(confidence := if v.SqlReal? then Some(v.x) else None)
    else if f == "reasoning" then r.(reasoning := if v.SqlText? then Some(v.t) else None)
    else r.(createdAt := v.at)
  }

  function ResultSchema(): Schema<AnalysisResult> {
    Schema(ResultId, ResultWithId, ResultAttr, ResultFits, ResultSetAttr)
  }

  lemma ResultSetAttrReadsBack(r: AnalysisResult, f: string, v: SqlValue, g: string)
    requires ResultAttr(r, f).Some? && ResultFits(f, v)
    ensures ResultAttr(ResultSetAttr(r, f, v), g) == if g == f then Some(v) else ResultAttr(r, g)
  {
    if f == "analysis_request_id" {
    } else if f == "analyst_name" {
    } else if f == "ticker" {
    } else if f == "signal" {
    } else if f == "confidence" {
    } else if f == "reasoning" {
    } else {
    }
  }

  lemma ResultSchemaLawful()
    ensures Lawful(ResultSchema())
  {
    var s := ResultSchema();
    assert forall r, f, v, g | s.attr(r, f).Some? && s.fits(f, v) ::
        s.attr(s.setAttr(r, f, v), g) == if g == f then Some(v) else s.attr(r, g) by {
      forall r, f, v, g | ResultAttr(r, f).Some? && ResultFits(f, v)
        ensures ResultAttr(ResultSetAttr(r, f, v), g) == if g == f then Some(v) else ResultAttr(r, g)
      {
        ResultSetAttrReadsBack(r, f, v, g);
      }
    }
    assert forall r, i, g :: s.attr(s.withId(r, i), g) == s.attr(r, g) by {
      forall r, i, g
        ensures ResultAttr(ResultWithId(r, i), g) == ResultAttr(r, g)
      {
        ResultWithIdKeepsAttrs(r, i, g);
      }
    }
    assert forall r, f, v | s.attr(r, f).Some? && s.fits(f, v) :: s.id(s.setAttr(r, f, v)) == s.id(r) by {
      forall r, f, v | ResultAttr(r, f).Some? && ResultFits(f, v)
        ensures ResultSetAttr(r, f, v).id == r.id
      {
        ResultSetAttrKeepsId(r, f, v);
      }
    }
  }

  lemma ResultWithIdKeepsAttrs(r: AnalysisResult, i: int, g: string)
    ensures ResultAttr(ResultWithId(r, i), g) == ResultAttr(r, g)
  {
  }

  lemma ResultSetAttrKeepsId(r: AnalysisResult, f: string, v: SqlValue)
    ensures ResultSetAttr(r, f, v).id == r.id
  {
  }

  // ------------------------------------------------------------ update_status

  /** The request after `update_status(status, completed_at)` at time `now`. */
  function StatusChanged(q: AnalysisRequest, status: string, completedAt: Option<int>, now: int): AnalysisRequest {
    q.(status := status,
       completedAt := if completedAt.Some? then completedAt else if status == "completed" then Some(now) else q.completedAt)
  }

  /**
   * The rule for `completed_at`: a given time is stored as given; without
   * one, moving to "completed" stamps the current time and any other status
   * leaves it as it was. The status is the one given and nothing else moves.
   */
  lemma CompletedAtRule(q: AnalysisRequest, status: string, completedAt: Option<int>, now: int)
    ensures var r := StatusChanged(q, status, completedAt, now);
      && r.status == status
      && (completedAt.Some? ==> r.completedAt == completedAt)
      && (completedAt.None? && status == "completed" ==> r.completedAt == Some(now))
      && (completedAt.None? && status != "completed" ==> r.completedAt == q.completedAt)
      && r.(status := q.status, completedAt := q.completedAt) == q
  {
  }

  /** Repeating a status change with an explicit time, or to a status other than "completed", changes nothing more. */
  lemma StatusChangeSettles(q: AnalysisRequest, status: string, completedAt: Option<int>, now: int, later: int)
    requires completedAt.Some? || status != "completed"
    ensures StatusChanged(StatusChanged(q, status, completedAt, now), status, completedAt, later)
         == StatusChanged(q, status, completedAt, now)
  {
  }

  // ----------------------------------------------------------- the filters

  function UserIs(userId: int): AnalysisRequest -> bool {
    (q: AnalysisRequest) => q.userId == userId
  }

  function RequestTickerIs(ticker: string): AnalysisRequest -> bool {
    (q: AnalysisRequest) => q.ticker == ticker
  }

  function StatusIs(status: string): AnalysisRequest -> bool {
    (q: AnalysisRequest) => q.status == status
  }

  function RequestCreatedAt(q: AnalysisRequest): int {
    q.createdAt
  }

  function ForRequest(requestId: int): AnalysisResult -> bool {
    (r: AnalysisResult) => r.requestId == requestId
  }

  function TickerAndAnalyst(ticker: string, analystName: string): AnalysisResult -> bool {
    (r: AnalysisResult) => r.ticker == ticker && r.analystName == analystName
  }

  function ResultCreatedAt(r: AnalysisResult): int {
    r.createdAt
  }

  /** Once its status is anything but "pending", a request drops out of the pending queue... */
  lemma LeavesPendingQueue(rows: seq<AnalysisRequest>, q: AnalysisRequest, status: string, completedAt: Option<int>, now: int)
    requires status != "pending"
    ensures forall x :: x in Where(ReplaceById(RequestId, rows, StatusChanged(q, status, completedAt, now)), StatusIs("pending")) ==>
      x.id != q.id
  {
    var after := ReplaceById(RequestId, rows, StatusChanged(q, status, completedAt, now));
    forall x | x in Where(after, StatusIs("pending"))
      ensures x.id != q.id
    {
      InWhere(after, StatusIs("pending"), x);
    }
  }

  /** ...and every other request is in it after the change exactly when it was before. */
  lemma OthersStayQueued(rows: seq<AnalysisRequest>, q: AnalysisRequest, status: string, completedAt: Option<int>, now: int, x: AnalysisRequest)
    requires x.id != q.id
    ensures x in Where(ReplaceById(RequestId, rows, StatusChanged(q, status, completedAt, now)), StatusIs("pending"))
        <==> x in Where(rows, StatusIs("pending"))
  {
    var after := ReplaceById(RequestId, rows, StatusChanged(q, status, completedAt, now));
    WhereMembers(after, StatusIs("pending"));
    WhereMembers(rows, StatusIs("pending"));
    if x in Where(after, StatusIs("pending")) {
      InWhere(after, StatusIs("pending"), x);
      var j :| 0 <= j < |after| && after[j] == x;
      assert rows[j] == x;
    }
    if x in Where(rows, StatusIs("pending")) {
      InWhere(rows, StatusIs("pending"), x);
      var j :| 0 <= j < |rows| && rows[j] == x;
      assert after[j] == x;
    }
  }

  // ------------------------------------------------------------ the classes

  class AnalysisRequestRepository {
    const table: Repository<AnalysisRequest>

    ghost predicate Valid()
      reads this, table
    {
      table.Valid() && table.schema == RequestSchema()
    }

    /** `__init__(db)`: a repository over the table as the session finds it. */
    constructor (initial: seq<AnalysisRequest>, nextId: int)
      requires Consistent(RequestId, initial, nextId)
      ensures Valid() && fresh(table) && table.rows == initial && table.nextId == nextId
    {
      RequestSchemaLawful();
      table := new Repository(RequestSchema(), initial, nextId);
    }

    /** `get_by_user_id(user_id, skip, limit)`: the user's requests, newest first, after `skip` of them, at most `limit`. */
    function GetByUserId(userId: int, skip: nat, limit: nat): (r: seq<AnalysisRequest>)
      reads table
      ensures |r| == WindowSize(|Where(table.rows, UserIs(userId))|, skip, limit)
      ensures forall k :: 0 <= k < |r| ==> r[k] in table.rows && r[k].userId == userId
      ensures forall i, j :: 0 <= i < j < |r| ==> r[i].createdAt >= r[j].createdAt
      ensures skip == 0 && |Where(table.rows, UserIs(userId))| <= limit ==> multiset(r) == multiset(Where(table.rows, UserIs(userId)))
      ensures skip == 0 && r != [] ==> forall k :: 0 <= k < |table.rows| && table.rows[k].userId == userId ==>
        table.rows[k].createdAt <= r[0].createdAt
      ensures multiset(r) <= multiset(Where(table.rows, UserIs(userId)))
      ensures exists o :: SortedDesc(o, RequestCreatedAt) && multiset(o) == multiset(Where(table.rows, UserIs(userId)))
                && r == Page(o, skip, limit)
    {
      NewestFirst(table.rows, UserIs(userId), RequestCreatedAt, skip, limit)
    }

    /** `get_by_ticker(ticker, skip, limit)`: the ticker's requests, newest first, after `skip` of them, at most `limit`. */
    function GetByTicker(ticker: string, skip: nat, limit: nat): (r: seq<AnalysisRequest>)
      reads table
      ensures |r| == WindowSize(|Where(table.rows, RequestTickerIs(ticker))|, skip, limit)
      ensures forall k :: 0 <= k < |r| ==> r[k] in table.rows && r[k].ticker == ticker
      ensures forall i, j :: 0 <= i < j < |r| ==> r[i].createdAt >= r[j].createdAt
      ensures skip == 0 && |Where(table.rows, RequestTickerIs(ticker))| <= limit ==>
        multiset(r) == multiset(Where(table.rows, RequestTickerIs(ticker)))
      ensures skip == 0 && r != [] ==> forall k :: 0 <= k < |table.rows| && table.rows[k].ticker == ticker ==>
        table.rows[k].createdAt <= r[0].createdAt
      ensures multiset(r) <= multiset(Where(table.rows, RequestTickerIs(ticker)))
      ensures exists o :: SortedDesc(o, RequestCreatedAt) && multiset(o) == multiset(Where(table.rows, RequestTickerIs(ticker)))
                && r == Page(o, skip, limit)
    {
      NewestFirst(table.rows, RequestTickerIs(ticker), RequestCreatedAt, skip, limit)
    }

    /** `get_pending_requests(limit)`: pending requests, oldest first, at most `limit`, the oldest pending one leading. */
    function GetPendingRequests(limit: nat): (r: seq<AnalysisRequest>)
      reads table
      ensures |r| == WindowSize(|Where(table.rows, StatusIs("pending"))|, 0, limit)
      ensures forall k :: 0 <= k < |r| ==> r[k] in table.rows && r[k].status == "pending"
      ensures forall i, j :: 0 <= i < j < |r| ==> r[i].createdAt <= r[j].createdAt
      ensures r != [] ==> forall k :: 0 <= k < |table.rows| && table.rows[k].status == "pending" ==>
        r[0].createdAt <= table.rows[k].createdAt
      ensures |Where(table.rows, StatusIs("pending"))| <= limit ==> multiset(r) == multiset(Where(table.rows, StatusIs("pending")))
      ensures multiset(r) <= multiset(Where(table.rows, StatusIs("pending")))
      ensures exists o :: SortedAsc(o, RequestCreatedAt) && multiset(o) == multiset(Where(table.rows, StatusIs("pending")))
                && r == Page(o, 0, limit)
    {
      OldestFirst(table.rows, StatusIs("pending"), RequestCreatedAt, limit)
    }

    /**
     * `update_status(request_id, status, completed_at)`: nothing for an
     * unknown key, the table untouched; otherwise the request takes the new
     * status and completion time and is returned, every other request as it was.
     */
    method UpdateStatus(requestId: int, status: string, completedAt: Option<int>, now: int) returns (r: Option<AnalysisRequest>)
      requires Valid()
      modifies table
      ensures Valid()
      ensures table.nextId == old(table.nextId)
      ensures r.None? <==> old(table.Get(requestId)).None?
      ensures r.None? ==> table.rows == old(table.rows)
      ensures r.Some? ==> r.value == StatusChanged(old(table.Get(requestId)).value, status, completedAt, now)
      ensures r.Some? ==> table.rows == ReplaceById(RequestId, old(table.rows), r.value)
      ensures r.Some? ==> table.Get(requestId) == r
    {
      var request := table.Get(requestId);
      if request.Some? {
        var updated := StatusChanged(request.value, status, completedAt, now);
        ghost var k :| 0 <= k < |table.rows| && table.rows[k] == request.value;
        ReplaceStoredRow(RequestId, table.rows, k, updated);
        table.rows := ReplaceById(RequestId, table.rows, updated);
        KeyFilterHit(RequestId, table.rows, k);
        r := Some(updated);
      } else {
        r := None;
      }
    }
  }

  class AnalysisResultRepository {
    const table: Repository<AnalysisResult>

    ghost predicate Valid()
      reads this, table
    {
      table.Valid() && table.schema == ResultSchema()
    }

    /** `__init__(db)`: a repository over the table as the session finds it. */
    constructor (initial: seq<AnalysisResult>, nextId: int)
      requires Consistent(ResultId, initial, nextId)
      ensures Valid() && fresh(table) && table.rows == initial && table.nextId == nextId
    {
      ResultSchemaLawful();
      table := new Repository(ResultSchema(), initial, nextId);
    }

    /**
     * `get_by_request_id(request_id)`: exactly the results of that request,
     * each as often as the table holds it, in table order.
     */
    function GetByRequestId(requestId: int): (r: seq<AnalysisResult>)
      reads table
      ensures forall k :: 0 <= k < |r| ==> r[k] in table.rows && r[k].requestId == requestId
      ensures forall k :: 0 <= k < |table.rows| && table.rows[k].requestId == requestId ==> table.rows[k] in r
      ensures forall x :: multiset(r)[x] == if x.requestId == requestId then multiset(table.rows)[x] else 0
    {
      WhereMembers(table.rows, ForRequest(requestId));
      forall x ensures multiset(Where(table.rows, ForRequest(requestId)))[x] == if x.requestId == requestId then multiset(table.rows)[x] else 0 {
        WhereMultiplicity(table.rows, ForRequest(requestId), x);
      }
      Where(table.rows, ForRequest(requestId))
    }

    /**
     * `get_by_ticker_and_analyst(ticker, analyst_name, limit)`: that analyst's
     * results for the ticker, most recent first, at most `limit`; the first is
     * the most recent of all of them.
     */
    function GetByTickerAndAnalyst(ticker: string, analystName: string, limit: nat): (r: seq<AnalysisResult>)
      reads table
      ensures |r| == WindowSize(|Where(table.rows, TickerAndAnalyst(ticker, analystName))|, 0, limit)
      ensures forall k :: 0 <= k < |r| ==> r[k] in table.rows && r[k].ticker == ticker && r[k].analystName == analystName
      ensures forall i, j :: 0 <= i < j < |r| ==> r[i].createdAt >= r[j].createdAt
      ensures r != [] ==> forall k :: 0 <= k < |table.rows| && table.rows[k].ticker == ticker && table.rows[k].analystName == analystName ==>
        table.rows[k].createdAt <= r[0].createdAt
      ensures |Where(table.rows, TickerAndAnalyst(ticker, analystName))| <= limit ==>
        multiset(r) == multiset(Where(table.rows, TickerAndAnalyst(ticker, analystName)))
      ensures multiset(r) <= multiset(Where(table.rows, TickerAndAnalyst(ticker, analystName)))
      ensures exists o :: SortedDesc(o, ResultCreatedAt) && multiset(o) == multiset(Where(table.rows, TickerAndAnalyst(ticker, analystName)))
                && r == Page(o, 0, limit)
    {
      NewestFirst(table.rows, TickerAndAnalyst(ticker, analystName), ResultCreatedAt, 0, limit)
    }
  }
}
