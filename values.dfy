/**
 * The values the persistence layer stores: JSON documents (the `JSON`
 * column type) and the column values of a row as SQLAlchemy's attribute
 * access sees them.
 */
module Values {
  import Optional

  /** A JSON document. Numbers are kept exact; nothing in the core does arithmetic on them. */
  datatype Json =
    | Null
    | Bool(b: bool)
    | Number(n: real)
    | Str(s: string)
    | Array(items: seq<Json>)
    | Object(fields: map<string, Json>)

  /** One record of a fetched dataset: `Dict[str, Any]`. */
  type Record = map<string, Json>

  /** A fetched dataset: `List[Dict[str, Any]]`. */
  type Payload = seq<Record>

  /** The JSON array a list of records is stored as. */
  function PayloadJson(data: Payload): (j: Json)
    ensures j.Array? && |j.items| == |data|
    ensures forall k :: 0 <= k < |data| ==> j.items[k] == Object(data[k])
  {
    Array(seq(|data|, k requires 0 <= k < |data| => Object(data[k])))
  }

  /** Reads a stored JSON array back as the list of records, when it is one. */
  function JsonPayload(j: Json): (r: Optional.Option<Payload>)
  {
    if j.Array? && forall k :: 0 <= k < |j.items| ==> j.items[k].Object? then
      Optional.Some(seq(|j.items|, k requires 0 <= k < |j.items| && j.items[k].Object? => j.items[k].fields))
    else Optional.None
  }

  /** Storing a list of records loses nothing: the records come back, in order. */
  lemma PayloadRoundTrip(data: Payload)
    ensures JsonPayload(PayloadJson(data)) == Optional.Some(data)
  {
    var j := PayloadJson(data);
    assert forall k :: 0 <= k < |j.items| ==> j.items[k].Object?;
    var back := seq(|j.items|, k requires 0 <= k < |j.items| && j.items[k].Object? => j.items[k].fields);
    assert back == data;
  }

  /** Storing keeps different lists apart. */
  lemma PayloadJsonInjective(a: Payload, b: Payload)
    requires PayloadJson(a) == PayloadJson(b)
    ensures a == b
  {
    PayloadRoundTrip(a);
    PayloadRoundTrip(b);
  }

  /**
   * The value of one column of a row. Timestamps are instants on the time
   * line of module Dates (microseconds since 0001-01-01).
   */
  datatype SqlValue =
    | SqlNull
    | SqlInt(i: int)
    | SqlReal(x: real)
    | SqlText(t: string)
    | SqlTime(at: int)
    | SqlJson(doc: Json)

  /** A nullable text column: the string, or SQL `NULL`. */
  function OptText(o: Optional.Option<string>): SqlValue {
    if o.Some? then SqlText(o.value) else SqlNull
  }

  /** A nullable `DateTime` column: the instant, or SQL `NULL`. */
  function OptTime(o: Optional.Option<int>): SqlValue {
    if o.Some? then SqlTime(o.value) else SqlNull
  }
}
