/**
 * The generic repository every table is accessed through: `get`, `get_all`,
 * `create`, `update` and `delete` on one mapped class, with the table held as
 * the sequence of its rows in insertion order.
 */
module Base {
  import opened Optional
  import opened Values
  import opened Query

  /**
   * How the generic repository sees a mapped class: its primary key, the key
   * the database assigns on insert, and its named attributes as `hasattr`,
   * `getattr` and `setattr` see them. `attr(r, f)` is `None` exactly when the
   * class has no mapped column `f` other than the primary key; `fits(f, v)` says the column `f` can hold `v`.
   */
  datatype Schema<!R> = Schema(
    id: R -> int,
    withId: (R, int) -> R,
    attr: (R, string) -> Option<SqlValue>,
    fits: (string, SqlValue) -> bool,
    setAttr: (R, string, SqlValue) -> R)

  /** What Python attribute access guarantees: a set attribute reads back, and nothing else moves. */
  ghost predicate Lawful<R(!new)>(s: Schema<R>) {
    && (forall r, i :: s.id(s.withId(r, i)) == i)
    && (forall r, i, g :: s.attr(s.withId(r, i), g) == s.attr(r, g))
    && (forall r, f, v, g | s.attr(r, f).Some? && s.fits(f, v) ::
          s.attr(s.setAttr(r, f, v), g) == if g == f then Some(v) else s.attr(r, g))
    && (forall r, f, v | s.attr(r, f).Some? && s.fits(f, v) :: s.id(s.setAttr(r, f, v)) == s.id(r))
  }

  /** The primary key constraint. */
  ghost predicate UniqueIds<R>(id: R -> int, rows: seq<R>) {
    forall i, j :: 0 <= i < j < |rows| ==> id(rows[i]) != id(rows[j])
  }

  /** The filter `Model.id == key`. */
  function KeyIs<R>(id: R -> int, key: int): R -> bool {
    x => id(x) == key
  }

  /** The filter `Model.id != key`. */
  function KeyIsNot<R>(id: R -> int, key: int): R -> bool {
    x => id(x) != key
  }

  /** The table once the row with `r`'s key has been changed into `r` (and committed). */
  function ReplaceById<R>(id: R -> int, rows: seq<R>, r: R): (res: seq<R>)
    ensures |res| == |rows|
    ensures forall k :: 0 <= k < |rows| ==> res[k] == if id(rows[k]) == id(r) then r else rows[k]
  {
    seq(|rows|, k requires 0 <= k < |rows| => if id(rows[k]) == id(r) then r else rows[k])
  }

  /** Under the key constraint, replacing a stored row changes that row alone and keeps the key constraint. */
  lemma ReplaceStoredRow<R>(id: R -> int, rows: seq<R>, k: int, r: R)
    requires UniqueIds(id, rows)
    requires 0 <= k < |rows| && id(rows[k]) == id(r)
    ensures ReplaceById(id, rows, r) == rows[k := r]
    ensures UniqueIds(id, rows[k := r])
  {
  }

  /** Under the key constraint, a key filter selects exactly one stored row... */
  lemma KeyFilterHit<R>(id: R -> int, rows: seq<R>, k: int)
    requires UniqueIds(id, rows)
    requires 0 <= k < |rows|
    ensures Where(rows, KeyIs(id, id(rows[k]))) == [rows[k]]
  {
    WhereSingle(rows, KeyIs(id, id(rows[k])), k);
  }

  /** ...and its negation all the other rows, in order. */
  lemma KeyFilterMiss<R>(id: R -> int, rows: seq<R>, k: int)
    requires UniqueIds(id, rows)
    requires 0 <= k < |rows|
    ensures Where(rows, KeyIsNot(id, id(rows[k]))) == rows[..k] + rows[k + 1..]
  {
    WhereAllBut(rows, KeyIsNot(id, id(rows[k])), k);
  }

  /** The table without its row at position `k`. */
  function Without<R>(rows: seq<R>, k: int): (res: seq<R>)
    requires 0 <= k < |rows|
    ensures |res| == |rows| - 1
    ensures forall j :: 0 <= j < |res| ==> res[j] == if j < k then rows[j] else rows[j + 1]
  {
    rows[..k] + rows[k + 1..]
  }

  /** Under the key constraint, removing one stored row leaves every other row, and no row with its key. */
  lemma DeleteStoredRow<R>(id: R -> int, rows: seq<R>, k: int, nextId: int)
    requires UniqueIds(id, rows)
    requires forall j :: 0 <= j < |rows| ==> id(rows[j]) < nextId
    requires 0 <= k < |rows|
    ensures Where(rows, KeyIsNot(id, id(rows[k]))) == Without(rows, k)
    ensures UniqueIds(id, Without(rows, k))
    ensures forall j :: 0 <= j < |Without(rows, k)| ==>
      id(Without(rows, k)[j]) < nextId && id(Without(rows, k)[j]) != id(rows[k])
  {
    KeyFilterMiss(id, rows, k);
    FilterKeepsKeys(id, rows, KeyIsNot(id, id(rows[k])), nextId);
  }

  /** Deleting rows by a filter keeps the key constraint and the bound on stored keys. */
  lemma {:induction false} FilterKeepsKeys<R>(id: R -> int, rows: seq<R>, p: R -> bool, nextId: int)
    requires UniqueIds(id, rows)
    requires forall k :: 0 <= k < |rows| ==> id(rows[k]) < nextId
    ensures UniqueIds(id, Where(rows, p))
    ensures forall k :: 0 <= k < |Where(rows, p)| ==> id(Where(rows, p)[k]) < nextId
  {
    WhereMembers(rows, p);
    if rows != [] {
      FilterKeepsKeys(id, rows[1..], p, nextId);
      WhereMembers(rows[1..], p);
      var rest := Where(rows[1..], p);
      assert forall k :: 0 <= k < |rest| ==> id(rest[k]) != id(rows[0]) by {
        forall k | 0 <= k < |rest|
          ensures id(rest[k]) != id(rows[0])
        {
          var j :| 0 <= j < |rows[1..]| && rows[1..][j] == rest[k];
          assert rows[j + 1] == rest[k];
        }
      }
    }
  }

  /** What a table the database keeps satisfies: unique keys, every key below the sequence. */
  ghost predicate Consistent<R>(id: R -> int, rows: seq<R>, nextId: int) {
    UniqueIds(id, rows) && forall k :: 0 <= k < |rows| ==> id(rows[k]) < nextId
  }

  class Repository<R(!new)> {
    const schema: Schema<R>
    var rows: seq<R>
    /** The next key the database's sequence hands out. */
    var nextId: int

    ghost predicate Valid()
      reads this
    {
      Lawful(schema) && Consistent(schema.id, rows, nextId)
    }

    /**
     * `__init__(model, db)`: a repository over the table as the session `db`
     * finds it, with rows `initial` and the key sequence standing at `nextId`.
     */
    constructor (schema: Schema<R>, initial: seq<R>, nextId: int)
      requires Lawful(schema) && Consistent(schema.id, initial, nextId)
      ensures Valid() && this.schema == schema && rows == initial && this.nextId == nextId
    {
      this.schema := schema;
      rows := initial;
      this.nextId := nextId;
    }

    /** `get(id)`: the row with that key, `None` when there is none. */
    function Get(id: int): (r: Option<R>)
      reads this
      ensures r.None? <==> forall k :: 0 <= k < |rows| ==> schema.id(rows[k]) != id
      ensures r.Some? ==> r.value in rows && schema.id(r.value) == id
    {
      WhereMembers(rows, KeyIs(schema.id, id));
      First(Where(rows, KeyIs(schema.id, id)))
    }

    /** `get_all(skip, limit)`: the rows from position `skip` on, at most `limit` of them. */
    function GetAll(skip: nat, limit: nat): (r: seq<R>)
      reads this
      ensures |r| <= limit
      ensures |r| == limit || skip + |r| >= |rows|
      ensures forall k :: 0 <= k < |r| ==> skip + k < |rows| && r[k] == rows[skip + k]
    {
      Page(rows, skip, limit)
    }

    /** `create(obj)`: inserts one row carrying `obj`'s attributes under a fresh key. */
    method Create(obj: R) returns (created: R)
      requires Valid()
      modifies this
      ensures Valid()
      ensures nextId == old(nextId) + 1
      ensures created == schema.withId(obj, old(nextId))
      ensures forall g :: schema.attr(created, g) == schema.attr(obj, g)
      ensures rows == old(rows) + [created]
      ensures Get(schema.id(created)) == Some(created)
    {
      created := schema.withId(obj, nextId);
      rows := rows + [created];
      nextId := nextId + 1;
      assert Where(rows, KeyIs(schema.id, schema.id(created))) == [created] by {
        WhereConcat(old(rows), [created], KeyIs(schema.id, schema.id(created)));
        WhereNone(old(rows), KeyIs(schema.id, schema.id(created)));
      }
    }

    /**
     * `update(db_obj, update_data)`: sets each named attribute the row has,
     * ignores the names it does not have, and commits the row.
     */
    method Update(obj: R, updateData: map<string, SqlValue>) returns (updated: R)
      requires Valid()
      requires obj in rows
      requires forall f :: f in updateData && schema.attr(obj, f).Some? ==> schema.fits(f, updateData[f])
      modifies this
      ensures Valid()
      ensures nextId == old(nextId)
      ensures schema.id(updated) == schema.id(obj)
      ensures forall g :: schema.attr(updated, g) ==
                          (if g in updateData && schema.attr(obj, g).Some? then Some(updateData[g]) else schema.attr(obj, g))
      ensures rows == ReplaceById(schema.id, old(rows), updated)
      ensures Get(schema.id(obj)) == Some(updated)
    {
      updated := obj;
      var todo := updateData.Keys;
      while todo != {}
        invariant todo <= updateData.Keys
        invariant schema.id(updated) == schema.id(obj)
        invariant forall g :: schema.attr(updated, g) ==
                            (if g in updateData && g !in todo && schema.attr(obj, g).Some? then Some(updateData[g]) else schema.attr(obj, g))
        decreases todo
      {
        var f :| f in todo;
        if schema.attr(updated, f).Some? {
          updated := schema.setAttr(updated, f, updateData[f]);
        }
        todo := todo - {f};
      }
      ghost var k :| 0 <= k < |rows| && rows[k] == obj;
      ReplaceStoredRow(schema.id, rows, k, updated);
      rows := ReplaceById(schema.id, rows, updated);
      KeyFilterHit(schema.id, rows, k);
    }

    /** `delete(id)`: removes the row with that key and returns it; the key must exist. */
    method Delete(id: int) returns (obj: R)
      requires Valid()
      requires exists k :: 0 <= k < |rows| && schema.id(rows[k]) == id
      modifies this
      ensures Valid()
      ensures nextId == old(nextId)
      ensures Some(obj) == old(Get(id))
      ensures rows == Where(old(rows), KeyIsNot(schema.id, id))
      ensures |rows| == |old(rows)| - 1
      ensures Get(id) == None
    {
      var k :| 0 <= k < |rows| && schema.id(rows[k]) == id;
      obj := rows[k];
      KeyFilterHit(schema.id, rows, k);
      DeleteStoredRow(schema.id, rows, k, nextId);
      rows := Without(rows, k);
    }
  }
}
