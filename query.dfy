/**
 * The query building blocks the repositories use: `filter` (Where),
 * `order_by` (OrderBy, OrderByDesc), `offset`/`limit` (Page) and `first`
 * (First), as operations on a table held as a sequence of rows.
 *
 * SQL leaves the order of rows with equal sort keys open; the model picks the
 * stable order (rows with equal keys keep their table order), which is one of
 * the orders a database may return.
 */
module Query {
  import opened Optional

  /** `filter(p)`: the rows satisfying `p`, in table order. */
  function Where<T>(s: seq<T>, p: T -> bool): (r: seq<T>)
    ensures |r| <= |s|
  {
    if s == [] then []
    else if p(s[0]) then [s[0]] + Where(s[1..], p)
    else Where(s[1..], p)
  }

  /** The rows a filter selects are exactly the rows of the table that pass it. */
  lemma {:induction false} WhereMembers<T>(s: seq<T>, p: T -> bool)
    ensures forall k :: 0 <= k < |Where(s, p)| ==> Where(s, p)[k] in s && p(Where(s, p)[k])
    ensures forall k :: 0 <= k < |s| && p(s[k]) ==> s[k] in Where(s, p)
  {
    if s != [] {
      WhereMembers(s[1..], p);
      assert s == [s[0]] + s[1..];
    }
  }

  /** Every row lands on exactly one side of a filter. */
  lemma {:induction false} WherePartition<T>(s: seq<T>, p: T -> bool, q: T -> bool)
    requires forall x :: q(x) == !p(x)
    ensures |Where(s, p)| + |Where(s, q)| == |s|
  {
    if s != [] {
      WherePartition(s[1..], p, q);
    }
  }

  /** Two tables that agree on the rows a filter keeps, position by position, give the same result. */
  lemma {:induction false} WherePointwise<T>(s: seq<T>, t: seq<T>, p: T -> bool)
    requires |s| == |t|
    requires forall k :: 0 <= k < |s| ==> p(s[k]) == p(t[k])
    requires forall k :: 0 <= k < |s| && p(s[k]) ==> s[k] == t[k]
    ensures Where(s, p) == Where(t, p)
  {
    if s != [] {
      assert p(s[0]) == p(t[0]);
      WherePointwise(s[1..], t[1..], p);
    }
  }

  /** Two filters that agree on every row of a table select the same rows. */
  lemma {:induction false} WhereSameFilter<T>(s: seq<T>, p: T -> bool, q: T -> bool)
    requires forall k :: 0 <= k < |s| ==> p(s[k]) == q(s[k])
    ensures Where(s, p) == Where(s, q)
  {
    if s != [] {
      WhereSameFilter(s[1..], p, q);
    }
  }

  lemma {:induction false} WhereConcat<T>(a: seq<T>, b: seq<T>, p: T -> bool)
    ensures Where(a + b, p) == Where(a, p) + Where(b, p)
  {
    if a != [] {
      assert (a + b)[1..] == a[1..] + b;
      WhereConcat(a[1..], b, p);
    } else {
      assert a + b == b;
    }
  }

  lemma WhereCons<T>(x: T, s: seq<T>, p: T -> bool)
    ensures Where([x] + s, p) == if p(x) then [x] + Where(s, p) else Where(s, p)
  {
    assert ([x] + s)[1..] == s;
  }

  /** A filter every row passes keeps the whole table. */
  lemma {:induction false} WhereAll<T>(s: seq<T>, p: T -> bool)
    requires forall k :: 0 <= k < |s| ==> p(s[k])
    ensures Where(s, p) == s
  {
    if s != [] {
      WhereAll(s[1..], p);
    }
  }

  /** A filter no row passes selects nothing. */
  lemma {:induction false} WhereNone<T>(s: seq<T>, p: T -> bool)
    requires forall k :: 0 <= k < |s| ==> !p(s[k])
    ensures Where(s, p) == []
  {
    if s != [] {
      WhereNone(s[1..], p);
    }
  }

  /** A filter exactly one row passes selects that row alone. */
  lemma {:induction false} WhereSingle<T>(s: seq<T>, p: T -> bool, k: int)
    requires 0 <= k < |s| && p(s[k])
    requires forall j :: 0 <= j < |s| && j != k ==> !p(s[j])
    ensures Where(s, p) == [s[k]]
  {
    if k == 0 {
      WhereNone(s[1..], p);
    } else {
      WhereSingle(s[1..], p, k - 1);
    }
  }

  /** A filter every row but one passes drops that row alone. */
  lemma {:induction false} WhereAllBut<T>(s: seq<T>, p: T -> bool, k: int)
    requires 0 <= k < |s| && !p(s[k])
    requires forall j :: 0 <= j < |s| && j != k ==> p(s[j])
    ensures Where(s, p) == s[..k] + s[k + 1..]
  {
    if k == 0 {
      WhereAll(s[1..], p);
    } else {
      WhereAllBut(s[1..], p, k - 1);
      assert s[..k] == [s[0]] + s[1..][..k - 1];
      assert s[k + 1..] == s[1..][k..];
    }
  }

  /** `key` never increases along `s`. */
  ghost predicate SortedDesc<T>(s: seq<T>, key: T -> int) {
    forall i, j :: 0 <= i < j < |s| ==> key(s[i]) >= key(s[j])
  }

  /** `key` never decreases along `s`. */
  ghost predicate SortedAsc<T>(s: seq<T>, key: T -> int) {
    forall i, j :: 0 <= i < j < |s| ==> key(s[i]) <= key(s[j])
  }

  /** A row whose key is at least that of a sorted table's head can go in front of it. */
  lemma SortedDescCons<T>(y: T, t: seq<T>, key: T -> int)
    requires SortedDesc(t, key)
    requires t == [] || key(y) >= key(t[0])
    ensures SortedDesc([y] + t, key)
  {
    var r := [y] + t;
    forall i, j | 0 <= i < j < |r|
      ensures key(r[i]) >= key(r[j])
    {
      if i == 0 && j > 1 {
        assert key(t[0]) >= key(t[j - 1]);
      }
    }
  }

  /** Places `x` in front of the first row whose key is smaller than its own. */
  function InsertDesc<T>(x: T, s: seq<T>, key: T -> int): (r: seq<T>)
    requires SortedDesc(s, key)
    ensures SortedDesc(r, key)
    ensures |r| == |s| + 1
    ensures r[0] == x || (s != [] && r[0] == s[0])
    ensures multiset(r) == multiset(s) + multiset{x}
  {
    if s == [] || key(x) >= key(s[0]) then
      SortedDescCons(x, s, key);
      [x] + s
    else
      var rest := InsertDesc(x, s[1..], key);
      assert SortedDesc(s[1..], key);
      assert key(rest[0]) <= key(s[0]) by {
        if rest[0] != x {
          assert rest[0] == s[1];
        }
      }
      SortedDescCons(s[0], rest, key);
      assert s == [s[0]] + s[1..];
      [s[0]] + rest
  }

  /** `order_by(key.desc())`: a permutation of `s`, largest key first. */
  function OrderByDesc<T>(s: seq<T>, key: T -> int): (r: seq<T>)
    ensures SortedDesc(r, key)
    ensures multiset(r) == multiset(s)
    ensures |r| == |s|
  {
    if s == [] then []
    else
      assert s == [s[0]] + s[1..];
      InsertDesc(s[0], OrderByDesc(s[1..], key), key)
  }

  /** `order_by(key)`: a permutation of `s`, smallest key first. */
  function OrderBy<T>(s: seq<T>, key: T -> int): (r: seq<T>)
    ensures forall i, j :: 0 <= i < j < |r| ==> key(r[i]) <= key(r[j])
    ensures multiset(r) == multiset(s)
    ensures |r| == |s|
  {
    var r := OrderByDesc(s, x => -key(x));
    assert forall i, j :: 0 <= i < j < |r| ==> -key(r[i]) >= -key(r[j]);
    r
  }

  /** `offset(skip).limit(limit)`: the window of at most `limit` rows starting at position `skip`. */
  function Page<T>(s: seq<T>, skip: nat, limit: nat): (r: seq<T>)
    ensures |r| == if skip >= |s| then 0 else if |s| - skip < limit then |s| - skip else limit
    ensures forall k :: 0 <= k < |r| ==> r[k] == s[skip + k]
  {
    if skip >= |s| then []
    else if |s| - skip < limit then s[skip..]
    else s[skip..skip + limit]
  }

  /** How many rows a window of `limit` rows from position `skip` holds, out of `n`. */
  function WindowSize(n: nat, skip: nat, limit: nat): nat {
    if skip >= n then 0 else if n - skip < limit then n - skip else limit
  }

  /** A filter keeps every copy of a passing row and no copy of any other. */
  lemma {:induction false} WhereMultiplicity<T>(s: seq<T>, p: T -> bool, x: T)
    ensures multiset(Where(s, p))[x] == if p(x) then multiset(s)[x] else 0
  {
    if s != [] {
      WhereMultiplicity(s[1..], p, x);
      assert s == [s[0]] + s[1..];
      WhereCons(s[0], s[1..], p);
    }
  }

  /** A window holds no more copies of any row than the table it is cut from. */
  lemma PageSubMultiset<T>(o: seq<T>, skip: nat, limit: nat)
    ensures multiset(Page(o, skip, limit)) <= multiset(o)
  {
    if skip < |o| {
      var end := if |o| - skip < limit then |o| else skip + limit;
      assert Page(o, skip, limit) == o[skip..end];
      SliceSubMultiset(o, skip, end);
    }
  }

  lemma SliceSubMultiset<T>(o: seq<T>, i: int, j: int)
    requires 0 <= i <= j <= |o|
    ensures multiset(o[i..j]) <= multiset(o)
  {
    assert o == o[..i] + o[i..j] + o[j..];
    assert multiset(o) == multiset(o[..i]) + multiset(o[i..j]) + multiset(o[j..]);
  }

  /** A row of a filtered table is a row of the table that passes the filter. */
  lemma InWhere<T>(s: seq<T>, p: T -> bool, x: T)
    requires x in Where(s, p)
    ensures x in s && p(x)
  {
    WhereMembers(s, p);
    var j :| 0 <= j < |Where(s, p)| && Where(s, p)[j] == x;
  }

  /** A window of a reordering of the matches holds matching rows of the table only. */
  lemma WindowMembers<T>(s: seq<T>, p: T -> bool, o: seq<T>, skip: nat, limit: nat)
    requires multiset(o) == multiset(Where(s, p))
    ensures forall k :: 0 <= k < |Page(o, skip, limit)| ==> Page(o, skip, limit)[k] in s && p(Page(o, skip, limit)[k])
  {
    var r := Page(o, skip, limit);
    forall k | 0 <= k < |r|
      ensures r[k] in s && p(r[k])
    {
      assert r[k] == o[skip + k];
      assert o[skip + k] in multiset(o);
      InWhere(s, p, o[skip + k]);
    }
  }

  lemma PageSortedDesc<T>(o: seq<T>, key: T -> int, skip: nat, limit: nat)
    requires SortedDesc(o, key)
    ensures SortedDesc(Page(o, skip, limit), key)
  {
    var r := Page(o, skip, limit);
    forall i, j | 0 <= i < j < |r|
      ensures key(r[i]) >= key(r[j])
    {
      assert r[i] == o[skip + i] && r[j] == o[skip + j];
    }
  }

  lemma PageAscending<T>(o: seq<T>, key: T -> int, limit: nat)
    requires forall i, j :: 0 <= i < j < |o| ==> key(o[i]) <= key(o[j])
    ensures forall i, j :: 0 <= i < j < |Page(o, 0, limit)| ==> key(Page(o, 0, limit)[i]) <= key(Page(o, 0, limit)[j])
  {
    var r := Page(o, 0, limit);
    forall i, j | 0 <= i < j < |r|
      ensures key(r[i]) <= key(r[j])
    {
      assert r[i] == o[i] && r[j] == o[j];
    }
  }

  /** A row that passes the filter is among the filtered rows. */
  lemma PassesWhere<T>(s: seq<T>, p: T -> bool, k: int)
    requires 0 <= k < |s| && p(s[k])
    ensures s[k] in Where(s, p)
  {
    WhereMembers(s, p);
  }

  /** The first row of an ascending reordering carries the smallest key. */
  lemma AscendingHead<T>(w: seq<T>, o: seq<T>, key: T -> int, x: T)
    requires multiset(o) == multiset(w) && x in w
    requires forall i, j :: 0 <= i < j < |o| ==> key(o[i]) <= key(o[j])
    ensures o != [] && key(o[0]) <= key(x)
  {
    assert x in multiset(o) by { assert x in multiset(w); }
    var j :| 0 <= j < |o| && o[j] == x;
    if j > 0 {
      assert key(o[0]) <= key(o[j]);
    }
  }

  /** The first row of a descending reordering carries the largest key. */
  lemma DescendingHead<T>(w: seq<T>, o: seq<T>, key: T -> int, x: T)
    requires multiset(o) == multiset(w) && x in w
    requires SortedDesc(o, key)
    ensures o != [] && key(x) <= key(o[0])
  {
    assert x in multiset(o) by { assert x in multiset(w); }
    var j :| 0 <= j < |o| && o[j] == x;
    if j > 0 {
      assert key(o[0]) >= key(o[j]);
    }
  }

  /**
   * Any window of any newest-first reordering of the matches: its size,
   * matching rows only, no row more often than it matches, still newest
   * first; from the start and with room for all, every match; from the
   * start, the newest match first.
   */
  lemma DescWindow<T>(s: seq<T>, p: T -> bool, key: T -> int, o: seq<T>, skip: nat, limit: nat)
    requires SortedDesc(o, key) && multiset(o) == multiset(Where(s, p))
    ensures var r := Page(o, skip, limit);
      && |r| == WindowSize(|Where(s, p)|, skip, limit)
      && (forall k :: 0 <= k < |r| ==> r[k] in s && p(r[k]))
      && SortedDesc(r, key)
      && (skip == 0 && |Where(s, p)| <= limit ==> multiset(r) == multiset(Where(s, p)))
      && (skip == 0 && r != [] ==> forall k :: 0 <= k < |s| && p(s[k]) ==> key(s[k]) <= key(r[0]))
      && multiset(r) <= multiset(Where(s, p))
  {
    assert |o| == |Where(s, p)| by { assert |multiset(o)| == |multiset(Where(s, p))|; }
    PageSubMultiset(o, skip, limit);
    WindowMembers(s, p, o, skip, limit);
    PageSortedDesc(o, key, skip, limit);
    if skip == 0 && |o| <= limit {
      assert Page(o, skip, limit) == o;
    }
    if skip == 0 && Page(o, skip, limit) != [] {
      forall k | 0 <= k < |s| && p(s[k])
        ensures key(s[k]) <= key(Page(o, skip, limit)[0])
      {
        PassesWhere(s, p, k);
        DescendingHead(Where(s, p), o, key, s[k]);
      }
    }
  }

  /** Any window from the start of any oldest-first reordering of the matches, as `DescWindow` states it for newest first. */
  lemma AscWindow<T>(s: seq<T>, p: T -> bool, key: T -> int, o: seq<T>, limit: nat)
    requires SortedAsc(o, key) && multiset(o) == multiset(Where(s, p))
    ensures var r := Page(o, 0, limit);
      && |r| == WindowSize(|Where(s, p)|, 0, limit)
      && (forall k :: 0 <= k < |r| ==> r[k] in s && p(r[k]))
      && SortedAsc(r, key)
      && (|Where(s, p)| <= limit ==> multiset(r) == multiset(Where(s, p)))
      && (r != [] ==> forall k :: 0 <= k < |s| && p(s[k]) ==> key(r[0]) <= key(s[k]))
      && multiset(r) <= multiset(Where(s, p))
  {
    assert |o| == |Where(s, p)| by { assert |multiset(o)| == |multiset(Where(s, p))|; }
    PageSubMultiset(o, 0, limit);
    WindowMembers(s, p, o, 0, limit);
    PageAscending(o, key, limit);
    if |o| <= limit {
      assert Page(o, 0, limit) == o;
    }
    if Page(o, 0, limit) != [] {
      forall k | 0 <= k < |s| && p(s[k])
        ensures key(Page(o, 0, limit)[0]) <= key(s[k])
      {
        PassesWhere(s, p, k);
        AscendingHead(Where(s, p), o, key, s[k]);
      }
    }
  }

  /**
   * `filter(p).order_by(key.desc()).offset(skip).limit(limit)`: the window
   * from `skip` of the matches put newest first (in some order among equal
   * keys); so matching rows only, no row more often than it matches, as many
   * as the window holds, and from the start the newest match first.
   */
  function NewestFirst<T(!new)>(s: seq<T>, p: T -> bool, key: T -> int, skip: nat, limit: nat): (r: seq<T>)
    ensures |r| == WindowSize(|Where(s, p)|, skip, limit)
    ensures forall k :: 0 <= k < |r| ==> r[k] in s && p(r[k])
    ensures SortedDesc(r, key)
    ensures skip == 0 && |Where(s, p)| <= limit ==> multiset(r) == multiset(Where(s, p))
    ensures skip == 0 && r != [] ==> forall k :: 0 <= k < |s| && p(s[k]) ==> key(s[k]) <= key(r[0])
    ensures multiset(r) <= multiset(Where(s, p))
    ensures exists o :: SortedDesc(o, key) && multiset(o) == multiset(Where(s, p)) && r == Page(o, skip, limit)
  {
    var o := OrderByDesc(Where(s, p), key);
    DescWindow(s, p, key, o, skip, limit);
    Page(o, skip, limit)
  }

  /**
   * `filter(p).order_by(key).limit(limit)`: the first `limit` of the matches
   * put oldest first (in some order among equal keys); so matching rows only,
   * no row more often than it matches, and the oldest match first.
   */
  function OldestFirst<T(!new)>(s: seq<T>, p: T -> bool, key: T -> int, limit: nat): (r: seq<T>)
    ensures |r| == WindowSize(|Where(s, p)|, 0, limit)
    ensures forall k :: 0 <= k < |r| ==> r[k] in s && p(r[k])
    ensures SortedAsc(r, key)
    ensures |Where(s, p)| <= limit ==> multiset(r) == multiset(Where(s, p))
    ensures r != [] ==> forall k :: 0 <= k < |s| && p(s[k]) ==> key(r[0]) <= key(s[k])
    ensures multiset(r) <= multiset(Where(s, p))
    ensures exists o :: SortedAsc(o, key) && multiset(o) == multiset(Where(s, p)) && r == Page(o, 0, limit)
  {
    var o := OrderBy(Where(s, p), key);
    AscWindow(s, p, key, o, limit);
    Page(o, 0, limit)
  }

  /** `first()`: the first row, or `None` for an empty result. */
  function First<T>(s: seq<T>): (r: Option<T>)
    ensures r.None? <==> s == []
    ensures r.Some? ==> r.value == s[0]
  {
    if s == [] then None else Some(s[0])
  }

  /** The first row of `order_by(key.desc())` carries the largest key of the table. */
  lemma FirstOfOrderByDesc<T>(s: seq<T>, key: T -> int)
    requires s != []
    ensures First(OrderByDesc(s, key)).Some?
    ensures First(OrderByDesc(s, key)).value in s
    ensures forall y :: y in s ==> key(y) <= key(First(OrderByDesc(s, key)).value)
  {
    var r := OrderByDesc(s, key);
    assert r[0] in multiset(s) by { assert r[0] in multiset(r); }
    forall y | y in s
      ensures key(y) <= key(r[0])
    {
      assert y in multiset(r) by { assert y in multiset(s); }
      var k :| 0 <= k < |r| && r[k] == y;
      if k > 0 {
        assert key(r[0]) >= key(r[k]);
      }
    }
  }

  /** When one row's key beats every other row's, `order_by(key.desc()).first()` is that row. */
  lemma FirstOfOrderByDescUnique<T>(s: seq<T>, key: T -> int, x: T)
    requires x in s
    requires forall y :: y in s && y != x ==> key(y) < key(x)
    ensures First(OrderByDesc(s, key)) == Some(x)
  {
    FirstOfOrderByDesc(s, key);
  }
}
