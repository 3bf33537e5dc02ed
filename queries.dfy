/** The LINQ vocabulary the services use over their tables: the ids of a table in key order,
    `Where`, `OrderBy`/`OrderByDescending` (a stable sort under a caller-given order),
    `Skip`/`Take` paging, and `Max`/`Min` of a set of integers. */
module Queries {

  // ----- minimum and maximum of a finite set of integers -----

  /** Some member of a non-empty set. */
  ghost function Pick<T>(s: set<T>): (x: T)
    requires s != {}
    ensures x in s
  {
    var x :| x in s; x
  }

  lemma {:induction false} ExtremesExist(s: set<int>)
    requires s != {}
    ensures exists m :: m in s && forall y :: y in s ==> m <= y
    ensures exists m :: m in s && forall y :: y in s ==> y <= m
    decreases |s|
  {
    var x := Pick(s);
    if s == {x} {
      assert forall y :: y in s ==> y == x;
    } else {
      var rest := s - {x};
      assert |rest| < |s|;
      ExtremesExist(rest);
      var lo :| lo in rest && forall y :: y in rest ==> lo <= y;
      var hi :| hi in rest && forall y :: y in rest ==> y <= hi;
      assert forall y :: y in s ==> y == x || y in rest;
      var lo' := if x < lo then x else lo;
      var hi' := if x > hi then x else hi;
      assert lo' in s && forall y :: y in s ==> lo' <= y;
      assert hi' in s && forall y :: y in s ==> y <= hi';
    }
  }

  function MinOf(s: set<int>): (m: int)
    requires s != {}
    ensures m in s && forall y :: y in s ==> m <= y
  {
    ExtremesExist(s);
    var m :| m in s && forall y :: y in s ==> m <= y; m
  }

  function MaxOf(s: set<int>): (m: int)
    requires s != {}
    ensures m in s && forall y :: y in s ==> y <= m
  {
    ExtremesExist(s);
    var m :| m in s && forall y :: y in s ==> y <= m; m
  }

  // ----- the rows of a table -----

  /** The ids of a table in ascending order (the clustered primary key's order). */
  function SortedIds(ids: set<int>): (r: seq<int>)
    ensures |r| == |ids|
    ensures forall k :: k in r <==> k in ids
    ensures forall i, j :: 0 <= i < j < |r| ==> r[i] < r[j]
    decreases |ids|
  {
    if ids == {} then []
    else
      var k := MinOf(ids);
      var tail := SortedIds(ids - {k});
      MinCons(k, ids, tail);
      [k] + tail
  }

  lemma MinCons(k: int, ids: set<int>, tail: seq<int>)
    requires k in ids && forall y :: y in ids ==> k <= y
    requires |tail| == |ids - {k}|
    requires forall x :: x in tail <==> x in ids - {k}
    requires forall i, j :: 0 <= i < j < |tail| ==> tail[i] < tail[j]
    ensures |[k] + tail| == |ids|
    ensures forall x :: x in [k] + tail <==> x in ids
    ensures forall i, j :: 0 <= i < j < |[k] + tail| ==> ([k] + tail)[i] < ([k] + tail)[j]
  {
    var r := [k] + tail;
    forall i, j | 0 <= i < j < |r| ensures r[i] < r[j] {
      assert r[j] == tail[j - 1] && tail[j - 1] in tail;
      if i > 0 {
        assert r[i] == tail[i - 1];
      }
    }
  }

  /** The rows of a table keyed by id, as (id, record) pairs in ascending id order. */
  function Rows<T>(m: map<int, T>): (r: seq<(int, T)>)
    ensures |r| == |m|
    ensures forall i :: 0 <= i < |r| ==> r[i].0 in m && r[i].1 == m[r[i].0]
    ensures forall k :: k in m ==> (k, m[k]) in r
    ensures forall i, j :: 0 <= i < j < |r| ==> r[i].0 < r[j].0
  {
    RowsOf(m, SortedIds(m.Keys))
  }

  /** The rows of the listed ids, in the order listed. */
  function RowsOf<T>(m: map<int, T>, ids: seq<int>): (r: seq<(int, T)>)
    requires forall k :: k in ids <==> k in m
    requires forall i, j :: 0 <= i < j < |ids| ==> ids[i] < ids[j]
    ensures |r| == |ids|
    ensures forall i :: 0 <= i < |r| ==> r[i].0 in m && r[i].1 == m[r[i].0]
    ensures forall k :: k in m ==> (k, m[k]) in r
    ensures forall i, j :: 0 <= i < j < |r| ==> r[i].0 < r[j].0
  {
    assert forall i :: 0 <= i < |ids| ==> ids[i] in m by {
      forall i | 0 <= i < |ids| ensures ids[i] in m {
        assert ids[i] in ids;
      }
    }
    var r := seq(|ids|, i requires 0 <= i < |ids| => (ids[i], m[ids[i]]));
    RowsFacts(m, ids, r);
    r
  }

  lemma RowsFacts<T>(m: map<int, T>, ids: seq<int>, r: seq<(int, T)>)
    requires forall k :: k in ids <==> k in m
    requires forall i, j :: 0 <= i < j < |ids| ==> ids[i] < ids[j]
    requires |r| == |ids| && forall i :: 0 <= i < |ids| ==> ids[i] in m && r[i] == (ids[i], m[ids[i]])
    ensures forall i :: 0 <= i < |r| ==> r[i].0 in m && r[i].1 == m[r[i].0]
    ensures forall k :: k in m ==> (k, m[k]) in r
    ensures forall i, j :: 0 <= i < j < |r| ==> r[i].0 < r[j].0
  {
    forall k | k in m ensures (k, m[k]) in r {
      var i :| 0 <= i < |ids| && ids[i] == k;
      assert r[i] == (k, m[k]);
    }
  }

  /** No element occurs twice. */
  ghost predicate Distinct<T>(s: seq<T>) {
    forall i, j :: 0 <= i < j < |s| ==> s[i] != s[j]
  }

  lemma RowsDistinct<T>(m: map<int, T>)
    ensures Distinct(Rows(m))
  {
  }

  // ----- Where -----

  function Filter<T>(p: T -> bool, s: seq<T>): (r: seq<T>)
    ensures forall x :: x in r ==> p(x) && x in s
    ensures forall x :: x in s && p(x) ==> x in r
    ensures multiset(r) <= multiset(s)
  {
    if s == [] then []
    else
      var rest := Filter(p, s[1..]);
      FilterCons(p, s[0], s[1..], rest);
      assert [s[0]] + s[1..] == s;
      if p(s[0]) then [s[0]] + rest else rest
  }

  /** One step of `Filter`: what holds of the filtered tail carries over to the whole list. */
  lemma FilterCons<T>(p: T -> bool, x: T, t: seq<T>, rest: seq<T>)
    requires forall y :: y in rest ==> p(y) && y in t
    requires forall y :: y in t && p(y) ==> y in rest
    requires multiset(rest) <= multiset(t)
    ensures var r := if p(x) then [x] + rest else rest;
            && (forall y :: y in r ==> p(y) && y in [x] + t)
            && (forall y :: y in [x] + t && p(y) ==> y in r)
            && multiset(r) <= multiset([x] + t)
  {
  }

  lemma FilterMembers<T>(p: T -> bool, s: seq<T>)
    ensures forall x :: x in Filter(p, s) <==> x in s && p(x)
  {
    var r := Filter(p, s);
    forall x
      ensures x in r <==> x in s && p(x)
    {
      if x in r {
        var i :| 0 <= i < |r| && r[i] == x;
      }
      if x in s && p(x) {
        var i :| 0 <= i < |s| && s[i] == x;
      }
    }
  }

  lemma {:induction false} FilterDistinct<T>(p: T -> bool, s: seq<T>)
    requires Distinct(s)
    ensures Distinct(Filter(p, s))
  {
    if s != [] {
      FilterDistinct(p, s[1..]);
      var tl := s[1..];
      assert forall k :: 0 <= k < |tl| ==> tl[k] != s[0];
      assert multiset(tl)[s[0]] == 0;
      assert multiset(Filter(p, tl))[s[0]] == 0;
    }
  }

  /** A repetition-free list has as many elements as its set of elements. */
  lemma {:induction false} DistinctCard<T>(s: seq<T>)
    requires Distinct(s)
    ensures |set x | x in s| == |s|
  {
    if s != [] {
      var tl := s[1..];
      assert Distinct(tl) by {
        forall i, j | 0 <= i < j < |tl| ensures tl[i] != tl[j] {
          assert tl[i] == s[i + 1] && tl[j] == s[j + 1];
        }
      }
      DistinctCard(tl);
      assert s[0] !in tl by {
        forall k | 0 <= k < |tl| ensures tl[k] != s[0] {
          assert tl[k] == s[k + 1];
        }
      }
      assert (set x | x in s) == (set x | x in tl) + {s[0]} by {
        assert s == [s[0]] + tl;
      }
    }
  }

  // ----- OrderBy -----

  /** `le` is a total preorder: every two values compare, and the order is transitive. */
  ghost predicate TotalPreorder<T(!new)>(le: (T, T) -> bool) {
    && (forall a, b :: le(a, b) || le(b, a))
    && (forall a, b, c :: le(a, b) && le(b, c) ==> le(a, c))
  }

  ghost predicate SortedBy<T>(s: seq<T>, le: (T, T) -> bool) {
    forall i, j :: 0 <= i < j < |s| ==> le(s[i], s[j])
  }

  /** Inserts `x` after every leading element not greater than it, so that a later element
      lands after the earlier elements it ties with. */
  function Insert<T>(x: T, s: seq<T>, le: (T, T) -> bool): (r: seq<T>)
    ensures multiset(r) == multiset(s) + multiset{x}
    ensures |r| == |s| + 1
    ensures Distinct(s) && x !in s ==> Distinct(r)
  {
    if s == [] then [x]
    else if le(s[0], x) then
      assert s == [s[0]] + s[1..];
      var rest := Insert(x, s[1..], le);
      InsertKeepsDistinct(x, s, rest);
      [s[0]] + rest
    else [x] + s
  }

  lemma InsertKeepsDistinct<T>(x: T, s: seq<T>, rest: seq<T>)
    requires s != [] && multiset(rest) == multiset(s[1..]) + multiset{x}
    requires Distinct(s[1..]) && x !in s[1..] ==> Distinct(rest)
    ensures Distinct(s) && x !in s ==> Distinct([s[0]] + rest)
  {
    if Distinct(s) && x !in s {
      assert forall k :: 0 <= k < |s| - 1 ==> s[1..][k] != s[0];
      assert multiset(s[1..])[s[0]] == 0;
      assert multiset(rest)[s[0]] == 0;
      assert s[0] !in rest;
      var r := [s[0]] + rest;
      forall i, j | 0 <= i < j < |r| ensures r[i] != r[j] {
        assert r[j] == rest[j - 1] && rest[j - 1] in rest;
        if i > 0 {
          assert r[i] == rest[i - 1];
        }
      }
    }
  }

  /** A stable insertion sort: `OrderBy` with the order `le`. */
  function SortBy<T>(s: seq<T>, le: (T, T) -> bool): (r: seq<T>)
    ensures multiset(r) == multiset(s)
    ensures |r| == |s|
    ensures Distinct(s) ==> Distinct(r)
  {
    if s == [] then []
    else
      assert s == s[..|s| - 1] + [s[|s| - 1]];
      var x := s[|s| - 1];
      var rest := SortBy(s[..|s| - 1], le);
      assert Distinct(s) ==> x !in rest by {
        if Distinct(s) {
          var pre := s[..|s| - 1];
          assert forall k :: 0 <= k < |pre| ==> pre[k] != x;
          assert multiset(pre)[x] == 0;
        }
      }
      Insert(x, rest, le)
  }

  lemma SortByMembers<T>(s: seq<T>, le: (T, T) -> bool)
    ensures forall x :: x in SortBy(s, le) <==> x in s
  {
    var r := SortBy(s, le);
    forall x
      ensures x in r <==> x in s
    {
      assert x in r <==> x in multiset(r);
      assert x in s <==> x in multiset(s);
    }
  }

  lemma {:induction false} InsertSorted<T(!new)>(x: T, s: seq<T>, le: (T, T) -> bool)
    requires TotalPreorder(le)
    requires SortedBy(s, le)
    ensures SortedBy(Insert(x, s, le), le)
  {
    if s != [] && le(s[0], x) {
      InsertSorted(x, s[1..], le);
      var r := Insert(x, s[1..], le);
      forall y | y in r ensures le(s[0], y) {
        assert y in multiset(r);
        assert y in multiset(s[1..]) || y == x;
      }
      assert forall j :: 0 <= j < |r| ==> r[j] in r;
      assert Insert(x, s, le) == [s[0]] + r;
      SortedCons(s[0], r, le);
    }
  }

  lemma {:induction false} SortBySorted<T(!new)>(s: seq<T>, le: (T, T) -> bool)
    requires TotalPreorder(le)
    ensures SortedBy(SortBy(s, le), le)
  {
    if s != [] {
      SortBySorted(s[..|s| - 1], le);
      InsertSorted(s[|s| - 1], SortBy(s[..|s| - 1], le), le);
    }
  }

  /** Inserting a value that every element precedes appends it. */
  lemma {:induction false} InsertAfterAll<T>(x: T, s: seq<T>, le: (T, T) -> bool)
    requires forall i :: 0 <= i < |s| ==> le(s[i], x)
    ensures Insert(x, s, le) == s + [x]
  {
    if s != [] {
      InsertAfterAll(x, s[1..], le);
      assert [s[0]] + (s[1..] + [x]) == s + [x];
    }
  }

  /** The stable sort leaves an already sorted list as it is. */
  lemma {:induction false} SortBySortedIdentity<T>(s: seq<T>, le: (T, T) -> bool)
    requires SortedBy(s, le)
    ensures SortBy(s, le) == s
  {
    if s != [] {
      var pre := s[..|s| - 1];
      assert SortedBy(pre, le);
      SortBySortedIdentity(pre, le);
      InsertAfterAll(s[|s| - 1], pre, le);
      assert pre + [s[|s| - 1]] == s;
    }
  }

  /** How often `x` occurs in a filtered list. */
  lemma {:induction false} FilterCount<T>(p: T -> bool, s: seq<T>, x: T)
    ensures multiset(Filter(p, s))[x] == if p(x) then multiset(s)[x] else 0
  {
    if s != [] {
      FilterCount(p, s[1..], x);
      assert s == [s[0]] + s[1..];
    }
  }

  /** Filtering two permutations of each other yields permutations of each other. */
  lemma FilterPermutation<T>(p: T -> bool, s: seq<T>, t: seq<T>)
    requires multiset(s) == multiset(t)
    ensures multiset(Filter(p, s)) == multiset(Filter(p, t))
  {
    forall x
      ensures multiset(Filter(p, s))[x] == multiset(Filter(p, t))[x]
    {
      FilterCount(p, s, x);
      FilterCount(p, t, x);
    }
  }

  /** A filtered sorted list is sorted. */
  lemma {:induction false} FilterSorted<T>(p: T -> bool, s: seq<T>, le: (T, T) -> bool)
    requires SortedBy(s, le)
    ensures SortedBy(Filter(p, s), le)
  {
    if s != [] {
      var t := s[1..];
      assert SortedBy(t, le) by {
        forall i, j | 0 <= i < j < |t| ensures le(t[i], t[j]) {
          assert t[i] == s[i + 1] && t[j] == s[j + 1];
        }
      }
      FilterSorted(p, t, le);
      var r := Filter(p, t);
      if p(s[0]) {
        forall j | 0 <= j < |r|
          ensures le(s[0], r[j])
        {
          assert r[j] in r;
          var k :| 0 <= k < |t| && t[k] == r[j];
          assert s[k + 1] == r[j];
        }
        SortedCons(s[0], r, le);
      }
    }
  }

  lemma SortedCons<T>(x: T, r: seq<T>, le: (T, T) -> bool)
    requires SortedBy(r, le)
    requires forall j :: 0 <= j < |r| ==> le(x, r[j])
    ensures SortedBy([x] + r, le)
  {
    var s := [x] + r;
    forall i, j | 0 <= i < j < |s| ensures le(s[i], s[j]) {
      assert s[j] == r[j - 1];
      if i > 0 {
        assert s[i] == r[i - 1];
      }
    }
  }

  /** Filtering keeps a list whose every element passes. */
  lemma {:induction false} FilterAll<T>(p: T -> bool, s: seq<T>)
    requires forall i :: 0 <= i < |s| ==> p(s[i])
    ensures Filter(p, s) == s
  {
    if s != [] {
      FilterAll(p, s[1..]);
      assert [s[0]] + s[1..] == s;
    }
  }

  // ----- Where(...).OrderBy(...) over a table -----

  /** The rows of a table that `p` selects, ordered by `le`. */
  function Query<T>(m: map<int, T>, p: ((int, T)) -> bool, le: ((int, T), (int, T)) -> bool): seq<(int, T)> {
    SortBy(Filter(p, Rows(m)), le)
  }

  /** Every listed row is a selected row of the table. */
  lemma QuerySound<T>(m: map<int, T>, p: ((int, T)) -> bool, le: ((int, T), (int, T)) -> bool)
    ensures var r := Query(m, p, le);
            forall i :: 0 <= i < |r| ==> r[i].0 in m && m[r[i].0] == r[i].1 && p(r[i])
  {
    var f := Filter(p, Rows(m));
    var r := SortBy(f, le);
    forall i | 0 <= i < |r| ensures r[i].0 in m && m[r[i].0] == r[i].1 && p(r[i]) {
      assert r[i] in multiset(r);
      assert r[i] in multiset(f);
      SelectedRow(m, p, f, r[i]);
    }
  }

  lemma SelectedRow<T>(m: map<int, T>, p: ((int, T)) -> bool, f: seq<(int, T)>, row: (int, T))
    requires f == Filter(p, Rows(m)) && row in f
    ensures row.0 in m && m[row.0] == row.1 && p(row)
  {
    var k :| 0 <= k < |f| && f[k] == row;
    assert row in Rows(m);
    var id: int := row.0;
    assert id in m && m[id] == row.1;
  }

  /** Every selected row of the table is listed. */
  lemma QueryComplete<T>(m: map<int, T>, p: ((int, T)) -> bool, le: ((int, T), (int, T)) -> bool)
    ensures forall k :: k in m && p((k, m[k])) ==> (k, m[k]) in Query(m, p, le)
  {
    var f := Filter(p, Rows(m));
    forall k | k in m && p((k, m[k])) ensures (k, m[k]) in Query(m, p, le) {
      assert (k, m[k]) in Rows(m);
      assert (k, m[k]) in multiset(f);
    }
  }

  /** No row is listed twice. */
  lemma QueryDistinct<T>(m: map<int, T>, p: ((int, T)) -> bool, le: ((int, T), (int, T)) -> bool)
    ensures Distinct(Query(m, p, le))
  {
    RowsDistinct(m);
    FilterDistinct(p, Rows(m));
  }

  lemma QuerySorted<T(!new)>(m: map<int, T>, p: ((int, T)) -> bool, le: ((int, T), (int, T)) -> bool)
    requires TotalPreorder(le)
    ensures SortedBy(Query(m, p, le), le)
  {
    SortBySorted(Filter(p, Rows(m)), le);
  }

  /** A query lists one row per selected id, and so does the unsorted selection it counts. */
  lemma QueryCount<T>(m: map<int, T>, p: ((int, T)) -> bool, le: ((int, T), (int, T)) -> bool, ids: set<int>)
    requires forall k :: k in ids <==> k in m && p((k, m[k]))
    ensures |Query(m, p, le)| == |Filter(p, Rows(m))| == |ids|
  {
    var r := Query(m, p, le);
    assert |r| == |Filter(p, Rows(m))|;
    QuerySound(m, p, le);
    QueryComplete(m, p, le);
    QueryDistinct(m, p, le);
    RowIdsCard(m, r, ids);
  }

  /** A repetition-free list of the rows of a set of ids has one entry per id. */
  lemma RowIdsCard<T>(m: map<int, T>, s: seq<(int, T)>, ids: set<int>)
    requires Distinct(s)
    requires forall i :: 0 <= i < |s| ==> s[i].0 in ids && s[i].0 in m && s[i].1 == m[s[i].0]
    requires forall id :: id in ids ==> id in m && (id, m[id]) in s
    ensures |s| == |ids|
  {
    DistinctCard(s);
    var rowSet := set x | x in s;
    assert ids == set x | x in rowSet :: x.0 by {
      forall id | id in ids ensures id in set x | x in rowSet :: x.0 {
        var row := (id, m[id]);
        assert row in rowSet;
      }
    }
    forall x | x in rowSet ensures x.0 in m && x.1 == m[x.0] {
      var i :| 0 <= i < |s| && s[i] == x;
    }
    ImageCard(rowSet, m);
  }

  /** Rows that agree with a map are determined by their id, so their ids are as many as they. */
  lemma {:induction false} ImageCard<T>(rows: set<(int, T)>, m: map<int, T>)
    requires forall x :: x in rows ==> x.0 in m && x.1 == m[x.0]
    ensures |set x | x in rows :: x.0| == |rows|
    decreases |rows|
  {
    if rows != {} {
      var x := Pick(rows);
      var rest := rows - {x};
      ImageCard(rest, m);
      var ids := set y | y in rows :: y.0;
      var restIds := set y | y in rest :: y.0;
      forall y | y in rest ensures y.0 != x.0 {
        assert y.0 == x.0 ==> y == x;
      }
      assert ids == restIds + {x.0};
    }
  }

  // ----- Select -----

  /** `Select(f)`: `f` applied to every element, in order. */
  function Select<A, B>(f: A -> B, s: seq<A>): (r: seq<B>)
    ensures |r| == |s|
    ensures forall i :: 0 <= i < |s| ==> r[i] == f(s[i])
  {
    seq(|s|, i requires 0 <= i < |s| => f(s[i]))
  }

  // ----- Skip / Take -----

  /** `Skip(n)`: a non-positive count skips nothing. */
  function Skip<T>(s: seq<T>, n: int): (r: seq<T>)
    ensures n <= 0 ==> r == s
    ensures 0 <= n <= |s| ==> r == s[n..]
    ensures n >= |s| ==> r == []
  {
    if n <= 0 then s else if n >= |s| then [] else s[n..]
  }

  /** `Take(n)`: a non-positive count takes nothing. */
  function Take<T>(s: seq<T>, n: int): (r: seq<T>)
    ensures n <= 0 ==> r == []
    ensures 0 <= n <= |s| ==> r == s[..n]
    ensures n >= |s| ==> r == s
  {
    if n <= 0 then [] else if n >= |s| then s else s[..n]
  }

  /** `.Skip((page - 1) * pageSize).Take(pageSize)`. */
  function Window<T>(s: seq<T>, page: int, pageSize: int): (r: seq<T>)
    ensures pageSize >= 0 ==> |r| <= pageSize
  {
    Take(Skip(s, (page - 1) * pageSize), pageSize)
  }

  /** A window of a list is a contiguous run of it, no longer than the page size, starting
      at the page's offset. */
  lemma WindowIsSlice<T>(s: seq<T>, page: int, pageSize: int)
    requires page >= 1 && pageSize >= 0
    ensures var off := (page - 1) * pageSize;
            var r := Window(s, page, pageSize);
            |r| <= pageSize &&
            (off >= |s| ==> r == []) &&
            (off < |s| ==> r == s[off..if off + pageSize <= |s| then off + pageSize else |s|])
  {
    var off := (page - 1) * pageSize;
    assert off >= 0 by {
      assert page - 1 >= 0;
    }
  }
}
