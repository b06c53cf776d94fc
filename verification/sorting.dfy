/** ORDER BY as an insertion sort, with what it keeps. */
module Sorting {
  import opened Base
  import opened Grouping

  function Insert<T>(x: T, sorted: seq<T>, le: (T, T) -> bool): seq<T> {
    if sorted == [] then [x]
    else
      var last := sorted[|sorted| - 1];
      if le(last, x) then sorted + [x] else Insert(x, sorted[..|sorted| - 1], le) + [last]
  }

  function Sort<T>(rows: seq<T>, le: (T, T) -> bool): seq<T> {
    if rows == [] then [] else Insert(rows[|rows| - 1], Sort(rows[..|rows| - 1], le), le)
  }

  /** LIMIT n. */
  function Take<T>(s: seq<T>, n: nat): seq<T> {
    if |s| <= n then s else s[..n]
  }

  ghost predicate Ordered<T>(rows: seq<T>, le: (T, T) -> bool) {
    forall i, j :: 0 <= i < j < |rows| ==> le(rows[i], rows[j])
  }

  ghost predicate TotalPreorder<T(!new)>(le: (T, T) -> bool) {
    (forall a: T, b: T :: le(a, b) || le(b, a)) && (forall a: T, b: T, c: T :: le(a, b) && le(b, c) ==> le(a, c))
  }

  lemma {:induction false} InsertOrdered<T(!new)>(x: T, sorted: seq<T>, le: (T, T) -> bool)
    requires TotalPreorder(le) && Ordered(sorted, le)
    ensures Ordered(Insert(x, sorted, le), le)
    ensures multiset(Insert(x, sorted, le)) == multiset(sorted) + multiset{x}
  {
    if sorted != [] {
      var front, last := sorted[..|sorted| - 1], sorted[|sorted| - 1];
      assert sorted == front + [last];
      var r := Insert(x, sorted, le);
      if !le(last, x) {
        InsertOrdered(x, front, le);
        var inserted := Insert(x, front, le);
        forall i | 0 <= i < |inserted| ensures le(inserted[i], last) {
          assert inserted[i] in multiset(inserted);
          if inserted[i] != x {
            assert inserted[i] in multiset(front);
            var j :| 0 <= j < |front| && front[j] == inserted[i];
            assert sorted[j] == front[j];
          }
        }
      } else {
        forall i | 0 <= i < |sorted| ensures le(sorted[i], x) {
          if i < |sorted| - 1 { assert le(sorted[i], last); }
        }
      }
    }
  }

  /** Sorting orders the rows and keeps every one of them. */
  lemma {:induction false} SortOrders<T(!new)>(rows: seq<T>, le: (T, T) -> bool)
    requires TotalPreorder(le)
    ensures Ordered(Sort(rows, le), le) && multiset(Sort(rows, le)) == multiset(rows)
  {
    if rows != [] {
      var front := rows[..|rows| - 1];
      assert rows == front + [rows[|rows| - 1]];
      SortOrders(front, le);
      InsertOrdered(rows[|rows| - 1], Sort(front, le), le);
    }
  }

  lemma {:induction false} PassInsert<T, A(!new)>(x: T, sorted: seq<T>, le: (T, T) -> bool, share: T -> A,
                                                  op: (A, A) -> A, unit: A)
    requires CommutativeMonoid(op, unit)
    ensures Pass(Insert(x, sorted, le), share, op, unit) == op(Pass(sorted, share, op, unit), share(x))
  {
    var r := Insert(x, sorted, le);
    if sorted == [] {
      assert r[..0] == [];
    } else {
      var front, last := sorted[..|sorted| - 1], sorted[|sorted| - 1];
      if le(last, x) {
        assert r[..|r| - 1] == sorted;
      } else {
        assert r[..|r| - 1] == Insert(x, front, le);
        PassInsert(x, front, le, share, op, unit);
        var p := Pass(front, share, op, unit);
        assert op(op(p, share(x)), share(last)) == op(p, op(share(x), share(last)))
            == op(p, op(share(last), share(x))) == op(op(p, share(last)), share(x));
      }
    }
  }

  /** No aggregate sees the order. */
  lemma {:induction false} PassSort<T, A(!new)>(rows: seq<T>, le: (T, T) -> bool, share: T -> A, op: (A, A) -> A,
                                                unit: A)
    requires CommutativeMonoid(op, unit)
    ensures Pass(Sort(rows, le), share, op, unit) == Pass(rows, share, op, unit)
  {
    if rows != [] {
      PassSort(rows[..|rows| - 1], le, share, op, unit);
      PassInsert(rows[|rows| - 1], Sort(rows[..|rows| - 1], le), le, share, op, unit);
    }
  }

  // ---- filters ----

  function Filter<T>(rows: seq<T>, p: T -> bool): seq<T> {
    if rows == [] then []
    else
      var front := Filter(rows[..|rows| - 1], p);
      if p(rows[|rows| - 1]) then front + [rows[|rows| - 1]] else front
  }

  lemma {:induction false} FilterShorter<T>(rows: seq<T>, p: T -> bool)
    ensures |Filter(rows, p)| <= |rows|
  {
    if rows != [] { FilterShorter(rows[..|rows| - 1], p); }
  }

  lemma {:induction false} FilterMember<T>(rows: seq<T>, p: T -> bool, x: T)
    ensures x in Filter(rows, p) <==> x in rows && p(x)
  {
    if rows != [] {
      assert rows == rows[..|rows| - 1] + [rows[|rows| - 1]];
      FilterMember(rows[..|rows| - 1], p, x);
    }
  }

  lemma {:induction false} FilterInsert<T(!new)>(x: T, sorted: seq<T>, le: (T, T) -> bool, p: T -> bool)
    requires TotalPreorder(le) && Ordered(sorted, le)
    ensures Filter(Insert(x, sorted, le), p) == if p(x) then Insert(x, Filter(sorted, p), le) else Filter(sorted, p)
  {
    var r := Insert(x, sorted, le);
    if sorted == [] {
      assert r[..0] == [];
    } else {
      var front, last := sorted[..|sorted| - 1], sorted[|sorted| - 1];
      if le(last, x) {
        assert r[..|r| - 1] == sorted;
        var kept := Filter(sorted, p);
        if kept != [] {
          FilterMember(sorted, p, kept[|kept| - 1]);
          var i :| 0 <= i < |sorted| && sorted[i] == kept[|kept| - 1];
          if i < |sorted| - 1 { assert le(sorted[i], last); }
          assert le(kept[|kept| - 1], x);
        }
      } else {
        FilterInsert(x, front, le, p);
        assert r[..|r| - 1] == Insert(x, front, le);
        if p(last) {
          var kept := Filter(sorted, p);
          assert kept[..|kept| - 1] == Filter(front, p);
        }
      }
    }
  }

  /** WHERE and ORDER BY commute. */
  lemma {:induction false} FilterSort<T(!new)>(rows: seq<T>, le: (T, T) -> bool, p: T -> bool)
    requires TotalPreorder(le)
    ensures Filter(Sort(rows, le), p) == Sort(Filter(rows, p), le)
  {
    if rows != [] {
      var front := rows[..|rows| - 1];
      FilterSort(front, le, p);
      SortOrders(front, le);
      FilterInsert(rows[|rows| - 1], Sort(front, le), le, p);
      if p(rows[|rows| - 1]) {
        var kept := Filter(rows, p);
        assert kept[..|kept| - 1] == Filter(front, p);
      }
    }
  }

  lemma {:induction false} FilterSuffix<T>(rows: seq<T>, p: T -> bool, k: nat)
    requires k <= |rows|
    requires forall i :: 0 <= i < |rows| ==> p(rows[i]) == (i >= k)
    ensures Filter(rows, p) == rows[k..]
  {
    if rows != [] {
      var front := rows[..|rows| - 1];
      if k < |rows| {
        FilterSuffix(front, p, k);
        assert rows[k..] == front[k..] + [rows[|rows| - 1]];
      } else {
        FilterSuffix(front, p, k - 1);
      }
    }
  }

  lemma {:induction false} FilterAll<T>(rows: seq<T>, p: T -> bool)
    requires forall x :: x in rows ==> p(x)
    ensures Filter(rows, p) == rows
  {
    if rows != [] {
      assert rows == rows[..|rows| - 1] + [rows[|rows| - 1]];
      FilterAll(rows[..|rows| - 1], p);
    }
  }

  lemma {:induction false} FilterNone<T>(rows: seq<T>, p: T -> bool)
    requires forall x :: x in rows ==> !p(x)
    ensures Filter(rows, p) == []
  {
    if rows != [] {
      assert rows == rows[..|rows| - 1] + [rows[|rows| - 1]];
      FilterNone(rows[..|rows| - 1], p);
    }
  }

  lemma {:induction false} FilterConcat<T>(a: seq<T>, b: seq<T>, p: T -> bool)
    ensures Filter(a + b, p) == Filter(a, p) + Filter(b, p)
  {
    if b == [] {
      assert a + b == a;
    } else {
      assert (a + b)[..|a + b| - 1] == a + b[..|b| - 1];
      FilterConcat(a, b[..|b| - 1], p);
    }
  }

  /** ORDER BY and LIMIT: a row left out comes after every row kept, and then the limit is used up. */
  lemma TakeFirst<T(!new)>(rows: seq<T>, le: (T, T) -> bool, n: nat, x: T)
    requires TotalPreorder(le) && x in rows
    ensures var kept := Take(Sort(rows, le), n);
            x in kept || (|kept| == n && forall y :: y in kept ==> le(y, x))
  {
    SortOrders(rows, le);
    var sorted := Sort(rows, le);
    assert x in multiset(rows);
    var i :| 0 <= i < |sorted| && sorted[i] == x;
    if i < n { assert Take(sorted, n)[i] == x; }
  }

  lemma TakeIsFrom<T(!new)>(rows: seq<T>, le: (T, T) -> bool, n: nat, x: T)
    requires TotalPreorder(le) && x in Take(Sort(rows, le), n)
    ensures x in rows
  {
    SortOrders(rows, le);
    assert x in multiset(Sort(rows, le));
  }

  lemma {:induction false} FilterAgrees<T>(rows: seq<T>, p: T -> bool, q: T -> bool)
    requires forall x :: x in rows ==> p(x) == q(x)
    ensures Filter(rows, p) == Filter(rows, q)
  {
    if rows != [] {
      var last := rows[|rows| - 1];
      assert rows == rows[..|rows| - 1] + [last] && last in rows;
      assert p(last) == q(last);
      FilterAgrees(rows[..|rows| - 1], p, q);
    }
  }

  /** A stronger condition keeps fewer rows, and filtering by it first loses none of them. */
  lemma {:induction false} FilterLess<T>(rows: seq<T>, p: T -> bool, q: T -> bool)
    requires forall x :: x in rows && p(x) ==> q(x)
    ensures |Filter(rows, p)| <= |Filter(rows, q)|
  {
    if rows != [] {
      assert rows == rows[..|rows| - 1] + [rows[|rows| - 1]];
      FilterLess(rows[..|rows| - 1], p, q);
    }
  }

  lemma {:induction false} FilterTwice<T>(rows: seq<T>, p: T -> bool, q: T -> bool)
    ensures |Filter(Filter(rows, p), q)| <= |Filter(rows, q)|
  {
    if rows != [] {
      var front, kept := rows[..|rows| - 1], Filter(rows, p);
      FilterTwice(front, p, q);
      if p(rows[|rows| - 1]) { assert kept[..|kept| - 1] == Filter(front, p); }
    }
  }

  /** Each row is kept as often as it occurs, or not at all. */
  lemma {:induction false} FilterCount<T>(rows: seq<T>, p: T -> bool, x: T)
    ensures multiset(Filter(rows, p))[x] == if p(x) then multiset(rows)[x] else 0
  {
    if rows != [] {
      var front, last := rows[..|rows| - 1], rows[|rows| - 1];
      assert rows == front + [last];
      FilterCount(front, p, x);
    }
  }

  lemma FilterRange<T>(rows: seq<T>, p: T -> bool, lo: nat, hi: nat)
    requires lo <= hi <= |rows|
    requires forall i :: 0 <= i < |rows| ==> p(rows[i]) == (lo <= i < hi)
    ensures Filter(rows, p) == rows[lo..hi]
  {
    var before, after := rows[..hi], rows[hi..];
    assert rows == before + after;
    forall i | 0 <= i < |before| ensures p(before[i]) == (i >= lo) { assert before[i] == rows[i]; }
    forall i | 0 <= i < |after| ensures p(after[i]) == (i >= |after|) { assert after[i] == rows[hi + i]; }
    FilterConcat(before, after, p);
    FilterSuffix(before, p, lo);
    FilterSuffix(after, p, |after|);
    assert before[lo..] == rows[lo..hi] && after[|after|..] == [];
  }

  lemma {:induction false} SortSorted<T>(rows: seq<T>, le: (T, T) -> bool)
    requires Ordered(rows, le)
    ensures Sort(rows, le) == rows
  {
    if rows != [] {
      var front := rows[..|rows| - 1];
      assert rows == front + [rows[|rows| - 1]];
      SortSorted(front, le);
    }
  }

  lemma SortLength<T(!new)>(rows: seq<T>, le: (T, T) -> bool)
    requires TotalPreorder(le)
    ensures |Sort(rows, le)| == |rows|
  {
    SortOrders(rows, le);
    assert |multiset(Sort(rows, le))| == |multiset(rows)|;
  }
}
