/** GROUP BY over a list of (key, contribution) pairs, and the law that makes rollups readable:
    folding the groups a reader selects gives what folding the original rows would have given. */
module Grouping {
  import opened Base

  /** The rows a statement selects, as (key, contribution) pairs; None drops the row (WHERE). */
  function Collect<T, K, A>(rows: seq<T>, f: T -> Option<(K, A)>): (items: seq<(K, A)>)
  {
    if rows == [] then []
    else
      var front := Collect(rows[..|rows| - 1], f);
      match f(rows[|rows| - 1])
      case None => front
      case Some(item) => front + [item]
  }

  /** One more contribution: into its group, or as a new group. */
  function Add<K(==), A>(groups: seq<(K, A)>, key: K, value: A, op: (A, A) -> A): (r: seq<(K, A)>)
  {
    if groups == [] then [(key, value)]
    else
      var g := groups[|groups| - 1];
      if g.0 == key then groups[..|groups| - 1] + [(key, op(g.1, value))]
      else Add(groups[..|groups| - 1], key, value, op) + [g]
  }

  function GroupBy<K(==), A>(items: seq<(K, A)>, op: (A, A) -> A): (groups: seq<(K, A)>)
  {
    if items == [] then []
    else
      var last := items[|items| - 1];
      Add(GroupBy(items[..|items| - 1], op), last.0, last.1, op)
  }

  /** What a reader computes: the fold of the pairs whose key it selects. */
  function Total<K, A>(items: seq<(K, A)>, sel: K -> bool, op: (A, A) -> A, unit: A): (total: A)
  {
    if items == [] then unit
    else
      var last := items[|items| - 1];
      var front := Total(items[..|items| - 1], sel, op, unit);
      if sel(last.0) then op(front, last.1) else front
  }

  ghost predicate CommutativeMonoid<A(!new)>(op: (A, A) -> A, unit: A) {
    && (forall a: A :: op(unit, a) == a)
    && (forall a: A, b: A :: op(a, b) == op(b, a))
    && (forall a: A, b: A, c: A :: op(op(a, b), c) == op(a, op(b, c)))
  }

  lemma {:induction false} TotalAdd<K, A(!new)>(groups: seq<(K, A)>, key: K, value: A, sel: K -> bool,
                                                op: (A, A) -> A, unit: A)
    requires CommutativeMonoid(op, unit)
    ensures Total(Add(groups, key, value, op), sel, op, unit)
         == if sel(key) then op(Total(groups, sel, op, unit), value) else Total(groups, sel, op, unit)
  {
    var r := Add(groups, key, value, op);
    if groups != [] {
      var front, g := groups[..|groups| - 1], groups[|groups| - 1];
      assert r[..|r| - 1] == if g.0 == key then front else Add(front, key, value, op);
      if g.0 != key {
        TotalAdd(front, key, value, sel, op, unit);
        var t := Total(front, sel, op, unit);
        assert op(op(t, value), g.1) == op(t, op(value, g.1)) == op(t, op(g.1, value)) == op(op(t, g.1), value);
      }
    }
  }

  /** Grouping loses nothing: for every selection on the key, folding the groups equals folding the rows. */
  lemma {:induction false} TotalOfGroups<K, A(!new)>(items: seq<(K, A)>, sel: K -> bool, op: (A, A) -> A, unit: A)
    requires CommutativeMonoid(op, unit)
    ensures Total(GroupBy(items, op), sel, op, unit) == Total(items, sel, op, unit)
  {
    if items != [] {
      var front, last := items[..|items| - 1], items[|items| - 1];
      TotalOfGroups(front, sel, op, unit);
      TotalAdd(GroupBy(front, op), last.0, last.1, sel, op, unit);
    }
  }

  lemma {:induction false} TotalConcat<K, A(!new)>(a: seq<(K, A)>, b: seq<(K, A)>, sel: K -> bool, op: (A, A) -> A,
                                                   unit: A)
    requires CommutativeMonoid(op, unit)
    ensures Total(a + b, sel, op, unit) == op(Total(a, sel, op, unit), Total(b, sel, op, unit))
  {
    if b == [] {
      assert a + b == a;
      assert op(unit, Total(a, sel, op, unit)) == op(Total(a, sel, op, unit), unit);
    } else {
      var front, last := b[..|b| - 1], b[|b| - 1];
      assert (a + b)[..|a + b| - 1] == a + front;
      TotalConcat(a, front, sel, op, unit);
    }
  }

  ghost predicate DistinctKeys<K, A>(groups: seq<(K, A)>) {
    forall i, j :: 0 <= i < j < |groups| ==> groups[i].0 != groups[j].0
  }

  ghost function Keys<K, A>(items: seq<(K, A)>): set<K> {
    set i | 0 <= i < |items| :: items[i].0
  }

  lemma {:induction false} AddKeys<K, A>(groups: seq<(K, A)>, key: K, value: A, op: (A, A) -> A)
    requires DistinctKeys(groups)
    ensures DistinctKeys(Add(groups, key, value, op))
    ensures Keys(Add(groups, key, value, op)) == Keys(groups) + {key}
  {
    var r := Add(groups, key, value, op);
    if groups == [] {
      assert Keys(r) == {key} by { assert r[0].0 == key; }
    } else {
      var front, g := groups[..|groups| - 1], groups[|groups| - 1];
      KeysSnoc(groups);
      KeysSnoc(r);
      if g.0 == key {
        assert r[..|r| - 1] == front;
      } else {
        AddKeys(front, key, value, op);
        assert r[..|r| - 1] == Add(front, key, value, op);
        assert g.0 !in Keys(front);
        forall i | 0 <= i < |r| - 1 ensures r[i].0 != g.0 {
          assert r[i] == r[..|r| - 1][i];
          assert r[i].0 in Keys(r[..|r| - 1]);
        }
        forall i, j | 0 <= i < j < |r| ensures r[i].0 != r[j].0 {
          if j < |r| - 1 {
            assert r[i] == r[..|r| - 1][i] && r[j] == r[..|r| - 1][j];
          }
        }
      }
    }
  }

  lemma KeysSnoc<K, A>(items: seq<(K, A)>)
    requires items != []
    ensures Keys(items) == Keys(items[..|items| - 1]) + {items[|items| - 1].0}
  {
    var front := items[..|items| - 1];
    forall k | k in Keys(items) ensures k in Keys(front) + {items[|items| - 1].0} {
      var i :| 0 <= i < |items| && items[i].0 == k;
      if i < |items| - 1 { assert front[i].0 == k; }
    }
    forall k | k in Keys(front) + {items[|items| - 1].0} ensures k in Keys(items) {
      if k != items[|items| - 1].0 {
        var i :| 0 <= i < |front| && front[i].0 == k;
        assert items[i].0 == k;
      }
    }
  }

  /** The groups have one row per key, which is the primary key of the rollup table. */
  lemma {:induction false} GroupKeys<K, A>(items: seq<(K, A)>, op: (A, A) -> A)
    ensures DistinctKeys(GroupBy(items, op))
    ensures Keys(GroupBy(items, op)) == Keys(items)
  {
    if items != [] {
      var front, last := items[..|items| - 1], items[|items| - 1];
      GroupKeys(front, op);
      AddKeys(GroupBy(front, op), last.0, last.1, op);
      KeysSnoc(items);
    }
  }

  // ---- one group ----

  function Key<K(==)>(key: K): K -> bool {
    (k: K) => k == key
  }

  lemma {:induction false} NoneOfKey<K, A>(groups: seq<(K, A)>, key: K, op: (A, A) -> A, unit: A)
    requires forall i :: 0 <= i < |groups| ==> groups[i].0 != key
    ensures Total(groups, Key(key), op, unit) == unit
  {
    if groups != [] { NoneOfKey(groups[..|groups| - 1], key, op, unit); }
  }

  lemma {:induction false} TotalOfRow<K, A(!new)>(groups: seq<(K, A)>, i: nat, op: (A, A) -> A, unit: A)
    requires DistinctKeys(groups) && i < |groups| && CommutativeMonoid(op, unit)
    ensures Total(groups, Key(groups[i].0), op, unit) == groups[i].1
  {
    var front, last, key := groups[..|groups| - 1], groups[|groups| - 1], groups[i].0;
    if i == |front| {
      NoneOfKey(front, key, op, unit);
    } else {
      TotalOfRow(front, i, op, unit);
    }
  }

  lemma GroupValue<K, A(!new)>(items: seq<(K, A)>, i: nat, op: (A, A) -> A, unit: A)
    requires CommutativeMonoid(op, unit) && i < |GroupBy(items, op)|
    ensures GroupBy(items, op)[i].1 == Total(items, Key(GroupBy(items, op)[i].0), op, unit)
  {
    GroupKeys(items, op);
    TotalOfGroups(items, Key(GroupBy(items, op)[i].0), op, unit);
    TotalOfRow(GroupBy(items, op), i, op, unit);
  }

  // ---- one pass over the rows ----

  /** The fold of every row's share: what an ungrouped aggregate over the rows would return. */
  function Pass<T, A>(rows: seq<T>, share: T -> A, op: (A, A) -> A, unit: A): A {
    if rows == [] then unit else op(Pass(rows[..|rows| - 1], share, op, unit), share(rows[|rows| - 1]))
  }

  function ShareOf<T, K, A>(f: T -> Option<(K, A)>, sel: K -> bool, unit: A): T -> A {
    (r: T) => if f(r).Some? && sel(f(r).value.0) then f(r).value.1 else unit
  }

  lemma {:induction false} TotalIsPass<T, K, A(!new)>(rows: seq<T>, f: T -> Option<(K, A)>, sel: K -> bool,
                                                      op: (A, A) -> A, unit: A)
    requires CommutativeMonoid(op, unit)
    ensures Total(Collect(rows, f), sel, op, unit) == Pass(rows, ShareOf(f, sel, unit), op, unit)
  {
    if rows != [] {
      var front, items := rows[..|rows| - 1], Collect(rows, f);
      TotalIsPass(front, f, sel, op, unit);
      var t := Total(Collect(front, f), sel, op, unit);
      assert op(unit, t) == op(t, unit) == t;
      if f(rows[|rows| - 1]).Some? {
        assert items[..|items| - 1] == Collect(front, f);
      }
    }
  }

  lemma {:induction false} PassAgree<T, A>(rows: seq<T>, s: T -> A, s': T -> A, op: (A, A) -> A, unit: A)
    requires forall r :: r in rows ==> s(r) == s'(r)
    ensures Pass(rows, s, op, unit) == Pass(rows, s', op, unit)
  {
    if rows != [] {
      PassAgree(rows[..|rows| - 1], s, s', op, unit);
    }
  }

  lemma {:induction false} PassNothing<T, A(!new)>(rows: seq<T>, share: T -> A, op: (A, A) -> A, unit: A)
    requires CommutativeMonoid(op, unit)
    requires forall r :: r in rows ==> share(r) == unit
    ensures Pass(rows, share, op, unit) == unit
  {
    if rows != [] {
      PassNothing(rows[..|rows| - 1], share, op, unit);
    }
  }

  /** A pass whose shares split in two is two passes. */
  lemma {:induction false} PassSplit<T, A(!new)>(rows: seq<T>, share: T -> A, s: T -> A, s': T -> A, op: (A, A) -> A,
                                                 unit: A)
    requires CommutativeMonoid(op, unit)
    requires forall r :: r in rows ==> share(r) == op(s(r), s'(r))
    ensures Pass(rows, share, op, unit) == op(Pass(rows, s, op, unit), Pass(rows, s', op, unit))
  {
    if rows == [] {
      assert op(unit, unit) == unit;
    } else {
      var front, r := rows[..|rows| - 1], rows[|rows| - 1];
      PassSplit(front, share, s, s', op, unit);
      Interchange(Pass(front, s, op, unit), Pass(front, s', op, unit), s(r), s'(r), op, unit);
    }
  }

  lemma Interchange<A(!new)>(a: A, b: A, x: A, y: A, op: (A, A) -> A, unit: A)
    requires CommutativeMonoid(op, unit)
    ensures op(op(a, b), op(x, y)) == op(op(a, x), op(b, y))
  {
    calc {
      op(op(a, b), op(x, y));
      op(a, op(b, op(x, y)));
      op(a, op(op(b, x), y));
      op(a, op(op(x, b), y));
      op(a, op(x, op(b, y)));
      op(op(a, x), op(b, y));
    }
  }
}
