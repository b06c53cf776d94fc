/** Grouping by runs: a loop that extends the last group or opens a new one. On keys that never fall it is GROUP BY. */
module Runs {
  import opened Base
  import opened Grouping

  function Extend<A>(groups: seq<(int, A)>, key: int, value: A, op: (A, A) -> A): seq<(int, A)> {
    if groups != [] && groups[|groups| - 1].0 == key
    then groups[..|groups| - 1] + [(key, op(groups[|groups| - 1].1, value))]
    else groups + [(key, value)]
  }

  function RunsOf<A>(items: seq<(int, A)>, op: (A, A) -> A): seq<(int, A)> {
    if items == [] then []
    else Extend(RunsOf(items[..|items| - 1], op), items[|items| - 1].0, items[|items| - 1].1, op)
  }

  lemma ExtendTotal<A(!new)>(groups: seq<(int, A)>, key: int, value: A, sel: int -> bool, op: (A, A) -> A, unit: A)
    requires CommutativeMonoid(op, unit)
    ensures Total(Extend(groups, key, value, op), sel, op, unit)
         == if sel(key) then op(Total(groups, sel, op, unit), value) else Total(groups, sel, op, unit)
  {
    var r := Extend(groups, key, value, op);
    if groups != [] && groups[|groups| - 1].0 == key {
      assert r[..|r| - 1] == groups[..|groups| - 1];
    } else {
      assert r[..|r| - 1] == groups;
    }
  }

  /** The runs lose nothing: every selection of keys folds to the same value. */
  lemma {:induction false} TotalOfRuns<A(!new)>(items: seq<(int, A)>, sel: int -> bool, op: (A, A) -> A, unit: A)
    requires CommutativeMonoid(op, unit)
    ensures Total(RunsOf(items, op), sel, op, unit) == Total(items, sel, op, unit)
  {
    if items != [] {
      var front, last := items[..|items| - 1], items[|items| - 1];
      TotalOfRuns(front, sel, op, unit);
      ExtendTotal(RunsOf(front, op), last.0, last.1, sel, op, unit);
    }
  }

  ghost predicate KeysRise<A>(items: seq<(int, A)>) {
    forall i, j :: 0 <= i < j < |items| ==> items[i].0 <= items[j].0
  }

  ghost predicate KeysStrictlyRise<A>(groups: seq<(int, A)>) {
    forall i, j :: 0 <= i < j < |groups| ==> groups[i].0 < groups[j].0
  }

  /** On keys that never fall, the runs' keys strictly rise and are the items' keys. */
  lemma {:induction false} RunKeys<A>(items: seq<(int, A)>, op: (A, A) -> A)
    requires KeysRise(items)
    ensures KeysStrictlyRise(RunsOf(items, op)) && Keys(RunsOf(items, op)) == Keys(items)
    ensures items != [] ==> RunsOf(items, op) != []
                            && RunsOf(items, op)[|RunsOf(items, op)| - 1].0 == items[|items| - 1].0
  {
    if items != [] {
      var front, last := items[..|items| - 1], items[|items| - 1];
      RunKeys(front, op);
      var groups, r := RunsOf(front, op), RunsOf(items, op);
      KeysSnoc(items);
      KeysSnoc(r);
      if front != [] {
        var g := groups[|groups| - 1];
        KeysSnoc(groups);
        if g.0 == last.0 {
          assert r[..|r| - 1] == groups[..|groups| - 1];
        } else {
          assert r[..|r| - 1] == groups;
          forall i | 0 <= i < |groups| ensures groups[i].0 < last.0 {
            assert front[|front| - 1].0 <= last.0;
          }
        }
      } else {
        assert r[..|r| - 1] == groups;
      }
    }
  }

  /** Each run's value is the fold of the items with its key. */
  lemma {:induction false} TotalOfOne<A(!new)>(groups: seq<(int, A)>, k: nat, op: (A, A) -> A, unit: A)
    requires CommutativeMonoid(op, unit) && KeysStrictlyRise(groups) && k < |groups|
    ensures Total(groups, Equals(groups[k].0), op, unit) == groups[k].1
  {
    var front, last := groups[..|groups| - 1], groups[|groups| - 1];
    if k == |groups| - 1 {
      NoneSelected(front, Equals(last.0), op, unit);
    } else {
      assert front[k] == groups[k];
      TotalOfOne(front, k, op, unit);
    }
  }

  function Equals(key: int): int -> bool {
    (k: int) => k == key
  }

  lemma {:induction false} NoneSelected<K, A>(items: seq<(K, A)>, sel: K -> bool, op: (A, A) -> A, unit: A)
    requires forall i :: 0 <= i < |items| ==> !sel(items[i].0)
    ensures Total(items, sel, op, unit) == unit
  {
    if items != [] {
      var front := items[..|items| - 1];
      forall i | 0 <= i < |front| ensures !sel(front[i].0) { assert front[i] == items[i]; }
      NoneSelected(front, sel, op, unit);
    }
  }
}
