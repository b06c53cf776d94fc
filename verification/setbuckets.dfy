/** Set families: things (packets, adverts, messages) counted under the exact set of IATAs that
    heard them, so that a distinct count for any IATA filter is a sum over buckets. */
module SetBuckets {
  import opened Base
  import opened Grouping

  type Iata = string

  datatype Bucket<L> = Bucket(tag: L, iatas: set<Iata>)

  function Union(a: set<Iata>, b: set<Iata>): set<Iata> {
    a + b
  }

  /** GROUP BY thing, array_agg(DISTINCT iata). */
  function PerThing<K(==)>(hearings: seq<(K, set<Iata>)>): seq<(K, set<Iata>)> {
    GroupBy(hearings, Union)
  }

  function Retag<K, L, A>(things: seq<(K, set<Iata>)>, tag: K -> L, val: K -> A): seq<(Bucket<L>, A)> {
    seq(|things|, i requires 0 <= i < |things| => (Bucket(tag(things[i].0), things[i].1), val(things[i].0)))
  }

  /** GROUP BY tag, iatas over the per-thing rows. */
  function Buckets<K(==), L(==), A>(hearings: seq<(K, set<Iata>)>, tag: K -> L, val: K -> A,
                                    op: (A, A) -> A): seq<(Bucket<L>, A)> {
    GroupBy(Retag(PerThing(hearings), tag, val), op)
  }

  /** The reader's filter: an empty IATA list selects every bucket, otherwise iatas && $1. */
  predicate Meets(filter: set<Iata>, iatas: set<Iata>) {
    filter == {} || filter * iatas != {}
  }

  function BucketFilter<L>(tags: L -> bool, filter: set<Iata>): Bucket<L> -> bool {
    (b: Bucket<L>) => tags(b.tag) && Meets(filter, b.iatas)
  }

  ghost predicate HeardIn<K>(hearings: seq<(K, set<Iata>)>, thing: K, iata: Iata) {
    exists i :: 0 <= i < |hearings| && hearings[i].0 == thing && iata in hearings[i].1
  }

  /** The reference: the things themselves that some row heard at a wanted IATA. */
  ghost function DistinctThings<K(!new), L>(hearings: seq<(K, set<Iata>)>, tag: K -> L, test: K -> bool,
                                            tags: L -> bool,
                                      filter: set<Iata>): set<K>
  {
    set k | k in Keys(hearings) && tags(tag(k)) && test(k)
        && (filter == {} || exists x :: x in filter && HeardIn(hearings, k, x))
  }

  lemma HeardSnoc<K>(hearings: seq<(K, set<Iata>)>, thing: K, iata: Iata)
    requires hearings != []
    ensures HeardIn(hearings, thing, iata) <==>
            HeardIn(hearings[..|hearings| - 1], thing, iata)
            || (hearings[|hearings| - 1].0 == thing && iata in hearings[|hearings| - 1].1)
  {
    var front := hearings[..|hearings| - 1];
    if HeardIn(hearings, thing, iata) {
      var i :| 0 <= i < |hearings| && hearings[i].0 == thing && iata in hearings[i].1;
      if i < |front| { assert front[i] == hearings[i]; }
    }
    if HeardIn(front, thing, iata) {
      var i :| 0 <= i < |front| && front[i].0 == thing && iata in front[i].1;
      assert hearings[i] == front[i];
    }
  }

  lemma {:induction false} HeardAdd<K>(groups: seq<(K, set<Iata>)>, key: K, value: set<Iata>, thing: K, iata: Iata)
    ensures HeardIn(Add(groups, key, value, Union), thing, iata) <==>
            HeardIn(groups, thing, iata) || (thing == key && iata in value)
  {
    var r := Add(groups, key, value, Union);
    HeardSnoc(r, thing, iata);
    if groups != [] {
      HeardSnoc(groups, thing, iata);
      var front, g := groups[..|groups| - 1], groups[|groups| - 1];
      if g.0 == key {
        assert r[..|r| - 1] == front;
      } else {
        assert r[..|r| - 1] == Add(front, key, value, Union);
        HeardAdd(front, key, value, thing, iata);
      }
    }
  }

  lemma {:induction false} HeardGroup<K>(hearings: seq<(K, set<Iata>)>, thing: K, iata: Iata)
    ensures HeardIn(PerThing(hearings), thing, iata) <==> HeardIn(hearings, thing, iata)
  {
    if hearings != [] {
      var front, last := hearings[..|hearings| - 1], hearings[|hearings| - 1];
      HeardGroup(front, thing, iata);
      HeardAdd(PerThing(front), last.0, last.1, thing, iata);
      HeardSnoc(hearings, thing, iata);
    }
  }

  /** measure counts: it is additive and values a thing 1 when test holds of it, else 0. */
  ghost predicate Counts<K(!new), A(!new)>(measure: A -> int, op: (A, A) -> A, unit: A, val: K -> A, test: K -> bool) {
    && measure(unit) == 0
    && (forall a: A, b: A :: measure(op(a, b)) == measure(a) + measure(b))
    && (forall k: K :: measure(val(k)) == if test(k) then 1 else 0)
  }

  ghost function Chosen<K(!new), L>(things: seq<(K, set<Iata>)>, tag: K -> L, test: K -> bool,
                                    sel: Bucket<L> -> bool): set<K> {
    set i | 0 <= i < |things| && sel(Bucket(tag(things[i].0), things[i].1)) && test(things[i].0) :: things[i].0
  }

  lemma {:induction false} CountThings<K(!new), L,
      A(!new)>(things: seq<(K, set<Iata>)>, tag: K -> L, val: K -> A, op: (A, A) -> A, unit: A,
                                              measure: A -> int, test: K -> bool, sel: Bucket<L> -> bool)
    requires DistinctKeys(things) && Counts(measure, op, unit, val, test)
    ensures measure(Total(Retag(things, tag, val), sel, op, unit)) == |Chosen(things, tag, test, sel)|
  {
    if things == [] {
      assert Chosen(things, tag, test, sel) == {};
    } else {
      var front, last := things[..|things| - 1], things[|things| - 1];
      CountThings(front, tag, val, op, unit, measure, test, sel);
      assert Retag(things, tag, val)[..|things| - 1] == Retag(front, tag, val);
      var chosen := Chosen(front, tag, test, sel);
      assert last.0 !in chosen by {
        forall i | 0 <= i < |front| ensures front[i].0 != last.0 { assert front[i] == things[i]; }
      }
      ChosenSnoc(things, tag, test, sel);
    }
  }

  lemma ChosenSnoc<K(!new), L>(things: seq<(K, set<Iata>)>, tag: K -> L, test: K -> bool, sel: Bucket<L> -> bool)
    requires things != []
    ensures var chosen, last := Chosen(things[..|things| - 1], tag, test, sel), things[|things| - 1];
            Chosen(things, tag, test, sel) == chosen + if sel(Bucket(tag(last.0), last.1))
                && test(last.0) then {last.0} else {}
  {
    var front, last, all := things[..|things| - 1], things[|things| - 1], Chosen(things, tag, test, sel);
    forall k | k in all ensures k in Chosen(front, tag, test, sel)
        || (sel(Bucket(tag(last.0), last.1)) && test(last.0) && k == last.0) {
      var i :| 0 <= i < |things| && sel(Bucket(tag(things[i].0), things[i].1)) && test(things[i].0) && things[i].0 == k;
      if i < |front| { assert front[i] == things[i]; }
    }
    forall k | k in Chosen(front, tag, test, sel) ensures k in all {
      var i :| 0 <= i < |front| && sel(Bucket(tag(front[i].0), front[i].1)) && test(front[i].0) && front[i].0 == k;
      assert things[i] == front[i];
    }
  }

  /** Distinct counts are exact for every filter: the sum over the buckets that meet the IATA filter is
      the number of distinct things heard at one of its IATAs, and an empty filter counts them all. */
  lemma DistinctFromBuckets<K(!new), L, A(!new)>(hearings: seq<(K, set<Iata>)>, tag: K -> L, val: K -> A,
                                                 op: (A, A) -> A, unit: A,
                                          measure: A -> int, test: K -> bool, tags: L -> bool, filter: set<Iata>)
    requires CommutativeMonoid(op, unit) && Counts(measure, op, unit, val, test)
    ensures measure(Total(Buckets(hearings, tag, val, op), BucketFilter(tags, filter), op, unit))
         == |DistinctThings(hearings, tag, test, tags, filter)|
  {
    var things := PerThing(hearings);
    var sel := BucketFilter(tags, filter);
    GroupKeys(hearings, Union);
    TotalOfGroups(Retag(things, tag, val), sel, op, unit);
    CountThings(things, tag, val, op, unit, measure, test, sel);
    var wanted := DistinctThings(hearings, tag, test, tags, filter);
    forall k | k in Chosen(things, tag, test, sel) ensures k in wanted {
      var i :| 0 <= i < |things| && sel(Bucket(tag(things[i].0), things[i].1)) && test(things[i].0) && things[i].0 == k;
      assert k in Keys(things);
      if filter != {} {
        var x :| x in filter * things[i].1;
        assert HeardIn(things, k, x);
        HeardGroup(hearings, k, x);
      }
    }
    forall k | k in wanted ensures k in Chosen(things, tag, test, sel) {
      assert k in Keys(things);
      var i :| 0 <= i < |things| && things[i].0 == k;
      if filter != {} {
        var x :| x in filter && HeardIn(hearings, k, x);
        HeardGroup(hearings, k, x);
        var j :| 0 <= j < |things| && things[j].0 == k && x in things[j].1;
        assert i == j;
        assert x in filter * things[i].1;
      }
      assert sel(Bucket(tag(things[i].0), things[i].1)) && test(things[i].0) && things[i].0 == k;
    }
    assert Chosen(things, tag, test, sel) == wanted;
  }
}
