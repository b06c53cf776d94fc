/** What the hourly series says in every reachable state, and why its revision may be cached against. */
module SeriesTheorems {
  import opened Base
  import opened Grouping
  import opened Sorting
  import opened SetBuckets
  import opened Families
  import opened DistinctCounts
  import opened World
  import opened RawRows
  import opened Protocol
  import opened RunTheorems
  import opened PathQuery
  import opened StatsSeries
  import opened RowColumns

  // ---- groups are hours ----

  function Grouped(group: Option<int>): int -> bool {
    (h: int) => InGroup(group, h)
  }

  function HourTotal<K, A>(part: int -> seq<(K, A)>, sel: K -> bool, op: (A, A) -> A, unit: A): int -> A {
    (h: int) => Total(part(h), sel, op, unit)
  }

  lemma {:induction false} TaggedTotal<K, A(!new)>(h: int, rows: seq<(K, A)>, group: Option<int>, sel: K -> bool,
                                                   op: (A, A) -> A, unit: A)
    ensures Total(Tagged(h, rows), GroupOf(group, sel), op, unit)
            == if InGroup(group, h) then Total(rows, sel, op, unit) else unit
  {
    if rows != [] {
      var front, tagged := rows[..|rows| - 1], Tagged(h, rows);
      TaggedTotal(h, front, group, sel, op, unit);
      assert tagged[..|tagged| - 1] == Tagged(h, front);
    }
  }

  /** A grouped sum is the sum, over the group's hours, of each hour's sum. */
  lemma {:induction false} JoinedTotal<K, A(!new)>(hours: seq<int>, part: int -> seq<(K, A)>, group: Option<int>,
                                                   sel: K -> bool,
                                                   op: (A, A) -> A, unit: A)
    requires CommutativeMonoid(op, unit)
    ensures Total(Joined(hours, part), GroupOf(group, sel), op, unit)
         == Pass(Filter(hours, Grouped(group)), HourTotal(part, sel, op, unit), op, unit)
  {
    if hours != [] {
      var front, h := hours[..|hours| - 1], hours[|hours| - 1];
      JoinedTotal(front, part, group, sel, op, unit);
      TotalConcat(Joined(front, part), Tagged(h, part(h)), GroupOf(group, sel), op, unit);
      TaggedTotal(h, part(h), group, sel, op, unit);
      var kept := Filter(hours, Grouped(group));
      if InGroup(group, h) {
        assert kept[..|kept| - 1] == Filter(front, Grouped(group));
      } else {
        var t := Total(Joined(front, part), GroupOf(group, sel), op, unit);
        assert op(t, unit) == op(unit, t) == t;
      }
    }
  }

  ghost function KeySet<K, A, X>(rows: seq<(K, A)>, sel: K -> bool, proj: K -> X): set<X> {
    set i | 0 <= i < |rows| && sel(rows[i].0) :: proj(rows[i].0)
  }

  ghost function JoinedSet<K, A, X>(rows: seq<((int, K), A)>, sel: ((int, K)) -> bool, proj: K -> X): set<X> {
    set i | 0 <= i < |rows| && sel(rows[i].0) :: proj(rows[i].0.1)
  }

  /** The things of some hours together. */
  ghost function Together<X>(hours: seq<int>, things: int -> set<X>): set<X> {
    if hours == [] then {} else Together(hours[..|hours| - 1], things) + things(hours[|hours| - 1])
  }

  lemma JoinedSetConcat<K, A, X>(a: seq<((int, K), A)>, b: seq<((int, K), A)>, sel: ((int, K)) -> bool, proj: K -> X,
                                 x: X)
    ensures x in JoinedSet(a + b, sel, proj) <==> x in JoinedSet(a, sel, proj) || x in JoinedSet(b, sel, proj)
  {
    var c := a + b;
    if x in JoinedSet(a, sel, proj) {
      var i :| 0 <= i < |a| && sel(a[i].0) && proj(a[i].0.1) == x;
      assert c[i] == a[i];
    }
    if x in JoinedSet(b, sel, proj) {
      var i :| 0 <= i < |b| && sel(b[i].0) && proj(b[i].0.1) == x;
      assert c[|a| + i] == b[i];
    }
  }

  lemma TaggedSet<K, A, X>(h: int, rows: seq<(K, A)>, group: Option<int>, sel: K -> bool, proj: K -> X, x: X)
    ensures x in JoinedSet(Tagged(h, rows), GroupOf(group, sel), proj)
            <==> InGroup(group, h) && x in KeySet(rows, sel, proj)
  {
    var tagged := Tagged(h, rows);
    if x in JoinedSet(tagged, GroupOf(group, sel), proj) {
      var i :| 0 <= i < |tagged| && GroupOf(group, sel)(tagged[i].0) && proj(tagged[i].0.1) == x;
      assert sel(rows[i].0) && proj(rows[i].0) == x;
    }
    if InGroup(group, h) && x in KeySet(rows, sel, proj) {
      var i :| 0 <= i < |rows| && sel(rows[i].0) && proj(rows[i].0) == x;
      assert GroupOf(group, sel)(tagged[i].0) && proj(tagged[i].0.1) == x;
    }
  }

  /** A grouped distinct count ranges over the things of the group's hours. */
  lemma {:induction false} JoinedThings<K, A, X>(hours: seq<int>, part: int -> seq<(K, A)>, group: Option<int>,
                                                 sel: K -> bool,
                                                 proj: K -> X, things: int -> set<X>)
    requires forall h :: h in hours ==> KeySet(part(h), sel, proj) == things(h)
    ensures JoinedSet(Joined(hours, part), GroupOf(group, sel), proj) == Together(Filter(hours, Grouped(group)), things)
  {
    if hours != [] {
      var front, h := hours[..|hours| - 1], hours[|hours| - 1];
      assert hours == front + [h];
      JoinedThings(front, part, group, sel, proj, things);
      assert h in hours;
      var before, kept := Filter(front, Grouped(group)), Filter(hours, Grouped(group));
      var all, here := JoinedSet(Joined(hours, part), GroupOf(group, sel), proj), if InGroup(group, h) then things(h)
          else {};
      var union: set<X> := Together(before, things) + here;
      forall x | x in all + union ensures x in all && x in union {
        JoinedSetConcat(Joined(front, part), Tagged(h, part(h)), GroupOf(group, sel), proj, x);
        TaggedSet(h, part(h), group, sel, proj, x);
      }
      assert all == union;
      assert Grouped(group)(h) == InGroup(group, h);
      if InGroup(group, h) {
        assert kept == before + [h] && kept[..|kept| - 1] == before;
      }
    }
  }

  // ---- what one hour's stored keys are ----

  ghost function RowThings<K, A, X>(rows: seq<Row>, f: Row -> Option<(K, A)>, sel: K -> bool, proj: K -> X): set<X> {
    set r | r in rows && f(r).Some? && sel(f(r).value.0) :: proj(f(r).value.0)
  }

  lemma GroupedKeySet<K, A, X>(rows: seq<Row>, f: Row -> Option<(K, A)>, op: (A, A) -> A, sel: K -> bool, proj: K -> X)
    ensures KeySet(GroupBy(Collect(rows, f), op), sel, proj) == RowThings(rows, f, sel, proj)
  {
    var items, groups := Collect(rows, f), GroupBy(Collect(rows, f), op);
    GroupKeys(items, op);
    forall x | x in KeySet(groups, sel, proj) ensures x in RowThings(rows, f, sel, proj) {
      var i :| 0 <= i < |groups| && sel(groups[i].0) && proj(groups[i].0) == x;
      assert groups[i].0 in Keys(groups);
      var j :| 0 <= j < |items| && items[j].0 == groups[i].0;
      CollectItems(rows, f, items[j]);
    }
    forall x | x in RowThings(rows, f, sel, proj) ensures x in KeySet(groups, sel, proj) {
      var r :| r in rows && f(r).Some? && sel(f(r).value.0) && proj(f(r).value.0) == x;
      CollectItems(rows, f, f(r).value);
      var j :| 0 <= j < |items| && items[j] == f(r).value;
      assert items[j].0 in Keys(items);
      var i :| 0 <= i < |groups| && groups[i].0 == items[j].0;
    }
  }

  /** The bucket tags that meet a filter are the tags of the things heard there. */
  lemma BucketTags<K(!new), L>(rows: seq<Row>, f: Row -> Option<(K, set<Iata>)>, tag: K -> L, val: K -> int,
                               filter: set<Iata>, x: L)
    requires HearsOwnIata(f)
    ensures (exists b :: b in Keys(Buckets(Collect(rows, f), tag, val, Plus)) && b.tag == x && Meets(filter, b.iatas))
       <==> exists r :: r in rows && f(r).Some? && Selected(r, filter) && tag(f(r).value.0) == x
  {
    var hearings := Collect(rows, f);
    var things, tagged := PerThing(hearings), Retag(PerThing(hearings), tag, val);
    GroupKeys(hearings, Union);
    GroupKeys(tagged, Plus);
    if b :| b in Keys(Buckets(hearings, tag, val, Plus)) && b.tag == x && Meets(filter, b.iatas) {
      var i :| 0 <= i < |tagged| && tagged[i].0 == b;
      var k := things[i].0;
      assert k in Keys(things);
      var j :| 0 <= j < |hearings| && hearings[j].0 == k;
      if filter != {} {
        var iata :| iata in filter * things[i].1;
        assert SetBuckets.HeardIn(things, k, iata);
        HeardGroup(hearings, k, iata);
        j :| 0 <= j < |hearings| && hearings[j].0 == k && iata in hearings[j].1;
      }
      CollectItems(rows, f, hearings[j]);
      var r :| r in rows && f(r) == Some(hearings[j]);
      assert Selected(r, filter);
    }
    if r :| r in rows && f(r).Some? && Selected(r, filter) && tag(f(r).value.0) == x {
      var k := f(r).value.0;
      CollectItems(rows, f, f(r).value);
      var j :| 0 <= j < |hearings| && hearings[j] == f(r).value;
      assert r.iata in hearings[j].1 && SetBuckets.HeardIn(hearings, k, r.iata);
      HeardGroup(hearings, k, r.iata);
      var i :| 0 <= i < |things| && things[i].0 == k && r.iata in things[i].1;
      var b := tagged[i].0;
      assert b in Keys(tagged);
      assert filter != {} ==> r.iata in filter * b.iatas;
    }
  }

  // ---- the reference: what was heard ----

  ghost function PacketsHeard(ever: seq<Row>, filter: set<Iata>): int -> int {
    (h: int) => |set r | r in RowsIn(ever, h) && Selected(r, filter) :: r.packet|
  }

  ghost function ScopedHeard(ever: seq<Row>, filter: set<Iata>): int -> int {
    (h: int) => |ScopedIn(RowsIn(ever, h), Any<int>, filter)|
  }

  /** One reception, with its SNR and its RSSI if they were reported. */
  ghost function SignalShare(filter: set<Iata>): Row -> SignalSums {
    (r: Row) =>
      if !Selected(r, filter) then NO_SIGNAL
      else SignalSums(1, if HasSnr(r) then 1 else 0, if HasSnr(r) then r.snr.value else 0.0,
                      if HasRssi(r) then 1 else 0, if HasRssi(r) then r.rssi.value as real else 0.0)
  }

  ghost function SignalHeard(ever: seq<Row>, filter: set<Iata>): int -> SignalSums {
    (h: int) => Pass(RowsIn(ever, h), SignalShare(filter), PlusSignal, NO_SIGNAL)
  }

  ghost function ObserversHeard(ever: seq<Row>, filter: set<Iata>): int -> set<nat> {
    (h: int) => set r | r in RowsIn(ever, h) && Selected(r, filter) :: r.observer
  }

  ghost function IatasHeard(ever: seq<Row>, filter: set<Iata>): int -> set<Iata> {
    (h: int) => set r | r in RowsIn(ever, h) && Selected(r, filter) :: r.iata
  }

  ghost function ScopesHeard(ever: seq<Row>, filter: set<Iata>): int -> set<int> {
    (h: int) => set r | r in RowsIn(ever, h) && r.scopeId.Some? && Selected(r, filter) :: r.scopeId.value
  }

  ghost function LengthsHeard(ever: seq<Row>, filter: set<Iata>): int -> set<int> {
    (h: int) => set r | r in RowsIn(ever, h) && IsRouted(r) && Selected(r, filter) :: r.hopCount
  }

  ghost predicate IsLargest(values: set<int>, largest: int) {
    if values == {} then largest == 0 else largest in values && forall v :: v in values ==> v <= largest
  }

  /** The values of some hours, straight from every observation ever heard in them: receptions add up; packets and
      scoped packets count once per hour; observers, IATAs and scopes are distinct across the hours. */
  ghost predicate Describes(v: Values, ever: seq<Row>, hours: seq<int>, filter: set<Iata>) {
    && v.observations == Pass(hours, HourCount(ever, filter), Plus, 0)
    && v.uniquePackets == Pass(hours, PacketsHeard(ever, filter), Plus, 0)
    && v.scopedPackets == Pass(hours, ScopedHeard(ever, filter), Plus, 0)
    && v.activeObservers == |Together(hours, ObserversHeard(ever, filter))|
    && v.activeIatas == |Together(hours, IatasHeard(ever, filter))|
    && v.activeScopes == |Together(hours, ScopesHeard(ever, filter))|
    && IsLargest(Together(hours, LengthsHeard(ever, filter)), v.maxPathEntries)
    && v.signal == Pass(hours, SignalHeard(ever, filter), PlusSignal, NO_SIGNAL)
  }

  // ---- one complete hour ----

  /** The stored families of one hour hold exactly what was heard in it. */
  ghost predicate Holds(t: Tables, ever: seq<Row>, h: int) {
    && IatasAt(t, h) == Roll(IataObservations, RowsIn(ever, h), map[]).iatas
    && PacketsAt(t, h) == Roll(PacketSets, RowsIn(ever, h), map[]).packets
    && ObserversAt(t, h) == Roll(ObserverIdentity, RowsIn(ever, h), map[]).identities
    && ScopesAt(t, h) == Roll(ScopeSets, RowsIn(ever, h), map[]).scopes
    && PathsAt(t, h) == Roll(Paths, RowsIn(ever, h), map[]).paths
    && SignalAt(t, h) == Roll(Signal, RowsIn(ever, h), map[]).signals
  }

  lemma CompleteHolds(w: World, h: int)
    requires Inv(w) && IsComplete(w.tables, h)
    ensures Holds(w.tables, w.ever, h)
  {
    var content, rows := w.tables.content[h], RowsIn(w.ever, h);
    ExactFamily(content, rows, IataObservations);
    ExactFamily(content, rows, PacketSets);
    ExactFamily(content, rows, ObserverIdentity);
    ExactFamily(content, rows, ScopeSets);
    ExactFamily(content, rows, Paths);
    ExactFamily(content, rows, Signal);
  }

  lemma IataPass(rows: seq<Row>, sel: Iata -> bool)
    ensures Total(GroupBy(Collect(rows, IataItem), Plus), sel, Plus, 0)
            == Pass(rows, ShareOf(IataItem, sel, 0), Plus, 0)
  {
    PlusMonoid();
    TotalOfGroups(Collect(rows, IataItem), sel, Plus, 0);
    TotalIsPass(rows, IataItem, sel, Plus, 0);
  }

  lemma IataTotal(rows: seq<Row>, filter: set<Iata>)
    ensures Total(Roll(IataObservations, rows, map[]).iatas, IataSelected(filter), Plus, 0) == HeardCount(rows, filter)
  {
    IataPass(rows, IataSelected(filter));
    forall r | r in rows ensures ShareOf(IataItem, IataSelected(filter), 0)(r) == Counted(filter)(r) {
      assert IataItem(r) == Some((r.iata, 1));
    }
    PassAgree(rows, ShareOf(IataItem, IataSelected(filter), 0), Counted(filter), Plus, 0);
  }

  lemma SignalPass(rows: seq<Row>, f: Row -> Option<(SignalKey, SignalSums)>, sel: SignalKey -> bool,
                   share: Row -> SignalSums)
    requires forall r :: r in rows ==> ShareOf(f, sel, NO_SIGNAL)(r) == share(r)
    ensures Total(Collect(rows, f), sel, PlusSignal, NO_SIGNAL) == Pass(rows, share, PlusSignal, NO_SIGNAL)
  {
    SignalMonoid();
    TotalIsPass(rows, f, sel, PlusSignal, NO_SIGNAL);
    PassAgree(rows, ShareOf(f, sel, NO_SIGNAL), share, PlusSignal, NO_SIGNAL);
  }

  lemma NoSignal(rows: seq<Row>, share: Row -> SignalSums)
    requires forall r :: share(r) == NO_SIGNAL
    ensures Pass(rows, share, PlusSignal, NO_SIGNAL) == NO_SIGNAL
  {
    SignalMonoid();
    PassNothing(rows, share, PlusSignal, NO_SIGNAL);
  }

  lemma SignalSplit(a: seq<(SignalKey, SignalSums)>, b: seq<(SignalKey, SignalSums)>, sel: SignalKey -> bool)
    requires Total(b, sel, PlusSignal, NO_SIGNAL) == NO_SIGNAL
    ensures Total(a + b, sel, PlusSignal, NO_SIGNAL) == Total(a, sel, PlusSignal, NO_SIGNAL)
  {
    SignalMonoid();
    TotalConcat(a, b, sel, PlusSignal, NO_SIGNAL);
  }

  lemma SignalGroups(items: seq<(SignalKey, SignalSums)>, sel: SignalKey -> bool)
    ensures Total(GroupBy(items, PlusSignal), sel, PlusSignal, NO_SIGNAL) == Total(items, sel, PlusSignal, NO_SIGNAL)
  {
    SignalMonoid();
    TotalOfGroups(items, sel, PlusSignal, NO_SIGNAL);
  }

  lemma SignalBins(rows: seq<Row>, filter: set<Iata>)
    ensures Total(Collect(rows, SignalTotalItem), SignalSelected(filter), PlusSignal, NO_SIGNAL)
         == Pass(rows, SignalShare(filter), PlusSignal, NO_SIGNAL)
    ensures Total(Collect(rows, SnrBinItem), SignalSelected(filter), PlusSignal, NO_SIGNAL) == NO_SIGNAL
    ensures Total(Collect(rows, RssiBinItem), SignalSelected(filter), PlusSignal, NO_SIGNAL) == NO_SIGNAL
  {
    var sel, none := SignalSelected(filter), (r: Row) => NO_SIGNAL;
    forall r: Row
      ensures ShareOf(SignalTotalItem, sel, NO_SIGNAL)(r) == SignalShare(filter)(r)
      ensures ShareOf(SnrBinItem, sel, NO_SIGNAL)(r) == none(r) && ShareOf(RssiBinItem, sel, NO_SIGNAL)(r) == none(r)
    {
      SnrOfColumns(r);
      RssiOfColumns(r);
      assert SignalTotalItem(r).value.0 == SignalKey(r.iata, 3, -1, -1);
      assert SnrBinItem(r).value.0.kind == 1 && RssiBinItem(r).value.0.kind == 2;
      assert !sel(SnrBinItem(r).value.0) && !sel(RssiBinItem(r).value.0);
    }
    SignalPass(rows, SignalTotalItem, sel, SignalShare(filter));
    SignalPass(rows, SnrBinItem, sel, none);
    SignalPass(rows, RssiBinItem, sel, none);
    NoSignal(rows, none);
  }

  /** Only the rows of kind 3 are summed: a reception counts once, although each also lies in an SNR bin and an RSSI
      bin. */
  lemma SignalTotal(rows: seq<Row>, filter: set<Iata>)
    ensures Total(Roll(Signal, rows, map[]).signals, SignalSelected(filter), PlusSignal, NO_SIGNAL)
         == Pass(rows, SignalShare(filter), PlusSignal, NO_SIGNAL)
  {
    var totals, snr, rssi := Collect(rows, SignalTotalItem), Collect(rows, SnrBinItem), Collect(rows, RssiBinItem);
    SignalBins(rows, filter);
    SignalSplit(totals, snr, SignalSelected(filter));
    SignalSplit(totals + snr, rssi, SignalSelected(filter));
    SignalGroups(totals + snr + rssi, SignalSelected(filter));
  }

  // ---- the groups ----

  lemma SumsExact(w: World, complete: seq<int>, group: Option<int>, filter: set<Iata>)
    requires forall h :: h in complete ==> Holds(w.tables, w.ever, h)
    ensures var v, hours := GroupValues(w.tables, complete, group, filter), Filter(complete, Grouped(group));
            && v.observations == Pass(hours, HourCount(w.ever, filter), Plus, 0)
            && v.uniquePackets == Pass(hours, PacketsHeard(w.ever, filter), Plus, 0)
            && v.scopedPackets == Pass(hours, ScopedHeard(w.ever, filter), Plus, 0)
            && v.signal == Pass(hours, SignalHeard(w.ever, filter), PlusSignal, NO_SIGNAL)
  {
    var hours := Filter(complete, Grouped(group));
    forall h | h in hours ensures h in complete { FilterMember(complete, Grouped(group), h); }
    SumExact(complete, (h: int) => IatasAt(w.tables, h), group, IataSelected(filter), HourCount(w.ever, filter)) by {
      forall h | h in hours ensures Total(IatasAt(w.tables, h), IataSelected(filter), Plus, 0)
          == HourCount(w.ever, filter)(h) {
        IataTotal(RowsIn(w.ever, h), filter);
      }
    }
    SumExact(complete, (h: int) => PacketsAt(w.tables, h), group, BucketFilter(Any<()>, filter),
             PacketsHeard(w.ever, filter)) by {
      forall h | h in hours ensures Total(PacketsAt(w.tables, h), BucketFilter(Any<()>, filter), Plus, 0)
          == PacketsHeard(w.ever, filter)(h) {
        PacketSetsExact(RowsIn(w.ever, h), filter);
      }
    }
    SumExact(complete, (h: int) => ScopesAt(w.tables, h), group, BucketFilter(Any<int>, filter),
             ScopedHeard(w.ever, filter)) by {
      forall h | h in hours ensures Total(ScopesAt(w.tables, h), BucketFilter(Any<int>, filter), Plus, 0)
          == ScopedHeard(w.ever, filter)(h) {
        ScopedHour(w.ever, h, filter);
      }
    }
    SignalMonoid();
    var part, sel := (h: int) => SignalAt(w.tables, h), SignalSelected(filter);
    JoinedTotal(complete, part, group, sel, PlusSignal, NO_SIGNAL);
    forall h | h in hours ensures HourTotal(part, sel, PlusSignal, NO_SIGNAL)(h) == SignalHeard(w.ever, filter)(h) {
      SignalTotal(RowsIn(w.ever, h), filter);
    }
    PassAgree(hours, HourTotal(part, sel, PlusSignal, NO_SIGNAL), SignalHeard(w.ever, filter), PlusSignal, NO_SIGNAL);
  }

  lemma ScopedHour(ever: seq<Row>, h: int, filter: set<Iata>)
    ensures Total(Roll(ScopeSets, RowsIn(ever, h), map[]).scopes, BucketFilter(Any<int>, filter), Plus, 0)
            == ScopedHeard(ever, filter)(h)
  {
    ScopeSetsExact(RowsIn(ever, h), Any<int>, filter);
  }

  lemma JoinedSum<K>(hours: seq<int>, part: int -> seq<(K, int)>, group: Option<int>, sel: K -> bool)
    ensures Total(Joined(hours, part), GroupOf(group, sel), Plus, 0)
            == Pass(Filter(hours, Grouped(group)), HourTotal(part, sel, Plus, 0), Plus, 0)
  {
    PlusMonoid();
    JoinedTotal(hours, part, group, sel, Plus, 0);
  }

  lemma SumExact<K>(complete: seq<int>, part: int -> seq<(K, int)>, group: Option<int>, sel: K -> bool,
                    heard: int -> int)
    requires forall h :: h in Filter(complete, Grouped(group)) ==> Total(part(h), sel, Plus, 0) == heard(h)
    ensures Total(Joined(complete, part), GroupOf(group, sel), Plus, 0)
            == Pass(Filter(complete, Grouped(group)), heard, Plus, 0)
  {
    JoinedSum(complete, part, group, sel);
    forall h | h in Filter(complete, Grouped(group)) ensures HourTotal(part, sel, Plus, 0)(h) == heard(h) {}
    PassAgree(Filter(complete, Grouped(group)), HourTotal(part, sel, Plus, 0), heard, Plus, 0);
  }

  lemma IataSet(rows: seq<Row>, filter: set<Iata>)
    ensures KeySet(Roll(IataObservations, rows, map[]).iatas, IataSelected(filter), ItsIata) == set r | r in rows
            && Selected(r, filter) :: r.iata
  {
    GroupedKeySet(rows, IataItem, Plus, IataSelected(filter), ItsIata);
    assert RowThings(rows, IataItem, IataSelected(filter), ItsIata) == set r | r in rows
        && Selected(r, filter) :: r.iata;
  }

  lemma ObserverSet(rows: seq<Row>, filter: set<Iata>)
    ensures KeySet(Roll(ObserverIdentity, rows, map[]).identities, IdentitySelected(filter), ItsObserver)
         == set r | r in rows && Selected(r, filter) :: r.observer
  {
    GroupedKeySet(rows, IdentityItem, Plus, IdentitySelected(filter), ItsObserver);
    assert RowThings(rows, IdentityItem, IdentitySelected(filter), ItsObserver) == set r | r in rows
        && Selected(r, filter) :: r.observer;
  }

  lemma LengthSet(rows: seq<Row>, filter: set<Iata>)
    ensures KeySet(Roll(Paths, rows, map[]).paths, RoutedSelected(filter), ItsEntries)
         == set r | r in rows && IsRouted(r) && Selected(r, filter) :: r.hopCount
  {
    GroupedKeySet(rows, PathItem, Plus, RoutedSelected(filter), ItsEntries);
    forall r: Row ensures PathCategory(r) == 0 <==> IsRouted(r) { CategoryOfColumns(r); }
    assert RowThings(rows, PathItem, RoutedSelected(filter), ItsEntries)
        == set r | r in rows && IsRouted(r) && Selected(r, filter) :: r.hopCount;
  }

  lemma ScopeSet(ever: seq<Row>, h: int, filter: set<Iata>)
    ensures KeySet(Roll(ScopeSets, RowsIn(ever, h), map[]).scopes, BucketFilter(Any<int>, filter), ItsScope)
            == ScopesHeard(ever, filter)(h)
  {
    var rows := RowsIn(ever, h);
    var scopes := Roll(ScopeSets, rows, map[]).scopes;
    var tags := KeySet(scopes, BucketFilter(Any<int>, filter), ItsScope);
    forall x ensures x in tags <==> x in ScopesHeard(ever, filter)(h) {
      BucketTags(rows, ScopedHearing, ScopeOf, One<Scoped>, filter, x);
      if x in tags {
        var i :| 0 <= i < |scopes| && BucketFilter(Any<int>, filter)(scopes[i].0) && ItsScope(scopes[i].0) == x;
        assert scopes[i].0 in Keys(scopes);
      }
      if b :| b in Keys(scopes) && b.tag == x && Meets(filter, b.iatas) {
        var i :| 0 <= i < |scopes| && scopes[i].0 == b;
        assert Any<int>(x) && BucketFilter(Any<int>, filter)(scopes[i].0) && ItsScope(scopes[i].0) == x;
      }
    }
  }

  function ItsEntries(k: PathKey): int {
    k.entries
  }

  lemma {:induction false} MaxIsLargest<A>(rows: seq<((int, PathKey), A)>, sel: ((int, PathKey)) -> bool)
    ensures var m := MaxEntries(rows, sel);
            IsLargest(JoinedSet(rows, sel, ItsEntries), if m.None? then 0 else m.value)
    ensures MaxEntries(rows, sel).None? <==> JoinedSet(rows, sel, ItsEntries) == {}
  {
    if rows != [] {
      var front, last := rows[..|rows| - 1], rows[|rows| - 1];
      MaxIsLargest(front, sel);
      assert rows == front + [last];
      var here := JoinedSet([last], sel, ItsEntries);
      forall x ensures x in JoinedSet(rows, sel, ItsEntries) <==> x in JoinedSet(front, sel, ItsEntries) || x in here {
        JoinedSetConcat(front, [last], sel, ItsEntries, x);
      }
      assert [last][0] == last;
      assert here == if sel(last.0) then {last.0.1.entries} else {};
    }
  }

  lemma SetsExact(w: World, complete: seq<int>, group: Option<int>, filter: set<Iata>)
    requires forall h :: h in complete ==> Holds(w.tables, w.ever, h)
    ensures var v, hours := GroupValues(w.tables, complete, group, filter), Filter(complete, Grouped(group));
            && v.activeObservers == |Together(hours, ObserversHeard(w.ever, filter))|
            && v.activeIatas == |Together(hours, IatasHeard(w.ever, filter))|
            && v.activeScopes == |Together(hours, ScopesHeard(w.ever, filter))|
            && IsLargest(Together(hours, LengthsHeard(w.ever, filter)), v.maxPathEntries)
  {
    var t := w.tables;
    forall h | h in complete
      ensures KeySet(IatasAt(t, h), IataSelected(filter), ItsIata) == IatasHeard(w.ever, filter)(h)
      ensures KeySet(ObserversAt(t, h), IdentitySelected(filter), ItsObserver) == ObserversHeard(w.ever, filter)(h)
      ensures KeySet(PathsAt(t, h), RoutedSelected(filter), ItsEntries) == LengthsHeard(w.ever, filter)(h)
      ensures KeySet(ScopesAt(t, h), BucketFilter(Any<int>, filter), ItsScope) == ScopesHeard(w.ever, filter)(h)
    {
      IataSet(RowsIn(w.ever, h), filter);
      ObserverSet(RowsIn(w.ever, h), filter);
      LengthSet(RowsIn(w.ever, h), filter);
      ScopeSet(w.ever, h, filter);
    }
    JoinedThings(complete, (h: int) => IatasAt(t, h), group, IataSelected(filter), ItsIata, IatasHeard(w.ever, filter));
    JoinedThings(complete, (h: int) => ObserversAt(t, h), group, IdentitySelected(filter), ItsObserver,
                 ObserversHeard(w.ever, filter));
    JoinedThings(complete, (h: int) => ScopesAt(t, h), group, BucketFilter(Any<int>, filter), ItsScope,
                 ScopesHeard(w.ever, filter));
    JoinedThings(complete, (h: int) => PathsAt(t, h), group, RoutedSelected(filter), ItsEntries,
                 LengthsHeard(w.ever, filter));
    MaxIsLargest(Joined(complete, (h: int) => PathsAt(t, h)), GroupOf(group, RoutedSelected(filter)));
  }

  lemma {:induction false} OnlyHour(hours: seq<int>, h: int)
    requires forall i, j :: 0 <= i < j < |hours| ==> hours[i] < hours[j]
    ensures Filter(hours, Grouped(Some(h))) == if h in hours then [h] else []
  {
    if hours != [] {
      var front := hours[..|hours| - 1];
      assert hours == front + [hours[|hours| - 1]];
      OnlyHour(front, h);
    }
  }

  lemma {:induction false} FilterAscends(hours: seq<int>, p: int -> bool)
    requires forall i, j :: 0 <= i < j < |hours| ==> hours[i] < hours[j]
    ensures var kept := Filter(hours, p);
            && (forall i, j :: 0 <= i < j < |kept| ==> kept[i] < kept[j])
            && (forall h :: h in kept <==> h in hours && p(h))
  {
    if hours != [] {
      var front, last := hours[..|hours| - 1], hours[|hours| - 1];
      assert hours == front + [last];
      FilterAscends(front, p);
      var kept := Filter(front, p);
      forall i | 0 <= i < |kept| ensures kept[i] < last {
        assert kept[i] in kept;
        var j :| 0 <= j < |front| && front[j] == kept[i];
        assert hours[j] == front[j];
      }
    }
  }

  /** What the grouped query says of the complete hours of a window. */
  ghost predicate SeriesExact(w: World, since: int, until: int, filter: set<Iata>) {
    var complete := CompleteIn(w.tables, since, until);
    && (forall h :: h in complete <==> h in HoursIn(since, until) && IsComplete(w.tables, h))
    && Describes(GroupValues(w.tables, complete, None, filter), w.ever, complete, filter)
    && forall h :: h in complete ==> Describes(GroupValues(w.tables, complete, Some(h), filter), w.ever, [h], filter)
  }

  lemma ReadIsExact(w: World, since: int, until: int, filter: set<Iata>)
    requires Inv(w)
    ensures SeriesExact(w, since, until, filter)
  {
    var complete := CompleteIn(w.tables, since, until);
    FilterAscends(HoursIn(since, until), IsCompleteIn(w.tables));
    forall h | h in complete ensures Holds(w.tables, w.ever, h) { CompleteHolds(w, h); }
    SumsExact(w, complete, None, filter);
    SetsExact(w, complete, None, filter);
    FilterAll(complete, Grouped(None));
    forall h | h in complete ensures Describes(GroupValues(w.tables, complete, Some(h), filter), w.ever, [h], filter) {
      SumsExact(w, complete, Some(h), filter);
      SetsExact(w, complete, Some(h), filter);
      OnlyHour(complete, h);
    }
  }

  /** End to end, in every reachable state: each complete hour of the series, and its summary over the complete hours,
      say what a scan of every observation ever heard in those hours says, for every IATA filter. */
  lemma SeriesIsExact(now: int, steps: seq<Step>, since: int, until: int, filter: set<Iata>)
    requires IsRun(Start(now), steps)
    ensures SeriesExact(After(Start(now), steps), since, until, filter)
  {
    RunKeepsInv(Start(now), steps);
    ReadIsExact(After(Start(now), steps), since, until, filter);
  }

  // ---- the response ----

  /** The hours listed: every full hour from since on that starts below until, in order. */
  lemma {:induction false} HoursAre(since: int, until: int)
    ensures var hours := HoursIn(since, until);
            && (forall i :: 0 <= i < |hours| ==> hours[i] == since + i * 3_600_000_000)
            && (forall i: nat :: since + i * 3_600_000_000 < until <==> i < |hours|)
            && (forall h :: h in hours <==> since <= h < until && (h - since) % 3_600_000_000 == 0)
    decreases Max(until - since, 0)
  {
    var hours := HoursIn(since, until);
    if since < until {
      var rest := HoursIn(since + HOUR, until);
      HoursAre(since + HOUR, until);
      forall i | 0 <= i < |hours| ensures hours[i] == since + i * 3_600_000_000 {
        if i > 0 { assert hours[i] == rest[i - 1]; }
      }
      forall i: nat ensures since + i * 3_600_000_000 < until <==> i < |hours| {
        if i > 0 { assert since + HOUR + (i - 1) * 3_600_000_000 < until <==> i - 1 < |rest|; }
      }
      forall h ensures h in hours <==> since <= h < until && (h - since) % 3_600_000_000 == 0 {
        SameRest(h - since);
        assert h in hours <==> h == since || h in rest;
      }
    }
  }

  lemma SameRest(d: int)
    ensures (d - 3_600_000_000) % 3_600_000_000 == d % 3_600_000_000
    ensures 0 <= d < 3_600_000_000 && d % 3_600_000_000 == 0 ==> d == 0
  {
    DivUnique(d - 3_600_000_000, 3_600_000_000, d / 3_600_000_000 - 1, d % 3_600_000_000);
  }

  ghost predicate StoredComplete(t: Tables, h: int) {
    h in t.hours && t.hours[h].status == Complete
  }

  /** One hour of a response: its time in milliseconds, its stored status or missing, and values exactly if it is
      complete. */
  ghost predicate HourIsExact(w: World, hour: SeriesHour, h: int, filter: set<Iata>) {
    && hour.hour == h / 1000
    && hour.status == (if h in w.tables.hours then w.tables.hours[h].status else Missing)
    && (hour.values.Some? <==> StoredComplete(w.tables, h))
    && (hour.values.Some? ==> Describes(hour.values.value, w.ever, [h], filter))
  }

  /** The complete hours of a window, in order. */
  ghost predicate CompleteHours(t: Tables, since: int, until: int, complete: seq<int>) {
    && (forall i, j :: 0 <= i < j < |complete| ==> complete[i] < complete[j])
    && (forall h :: h in complete <==> since <= h < until && (h - since) % 3_600_000_000 == 0 && StoredComplete(t, h))
  }

  ghost predicate ResponseExact(w: World, since: int, until: int, filter: set<Iata>, out: Series) {
    && out.since == since / 1000 && out.until == until / 1000
    && (forall i: nat :: i < |out.hours| <==> since + i * 3_600_000_000 < until)
    && (forall i :: 0 <= i < |out.hours| ==> HourIsExact(w, out.hours[i], since + i * 3_600_000_000, filter))
    && exists complete ::
         && CompleteHours(w.tables, since, until, complete)
         && Describes(out.summary, w.ever, complete, filter) && out.completeHours == |complete|
  }

  /** The whole response, when its rows are read in a reachable state: each hour of the window in order, and a
      summary and a count over exactly the complete ones. */
  lemma ResponseIsExact(now: int, steps: seq<Step>, atRevision: Tables, atEarliest: Tables, since: int, until: int,
                        filter: set<Iata>, out: Series)
    requires IsRun(Start(now), steps)
    requires Answers(out, atRevision, atEarliest, After(Start(now), steps).tables, since, until, filter)
    ensures ResponseExact(After(Start(now), steps), since, until, filter, out)
  {
    var w := After(Start(now), steps);
    SeriesIsExact(now, steps, since, until, filter);
    ResponseOfRows(w, since, until, filter, out);
  }

  lemma ResponseOfRows(w: World, since: int, until: int, filter: set<Iata>, out: Series)
    requires SeriesExact(w, since, until, filter)
    requires out.since == since / 1000 && out.until == until / 1000
    requires out.hours == HoursShown(w.tables, since, until, filter)
    requires out.summary == GroupValues(w.tables, CompleteIn(w.tables, since, until), None, filter)
    requires out.completeHours == |CompleteIn(w.tables, since, until)|
    ensures ResponseExact(w, since, until, filter, out)
  {
    CompletesAre(w.tables, since, until);
    ListedCount(w.tables, since, until, filter);
    forall i | 0 <= i < |out.hours| ensures HourIsExact(w, out.hours[i], since + i * 3_600_000_000, filter) {
      ListedHour(w, since, until, filter, i);
    }
  }

  lemma CompletesAre(t: Tables, since: int, until: int)
    ensures CompleteHours(t, since, until, CompleteIn(t, since, until))
  {
    HoursAre(since, until);
    FilterAscends(HoursIn(since, until), IsCompleteIn(t));
    forall h
      ensures h in CompleteIn(t, since, until)
              <==> since <= h < until && (h - since) % 3_600_000_000 == 0 && StoredComplete(t, h)
    {
      assert h in CompleteIn(t, since, until) <==> h in HoursIn(since, until) && IsCompleteIn(t)(h);
    }
  }

  lemma ListedCount(t: Tables, since: int, until: int, filter: set<Iata>)
    ensures forall i: nat :: i < |HoursShown(t, since, until, filter)| <==> since + i * 3_600_000_000 < until
  {
    HoursAre(since, until);
  }

  lemma ListedHour(w: World, since: int, until: int, filter: set<Iata>, i: nat)
    requires i < |HoursIn(since, until)|
    requires forall h :: h in CompleteIn(w.tables, since, until) ==>
               Describes(GroupValues(w.tables, CompleteIn(w.tables, since, until), Some(h), filter), w.ever, [h],
                         filter)
    ensures HourIsExact(w, HoursShown(w.tables, since, until, filter)[i], since + i * 3_600_000_000, filter)
  {
    var dates, complete := HoursIn(since, until), CompleteIn(w.tables, since, until);
    HoursAre(since, until);
    FilterAscends(dates, IsCompleteIn(w.tables));
    assert dates[i] in dates;
  }

  // ---- caching ----

  ghost predicate ShowsSame(t: Tables, t': Tables) {
    forall h: int :: ShownHour(t, h) == ShownHour(t', h)
  }

  lemma {:induction false} JoinedAgrees<K, A>(hours: seq<int>, part: int -> seq<(K, A)>, part': int -> seq<(K, A)>)
    requires forall h :: h in hours ==> part(h) == part'(h)
    ensures Joined(hours, part) == Joined(hours, part')
  {
    if hours != [] {
      assert hours == hours[..|hours| - 1] + [hours[|hours| - 1]];
      JoinedAgrees(hours[..|hours| - 1], part, part');
    }
  }

  /** The query reads nothing of an hour but what the hour shows. */
  lemma ValuesOfShown(t: Tables, t': Tables, complete: seq<int>, group: Option<int>, filter: set<Iata>)
    requires forall h :: h in complete ==> At(t.content, h) == At(t'.content, h)
    ensures GroupValues(t, complete, group, filter) == GroupValues(t', complete, group, filter)
  {
    forall h | h in complete ensures SameParts(t, t', h) {}
    JoinedAgrees(complete, (h: int) => IatasAt(t, h), (h: int) => IatasAt(t', h));
    JoinedAgrees(complete, (h: int) => PacketsAt(t, h), (h: int) => PacketsAt(t', h));
    JoinedAgrees(complete, (h: int) => ObserversAt(t, h), (h: int) => ObserversAt(t', h));
    JoinedAgrees(complete, (h: int) => ScopesAt(t, h), (h: int) => ScopesAt(t', h));
    JoinedAgrees(complete, (h: int) => PathsAt(t, h), (h: int) => PathsAt(t', h));
    JoinedAgrees(complete, (h: int) => SignalAt(t, h), (h: int) => SignalAt(t', h));
  }

  ghost predicate SameParts(t: Tables, t': Tables, h: int) {
    && IatasAt(t, h) == IatasAt(t', h) && PacketsAt(t, h) == PacketsAt(t', h) && ObserversAt(t, h) == ObserversAt(t', h)
    && ScopesAt(t, h) == ScopesAt(t', h) && PathsAt(t, h) == PathsAt(t', h) && SignalAt(t, h) == SignalAt(t', h)
  }

  lemma SameCompletes(t: Tables, t': Tables, since: int, until: int)
    requires ShowsSame(t, t')
    ensures CompleteIn(t, since, until) == CompleteIn(t', since, until)
    ensures forall h :: h in CompleteIn(t, since, until) ==> At(t.content, h) == At(t'.content, h)
  {
    var dates := HoursIn(since, until);
    forall h ensures IsComplete(t, h) == IsComplete(t', h) { assert ShownHour(t, h) == ShownHour(t', h); }
    FilterAgrees(dates, IsCompleteIn(t), IsCompleteIn(t'));
    forall h | h in CompleteIn(t, since, until) ensures At(t.content, h) == At(t'.content, h) {
      FilterMember(dates, IsCompleteIn(t), h);
      assert ShownHour(t, h) == ShownHour(t', h);
    }
  }

  lemma SeriesOfShown(t: Tables, t': Tables, since: int, until: int, filter: set<Iata>)
    requires ShowsSame(t, t')
    ensures CompleteIn(t, since, until) == CompleteIn(t', since, until)
    ensures HoursShown(t, since, until, filter) == HoursShown(t', since, until, filter)
    ensures GroupValues(t, CompleteIn(t, since, until), None, filter)
            == GroupValues(t', CompleteIn(t', since, until), None, filter)
  {
    SameCompletes(t, t', since, until);
    ValuesOfShown(t, t', CompleteIn(t, since, until), None, filter);
    HoursOfShown(t, t', since, until, filter, CompleteIn(t, since, until));
  }

  lemma HoursOfShown(t: Tables, t': Tables, since: int, until: int, filter: set<Iata>, complete: seq<int>)
    requires ShowsSame(t, t') && complete == CompleteIn(t, since, until) == CompleteIn(t', since, until)
    requires forall h :: h in complete ==> At(t.content, h) == At(t'.content, h)
    ensures HoursShown(t, since, until, filter) == HoursShown(t', since, until, filter)
  {
    var dates := HoursIn(since, until);
    forall i | 0 <= i < |dates|
      ensures HourOf(QueryRow(t, complete, filter, dates[i])) == HourOf(QueryRow(t', complete, filter, dates[i]))
    {
      HourOfShown(t, t', complete, dates[i], filter);
    }
  }

  lemma HourOfShown(t: Tables, t': Tables, complete: seq<int>, h: int, filter: set<Iata>)
    requires ShownHour(t, h) == ShownHour(t', h) && forall c :: c in complete ==> At(t.content, c) == At(t'.content, c)
    ensures HourOf(QueryRow(t, complete, filter, h)) == HourOf(QueryRow(t', complete, filter, h))
  {
    ValuesOfShown(t, t', complete, Some(h), filter);
  }

  lemma SameEarliest(t: Tables, t': Tables, earliest: Option<int>, earliest': Option<int>)
    requires ShowsSame(t, t') && IsEarliest(t, earliest) && IsEarliest(t', earliest')
    ensures earliest == earliest'
  {
    forall h ensures IsComplete(t, h) == IsComplete(t', h) { assert ShownHour(t, h) == ShownHour(t', h); }
  }

  lemma SameAnswers(first: Tables, second: Tables, third: Tables, now: Tables, since: int, until: int,
                    filter: set<Iata>, cached: Series,
                    again: Series)
    requires Answers(cached, first, second, third, since, until, filter)
             && Answers(again, now, now, now, since, until, filter)
    requires Revision(first) == Revision(now) && ShowsSame(second, now) && ShowsSame(third, now)
    ensures cached == again
  {
    SeriesOfShown(third, now, since, until, filter);
    var e :| IsEarliest(second, e) && cached.earliestComplete == if e.None? then None else Some(e.value / 1000);
    var e' :| IsEarliest(now, e') && again.earliestComplete == if e'.None? then None else Some(e'.value / 1000);
    SameEarliest(second, now, e, e');
  }

  /** Caching is sound: a response that read its revision in one state, its earliest hour in a later one and its
      rows in a still later one is, field for field, the response a fresh read gives for as long as the revision is
      the one it reports. */
  lemma CachedResponseIsFresh(w: World, untilEarliest: seq<Step>, untilRows: seq<Step>, later: seq<Step>, since: int,
                              until: int,
                              filter: set<Iata>, cached: Series, again: Series)
    requires Inv(w) && IsRun(w, untilEarliest) && IsRun(After(w, untilEarliest), untilRows)
    requires IsRun(After(After(w, untilEarliest), untilRows), later)
    requires var w1 := After(w, untilEarliest);
             var w2 := After(w1, untilRows);
             var now := After(w2, later);
             && Answers(cached, w.tables, w1.tables, w2.tables, since, until, filter)
             && Answers(again, now.tables, now.tables, now.tables, since, until, filter)
             && Revision(now.tables) == cached.revision
    ensures cached == again
  {
    var w1 := After(w, untilEarliest);
    var w2 := After(w1, untilRows);
    var now := After(w2, later);
    RunKeepsInv(w, untilEarliest);
    RunKeepsInv(w1, untilRows);
    RevisionValidates(w, untilEarliest);
    RevisionValidates(w1, untilRows);
    RevisionValidates(w2, later);
    SameAnswers(w.tables, w1.tables, w2.tables, now.tables, since, until, filter, cached, again);
  }
}
