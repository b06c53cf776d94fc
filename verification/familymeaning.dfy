/** What every stored row of the hourly families says of the hour's observations, in the observations' own columns. */
module FamilyMeaning {
  import opened Base
  import opened Grouping
  import opened Sorting
  import opened SetBuckets
  import opened Families
  import opened DistinctCounts
  import opened RowColumns
  import opened World
  import opened Protocol
  import opened RunTheorems
  import P = ActivityPoints

  // ---- tables with one row per key ----

  ghost predicate Heard<K>(rows: seq<Row>, of: (Row, K) -> bool, k: K) {
    exists r :: r in rows && of(r, k)
  }

  /** One stored row for every key that some observation belongs to. */
  ghost predicate Tabulates<K(!new), A>(table: seq<(K, A)>, rows: seq<Row>, of: (Row, K) -> bool) {
    DistinctKeys(table) && forall k: K :: k in Keys(table) <==> Heard(rows, of, k)
  }

  function With<K>(of: (Row, K) -> bool, k: K): Row -> bool {
    (r: Row) => of(r, k)
  }

  /** Every stored value says this of the observations of its key. */
  ghost predicate Says<K, A>(table: seq<(K, A)>, rows: seq<Row>, of: (Row, K) -> bool, says: (A, seq<Row>) -> bool) {
    forall i :: 0 <= i < |table| ==> says(table[i].1, Filter(rows, With(of, table[i].0)))
  }

  ghost predicate Selects<K(!new), A>(f: Row -> Option<(K, A)>, of: (Row, K) -> bool) {
    forall r: Row, k: K :: of(r, k) <==> f(r).Some? && f(r).value.0 == k
  }

  ghost predicate Grows<K, A(!new)>(f: Row -> Option<(K, A)>, op: (A, A) -> A, says: (A, seq<Row>) -> bool) {
    forall a: A, rows: seq<Row>, r: Row :: says(a, rows) && f(r).Some? ==> says(op(a, f(r).value.1), rows + [r])
  }

  lemma {:induction false} TotalSays<K(!new), A(!new)>(rows: seq<Row>, f: Row -> Option<(K, A)>, of: (Row, K) -> bool,
                                                       k: K, op: (A, A) -> A, unit: A, says: (A, seq<Row>) -> bool)
    requires Selects(f, of) && Grows(f, op, says) && says(unit, [])
    ensures says(Total(Collect(rows, f), Key(k), op, unit), Filter(rows, With(of, k)))
  {
    if rows != [] {
      var front, r, items := rows[..|rows| - 1], rows[|rows| - 1], Collect(rows, f);
      TotalSays(front, f, of, k, op, unit, says);
      assert of(r, k) <==> f(r).Some? && f(r).value.0 == k;
      if f(r).Some? { assert items[..|items| - 1] == Collect(front, f); }
    }
  }

  lemma KeysHeard<K(!new), A>(rows: seq<Row>, f: Row -> Option<(K, A)>, of: (Row, K) -> bool, k: K)
    requires Selects(f, of)
    ensures k in Keys(Collect(rows, f)) <==> Heard(rows, of, k)
  {
    var items := Collect(rows, f);
    if k in Keys(items) {
      var i :| 0 <= i < |items| && items[i].0 == k;
      CollectItems(rows, f, items[i]);
      var r :| r in rows && f(r) == Some(items[i]);
      assert of(r, k);
    }
    if r :| r in rows && of(r, k) {
      CollectItems(rows, f, f(r).value);
      var i :| 0 <= i < |items| && items[i] == f(r).value;
      assert items[i].0 == k;
    }
  }

  /** Grouping is tabulation. */
  lemma GroupTabulates<K(!new), A(!new)>(rows: seq<Row>, f: Row -> Option<(K, A)>, of: (Row, K) -> bool)
    requires Selects(f, of)
    ensures forall op: (A, A) -> A :: Tabulates(GroupBy(Collect(rows, f), op), rows, of)
  {
    forall op: (A, A) -> A ensures Tabulates(GroupBy(Collect(rows, f), op), rows, of) {
      GroupKeys(Collect(rows, f), op);
      forall k: K ensures k in Keys(GroupBy(Collect(rows, f), op)) <==> Heard(rows, of, k) {
        KeysHeard(rows, f, of, k);
      }
    }
  }

  lemma GroupSays<K(!new), A(!new)>(rows: seq<Row>, f: Row -> Option<(K, A)>, of: (Row, K) -> bool, op: (A, A) -> A,
                                    unit: A, says: (A, seq<Row>) -> bool)
    requires Selects(f, of) && Grows(f, op, says) && says(unit, []) && CommutativeMonoid(op, unit)
    ensures Says(GroupBy(Collect(rows, f), op), rows, of, says)
  {
    var table := GroupBy(Collect(rows, f), op);
    forall i | 0 <= i < |table| ensures says(table[i].1, Filter(rows, With(of, table[i].0))) {
      GroupValue(Collect(rows, f), i, op, unit);
      TotalSays(rows, f, of, table[i].0, op, unit, says);
    }
  }

  // ---- what the values say ----

  ghost function Counted(): (int, seq<Row>) -> bool {
    (n: int, rows: seq<Row>) => n == |rows|
  }

  ghost predicate IsLastHeard(at: int, rows: seq<Row>) {
    (exists r :: r in rows && r.heardAt == at) && forall r :: r in rows ==> r.heardAt <= at
  }

  ghost function HeardLast(): (Hearings, seq<Row>) -> bool {
    (a: Hearings, rows: seq<Row>) => a.observations == |rows| && (rows != [] ==> IsLastHeard(a.lastHeard, rows))
  }

  ghost predicate SumsSignal(a: SignalSums, rows: seq<Row>) {
    && a.receptions == |rows|
    && a.snrSamples == P.CountOf(rows, P.WithSnr()) && a.snrSum == P.SumOf(rows, P.WithSnr(), P.Snr())
    && a.rssiSamples == P.CountOf(rows, P.WithRssi()) && a.rssiSum == P.SumOf(rows, P.WithRssi(), P.Rssi())
  }

  ghost function Summed(): (SignalSums, seq<Row>) -> bool {
    (a: SignalSums, rows: seq<Row>) => SumsSignal(a, rows)
  }

  ghost function Aggregated(): (Activity, seq<Row>) -> bool {
    (a: Activity, rows: seq<Row>) => P.Sums(a, rows)
  }

  // ---- which observations belong to a row ----

  function OfSite(): (Row, Iata) -> bool { (r: Row, k: Iata) => r.iata == k }

  function OfPayload(): (Row, PayloadKey) -> bool {
    (r: Row, k: PayloadKey) => r.iata == k.iata && r.payloadType == Some(k.payloadType)
  }

  ghost function OfPath(): (Row, PathKey) -> bool {
    (r: Row, k: PathKey) =>
      r.iata == k.iata
      && if k.category == 0 then IsRouted(r) && r.hashSize == k.hashBytes && r.hopCount == k.entries
         else k.hashBytes == 0 && k.entries == 0
              && if k.category == 1 then IsZeroHop(r) else if k.category == 2 then IsTrace(r)
                 else k.category == 3 && IsUnclassified(r)
  }

  /** An observation without a payload type is filed under -1. */
  function OfObserver(): (Row, ActivityKey) -> bool {
    (r: Row, k: ActivityKey) =>
      r.observer == k.observer
      && if r.payloadType.Some? then r.payloadType.value == k.payloadType else k.payloadType == -1
  }

  function OfIdentity(): (Row, IdentityKey) -> bool {
    (r: Row, k: IdentityKey) => r.iata == k.iata && r.observer == k.observer
  }

  function OfOrigin(): (Row, OriginKey) -> bool {
    (r: Row, k: OriginKey) => r.iata == k.iata && r.payloadType == Some(4) && r.originPubkey == Some(k.originPubkey)
  }

  function OfScopeObserver(): (Row, ScopeObserverKey) -> bool {
    (r: Row, k: ScopeObserverKey) => r.iata == k.iata && r.scopeId == Some(k.scopeId) && r.observer == k.observer
  }

  function OfScopeNode(): (Row, ScopeNodeKey) -> bool {
    (r: Row, k: ScopeNodeKey) =>
      r.iata == k.iata && r.scopeId == Some(k.scopeId) && r.payloadType == Some(4)
      && r.originPubkey == Some(k.originPubkey)
  }

  // ---- the families of one row per key ----

  lemma SiteRows(rows: seq<Row>)
    ensures Tabulates(Roll(IataObservations, rows, map[]).iatas, rows, OfSite())
    ensures Says(Roll(IataObservations, rows, map[]).iatas, rows, OfSite(), Counted())
  {
    GroupTabulates(rows, IataItem, OfSite());
    GroupSays(rows, IataItem, OfSite(), Plus, 0, Counted());
  }

  lemma PayloadRowsSay(rows: seq<Row>)
    ensures Tabulates(Roll(PayloadBreakdown, rows, map[]).payloads, rows, OfPayload())
    ensures Says(Roll(PayloadBreakdown, rows, map[]).payloads, rows, OfPayload(), Counted())
  {
    GroupTabulates(rows, PayloadItem, OfPayload());
    GroupSays(rows, PayloadItem, OfPayload(), Plus, 0, Counted());
  }

  lemma PathSelects()
    ensures Selects(PathItem, OfPath())
  {
    forall r: Row, k: PathKey ensures OfPath()(r, k) <==> PathItem(r).Some? && PathItem(r).value.0 == k {
      CategoryOfColumns(r);
    }
  }

  lemma PathRowsSay(rows: seq<Row>)
    ensures Tabulates(Roll(Paths, rows, map[]).paths, rows, OfPath())
    ensures Says(Roll(Paths, rows, map[]).paths, rows, OfPath(), Counted())
  {
    PathSelects();
    GroupTabulates(rows, PathItem, OfPath());
    GroupSays(rows, PathItem, OfPath(), Plus, 0, Counted());
  }

  lemma ActivitySelects()
    ensures Selects(ActivityItem, OfObserver())
  {
    forall r: Row, k: ActivityKey
      ensures OfObserver()(r, k) <==> ActivityItem(r).Some? && ActivityItem(r).value.0 == k
    {
      assert ActivityItem(r).value.0
          == ActivityKey(r.observer, if r.payloadType.Some? then r.payloadType.value else -1);
      assert k == ActivityKey(k.observer, k.payloadType);
    }
  }

  lemma ActivityRowsSay(rows: seq<Row>)
    ensures Tabulates(Roll(ObserverActivity, rows, map[]).activity, rows, OfObserver())
    ensures Says(Roll(ObserverActivity, rows, map[]).activity, rows, OfObserver(), Aggregated())
  {
    ActivitySelects();
    GroupTabulates(rows, ActivityItem, OfObserver());
    forall a: Activity, some: seq<Row>, r: Row | Aggregated()(a, some) && ActivityItem(r).Some?
      ensures Aggregated()(PlusActivity(a, ActivityItem(r).value.1), some + [r])
    {
      P.SumsSnoc(a, some, r);
    }
    ActivityMonoid();
    GroupSays(rows, ActivityItem, OfObserver(), PlusActivity, NO_ACTIVITY, Aggregated());
  }

  lemma IdentityRowsSay(rows: seq<Row>)
    ensures Tabulates(Roll(ObserverIdentity, rows, map[]).identities, rows, OfIdentity())
    ensures Says(Roll(ObserverIdentity, rows, map[]).identities, rows, OfIdentity(), Counted())
  {
    GroupTabulates(rows, IdentityItem, OfIdentity());
    GroupSays(rows, IdentityItem, OfIdentity(), Plus, 0, Counted());
  }

  lemma ScopeRowsSay(rows: seq<Row>)
    ensures Tabulates(Roll(ScopeObservers, rows, map[]).scopeObservers, rows, OfScopeObserver())
    ensures Tabulates(Roll(ScopeNodes, rows, map[]).scopeNodes, rows, OfScopeNode())
  {
    GroupTabulates(rows, ScopeObserverItem, OfScopeObserver());
    GroupTabulates(rows, ScopeNodeItem, OfScopeNode());
  }

  // ---- advert hearings: the latest time has no neutral element, so group by group ----

  lemma {:induction false} AddedValue<K, A>(groups: seq<(K, A)>, key: K, value: A, op: (A, A) -> A, i: nat)
    requires DistinctKeys(groups) && i < |Add(groups, key, value, op)|
    ensures var g := Add(groups, key, value, op)[i];
            if g.0 != key then g in groups
            else if key in Keys(groups)
            then exists j :: 0 <= j < |groups| && groups[j].0 == key && g.1 == op(groups[j].1, value)
            else g.1 == value
  {
    if groups != [] {
      var front, last := groups[..|groups| - 1], groups[|groups| - 1];
      KeysSnoc(groups);
      if last.0 == key {
        assert groups[|groups| - 1].0 == key;
        if i < |front| { assert front[i] == groups[i]; }
      } else if i < |Add(front, key, value, op)| {
        AddedValue(front, key, value, op, i);
      }
    }
  }

  lemma LastGrows(a: Hearings, some: seq<Row>, r: Row)
    requires HeardLast()(a, some) && some != []
    ensures HeardLast()(PlusHearings(a, Hearings(1, r.heardAt)), some + [r])
  {
    var all, b := some + [r], PlusHearings(a, Hearings(1, r.heardAt));
    var last :| last in some && last.heardAt == a.lastHeard;
    assert r in all && last in all;
    assert b.lastHeard == a.lastHeard || b.lastHeard == r.heardAt;
    assert IsLastHeard(b.lastHeard, all);
  }

  lemma LastOfOne(r: Row)
    ensures HeardLast()(Hearings(1, r.heardAt), [] + [r])
  {
    assert r in [] + [r];
  }

  lemma NotHeard<K>(rows: seq<Row>, of: (Row, K) -> bool, k: K)
    requires !Heard(rows, of, k)
    ensures Filter(rows, With(of, k)) == []
  {
    FilterNone(rows, With(of, k));
  }

  lemma OriginSelects()
    ensures Selects(AdvertHearingItem, OfOrigin())
  {
  }

  ghost predicate GroupHolds(g: (OriginKey, Hearings), rows: seq<Row>) {
    var kept := Filter(rows, With(OfOrigin(), g.0));
    kept != [] && HeardLast()(g.1, kept)
  }

  lemma HearingStep(before: seq<(OriginKey, Hearings)>, front: seq<Row>, r: Row, g: (OriginKey, Hearings))
    requires before == GroupBy(Collect(front, AdvertHearingItem), PlusHearings) && AdvertHearingItem(r).Some?
    requires forall j :: 0 <= j < |before| ==> GroupHolds(before[j], front)
    requires g in Add(before, AdvertHearingItem(r).value.0, AdvertHearingItem(r).value.1, PlusHearings)
    ensures GroupHolds(g, front + [r])
  {
    var (key, value) := AdvertHearingItem(r).value;
    var added := Add(before, key, value, PlusHearings);
    assert (front + [r])[..|front|] == front;
    GroupKeys(Collect(front, AdvertHearingItem), PlusHearings);
    var i :| 0 <= i < |added| && added[i] == g;
    AddedValue(before, key, value, PlusHearings, i);
    OriginSelects();
    var kept := Filter(front, With(OfOrigin(), g.0));
    assert OfOrigin()(r, g.0) <==> key == g.0;
    if g.0 == key {
      if key in Keys(before) {
        var j :| 0 <= j < |before| && before[j].0 == key && g.1 == PlusHearings(before[j].1, value);
        LastGrows(before[j].1, kept, r);
      } else {
        KeysHeard(front, AdvertHearingItem, OfOrigin(), key);
        NotHeard(front, OfOrigin(), key);
        LastOfOne(r);
      }
    }
  }

  lemma {:induction false} HearingGroups(rows: seq<Row>, g: (OriginKey, Hearings))
    requires g in GroupBy(Collect(rows, AdvertHearingItem), PlusHearings)
    ensures GroupHolds(g, rows)
  {
    if rows != [] {
      var front, r := rows[..|rows| - 1], rows[|rows| - 1];
      assert rows == front + [r];
      var items, before := Collect(rows, AdvertHearingItem), GroupBy(Collect(front, AdvertHearingItem), PlusHearings);
      forall j | 0 <= j < |before| ensures GroupHolds(before[j], front) { HearingGroups(front, before[j]); }
      if AdvertHearingItem(r).Some? {
        assert items[..|items| - 1] == Collect(front, AdvertHearingItem);
        HearingStep(before, front, r, g);
      } else {
        assert GroupHolds(g, front);
        assert !OfOrigin()(r, g.0);
      }
    }
  }

  lemma HearingRowsSay(rows: seq<Row>)
    ensures Tabulates(Roll(AdvertHearings, rows, map[]).hearings, rows, OfOrigin())
    ensures Says(Roll(AdvertHearings, rows, map[]).hearings, rows, OfOrigin(), HeardLast())
  {
    OriginSelects();
    GroupTabulates(rows, AdvertHearingItem, OfOrigin());
    var table := GroupBy(Collect(rows, AdvertHearingItem), PlusHearings);
    forall i | 0 <= i < |table| ensures HeardLast()(table[i].1, Filter(rows, With(OfOrigin(), table[i].0))) {
      HearingGroups(rows, table[i]);
    }
  }

  // ---- signal: totals, and one row per bin of either reading ----

  /** SNR bins 1 to 12 are 5 wide from -30; 0 and 13 lie outside, -1 is not reported. */
  ghost predicate InSnrBin(r: Row, bin: int) {
    if !HasSnr(r) then bin == -1
    else 0 <= bin <= 13 && (bin > 0 ==> r.snr.value >= 5.0 * (bin as real) - 35.0)
         && (bin < 13 ==> r.snr.value < 5.0 * (bin as real) - 30.0)
  }

  /** RSSI bins 1 to 14 are 10 wide from -140; 0 and 15 lie outside, -1 is not reported. */
  ghost predicate InRssiBin(r: Row, bin: int) {
    if !HasRssi(r) then bin == -1
    else 0 <= bin <= 15 && (bin > 0 ==> r.rssi.value >= 10 * bin - 150) && (bin < 15 ==> r.rssi.value < 10 * bin - 140)
  }

  function OfTotal(): (Row, SignalKey) -> bool {
    (r: Row, k: SignalKey) => r.iata == k.iata && k.kind == 3 && k.snrBin == -1 && k.rssiBin == -1
  }

  ghost function OfSnrBin(): (Row, SignalKey) -> bool {
    (r: Row, k: SignalKey) => r.iata == k.iata && k.kind == 1 && InSnrBin(r, k.snrBin) && k.rssiBin == -1
  }

  ghost function OfRssiBin(): (Row, SignalKey) -> bool {
    (r: Row, k: SignalKey) => r.iata == k.iata && k.kind == 2 && k.snrBin == -1 && InRssiBin(r, k.rssiBin)
  }

  ghost function OfSignal(): (Row, SignalKey) -> bool {
    (r: Row, k: SignalKey) => OfTotal()(r, k) || OfSnrBin()(r, k) || OfRssiBin()(r, k)
  }

  lemma SnrBinIs(r: Row, bin: int)
    ensures InSnrBin(r, bin) <==> SnrBin(r) == bin
  {
    SnrOfColumns(r);
    if HasSnr(r) { FloorBin((r.snr.value + 30.0) / 5.0, bin); }
  }

  lemma RssiBinIs(r: Row, bin: int)
    ensures InRssiBin(r, bin) <==> RssiBin(r) == bin
  {
    RssiOfColumns(r);
    if HasRssi(r) { FloorBin((r.rssi.value as real + 140.0) / 10.0, bin); }
  }

  lemma FloorBin(x: real, bin: int)
    ensures x.Floor + 1 == bin <==> bin as real - 1.0 <= x < bin as real
  {
  }

  lemma SignalSelects()
    ensures Selects(SignalTotalItem, OfTotal()) && Selects(SnrBinItem, OfSnrBin()) && Selects(RssiBinItem, OfRssiBin())
  {
    forall r: Row, k: SignalKey
      ensures OfSnrBin()(r, k) <==> SnrBinItem(r).Some? && SnrBinItem(r).value.0 == k
      ensures OfRssiBin()(r, k) <==> RssiBinItem(r).Some? && RssiBinItem(r).value.0 == k
    {
      SnrBinIs(r, k.snrBin);
      RssiBinIs(r, k.rssiBin);
    }
  }

  lemma SummedGrows(a: SignalSums, some: seq<Row>, r: Row)
    requires SumsSignal(a, some)
    ensures SumsSignal(PlusSignal(a, SignalOf(r)), some + [r])
  {
    var all := some + [r];
    assert all[..|all| - 1] == some && all[|all| - 1] == r;
    assert P.WithSnr()(r) == HasSnr(r) && P.WithRssi()(r) == HasRssi(r);
    SnrOfColumns(r);
    RssiOfColumns(r);
  }

  lemma SignalGrows()
    ensures Grows(SignalTotalItem, PlusSignal, Summed()) && Grows(SnrBinItem, PlusSignal, Summed())
    ensures Grows(RssiBinItem, PlusSignal, Summed()) && Summed()(NO_SIGNAL, [])
  {
    assert SumsSignal(NO_SIGNAL, []);
    forall a: SignalSums, some: seq<Row>, r: Row | Summed()(a, some)
      ensures Summed()(PlusSignal(a, SignalOf(r)), some + [r])
    {
      SummedGrows(a, some, r);
    }
  }

  function SignalItems(rows: seq<Row>): seq<(SignalKey, SignalSums)> {
    Collect(rows, SignalTotalItem) + Collect(rows, SnrBinItem) + Collect(rows, RssiBinItem)
  }

  lemma KeysConcat<K, A>(a: seq<(K, A)>, b: seq<(K, A)>)
    ensures Keys(a + b) == Keys(a) + Keys(b)
  {
    forall k | k in Keys(a) + Keys(b) ensures k in Keys(a + b) {
      if k in Keys(a) {
        var i :| 0 <= i < |a| && a[i].0 == k;
        assert (a + b)[i].0 == k;
      } else {
        var i :| 0 <= i < |b| && b[i].0 == k;
        assert (a + b)[|a| + i].0 == k;
      }
    }
  }

  lemma SignalKeys(rows: seq<Row>, k: SignalKey)
    ensures k in Keys(SignalItems(rows)) <==> Heard(rows, OfSignal(), k)
  {
    SignalSelects();
    var a, b, c := Collect(rows, SignalTotalItem), Collect(rows, SnrBinItem), Collect(rows, RssiBinItem);
    KeysConcat(a, b);
    KeysConcat(a + b, c);
    KeysHeard(rows, SignalTotalItem, OfTotal(), k);
    KeysHeard(rows, SnrBinItem, OfSnrBin(), k);
    KeysHeard(rows, RssiBinItem, OfRssiBin(), k);
    if Heard(rows, OfSignal(), k) {
      var r :| r in rows && OfSignal()(r, k);
      assert OfTotal()(r, k) || OfSnrBin()(r, k) || OfRssiBin()(r, k);
    }
    if r :| r in rows && (OfTotal()(r, k) || OfSnrBin()(r, k) || OfRssiBin()(r, k)) { assert OfSignal()(r, k); }
  }

  /** An observation belongs to one row of each kind, so the three sums do not mix. */
  lemma OneKind(rows: seq<Row>, k: SignalKey)
    ensures var kept := Filter(rows, With(OfSignal(), k));
            var a, b, c := Filter(rows, With(OfTotal(), k)), Filter(rows, With(OfSnrBin(), k)),
                           Filter(rows, With(OfRssiBin(), k));
            || (kept == a && b == [] && c == [])
            || (a == [] && kept == b && c == [])
            || (a == [] && b == [] && kept == c)
  {
    forall r | r in rows
      ensures With(OfSignal(), k)(r) == if k.kind == 3 then With(OfTotal(), k)(r)
              else if k.kind == 1 then With(OfSnrBin(), k)(r) else With(OfRssiBin(), k)(r)
    {
      assert OfSignal()(r, k) == (OfTotal()(r, k) || OfSnrBin()(r, k) || OfRssiBin()(r, k));
    }
    if k.kind == 3 {
      FilterAgrees(rows, With(OfSignal(), k), With(OfTotal(), k));
    } else if k.kind == 1 {
      FilterAgrees(rows, With(OfSignal(), k), With(OfSnrBin(), k));
    } else {
      FilterAgrees(rows, With(OfSignal(), k), With(OfRssiBin(), k));
    }
    if k.kind != 3 { FilterNone(rows, With(OfTotal(), k)); }
    if k.kind != 1 { FilterNone(rows, With(OfSnrBin(), k)); }
    if k.kind != 2 { FilterNone(rows, With(OfRssiBin(), k)); }
  }

  lemma TotalOfThree(rows: seq<Row>, k: SignalKey)
    ensures Total(SignalItems(rows), Key(k), PlusSignal, NO_SIGNAL)
         == PlusSignal(PlusSignal(Total(Collect(rows, SignalTotalItem), Key(k), PlusSignal, NO_SIGNAL),
                                  Total(Collect(rows, SnrBinItem), Key(k), PlusSignal, NO_SIGNAL)),
                       Total(Collect(rows, RssiBinItem), Key(k), PlusSignal, NO_SIGNAL))
  {
    var a, b, c := Collect(rows, SignalTotalItem), Collect(rows, SnrBinItem), Collect(rows, RssiBinItem);
    SignalMonoid();
    TotalConcat(a, b, Key(k), PlusSignal, NO_SIGNAL);
    TotalConcat(a + b, c, Key(k), PlusSignal, NO_SIGNAL);
  }

  lemma EachSays(rows: seq<Row>, k: SignalKey)
    ensures SumsSignal(Total(Collect(rows, SignalTotalItem), Key(k), PlusSignal, NO_SIGNAL),
                       Filter(rows, With(OfTotal(), k)))
    ensures SumsSignal(Total(Collect(rows, SnrBinItem), Key(k), PlusSignal, NO_SIGNAL),
                       Filter(rows, With(OfSnrBin(), k)))
    ensures SumsSignal(Total(Collect(rows, RssiBinItem), Key(k), PlusSignal, NO_SIGNAL),
                       Filter(rows, With(OfRssiBin(), k)))
  {
    SignalSelects();
    SignalGrows();
    TotalSays(rows, SignalTotalItem, OfTotal(), k, PlusSignal, NO_SIGNAL, Summed());
    TotalSays(rows, SnrBinItem, OfSnrBin(), k, PlusSignal, NO_SIGNAL, Summed());
    TotalSays(rows, RssiBinItem, OfRssiBin(), k, PlusSignal, NO_SIGNAL, Summed());
  }

  lemma NothingSummed(a: SignalSums)
    ensures SumsSignal(a, []) ==> a == NO_SIGNAL
  {
  }

  lemma SignalTotals(rows: seq<Row>, k: SignalKey)
    ensures Summed()(Total(SignalItems(rows), Key(k), PlusSignal, NO_SIGNAL), Filter(rows, With(OfSignal(), k)))
  {
    var a := Total(Collect(rows, SignalTotalItem), Key(k), PlusSignal, NO_SIGNAL);
    var b := Total(Collect(rows, SnrBinItem), Key(k), PlusSignal, NO_SIGNAL);
    var c := Total(Collect(rows, RssiBinItem), Key(k), PlusSignal, NO_SIGNAL);
    TotalOfThree(rows, k);
    EachSays(rows, k);
    OneKind(rows, k);
    NothingSummed(a);
    NothingSummed(b);
    NothingSummed(c);
    SignalMonoid();
  }

  lemma SignalRowsSay(rows: seq<Row>)
    ensures Tabulates(Roll(Signal, rows, map[]).signals, rows, OfSignal())
    ensures Says(Roll(Signal, rows, map[]).signals, rows, OfSignal(), Summed())
  {
    var table := GroupBy(SignalItems(rows), PlusSignal);
    GroupKeys(SignalItems(rows), PlusSignal);
    forall k: SignalKey ensures k in Keys(table) <==> Heard(rows, OfSignal(), k) { SignalKeys(rows, k); }
    SignalMonoid();
    forall i | 0 <= i < |table| ensures Summed()(table[i].1, Filter(rows, With(OfSignal(), table[i].0))) {
      GroupValue(SignalItems(rows), i, PlusSignal, NO_SIGNAL);
      SignalTotals(rows, table[i].0);
    }
  }

  // ---- together ----

  ghost predicate CountsSay(content: Content, rows: seq<Row>) {
    && IataObservations in content && content[IataObservations].IataRows?
    && Tabulates(content[IataObservations].iatas, rows, OfSite())
    && Says(content[IataObservations].iatas, rows, OfSite(), Counted())
    && PayloadBreakdown in content && content[PayloadBreakdown].PayloadRows?
    && Tabulates(content[PayloadBreakdown].payloads, rows, OfPayload())
    && Says(content[PayloadBreakdown].payloads, rows, OfPayload(), Counted())
    && Paths in content && content[Paths].PathRows?
    && Tabulates(content[Paths].paths, rows, OfPath()) && Says(content[Paths].paths, rows, OfPath(), Counted())
    && ObserverIdentity in content && content[ObserverIdentity].IdentityRows?
    && Tabulates(content[ObserverIdentity].identities, rows, OfIdentity())
    && Says(content[ObserverIdentity].identities, rows, OfIdentity(), Counted())
  }

  ghost predicate SumsSay(content: Content, rows: seq<Row>) {
    && Signal in content && content[Signal].SignalRows?
    && Tabulates(content[Signal].signals, rows, OfSignal())
    && Says(content[Signal].signals, rows, OfSignal(), Summed())
    && ObserverActivity in content && content[ObserverActivity].ActivityRows?
    && Tabulates(content[ObserverActivity].activity, rows, OfObserver())
    && Says(content[ObserverActivity].activity, rows, OfObserver(), Aggregated())
    && AdvertHearings in content && content[AdvertHearings].HearingRows?
    && Tabulates(content[AdvertHearings].hearings, rows, OfOrigin())
    && Says(content[AdvertHearings].hearings, rows, OfOrigin(), HeardLast())
  }

  ghost predicate ScopesSay(content: Content, rows: seq<Row>) {
    && ScopeObservers in content && content[ScopeObservers].ScopeObserverRows?
    && Tabulates(content[ScopeObservers].scopeObservers, rows, OfScopeObserver())
    && ScopeNodes in content && content[ScopeNodes].ScopeNodeRows?
    && Tabulates(content[ScopeNodes].scopeNodes, rows, OfScopeNode())
  }

  /** The nine families that keep one row per key. */
  ghost predicate GroupsSay(content: Content, rows: seq<Row>) {
    CountsSay(content, rows) && SumsSay(content, rows) && ScopesSay(content, rows)
  }

  ghost predicate IsRolled(content: Content, rows: seq<Row>) {
    forall f :: f != TalkerSets ==> f in content && content[f] == Roll(f, rows, map[])
  }

  lemma CountsOfRolls(content: Content, rows: seq<Row>)
    requires IsRolled(content, rows)
    ensures CountsSay(content, rows)
  {
    SiteRows(rows);
    PayloadRowsSay(rows);
    PathRowsSay(rows);
    IdentityRowsSay(rows);
  }

  lemma SumsOfRolls(content: Content, rows: seq<Row>)
    requires IsRolled(content, rows)
    ensures SumsSay(content, rows)
  {
    SignalRowsSay(rows);
    ActivityRowsSay(rows);
    HearingRowsSay(rows);
  }

  lemma ScopesOfRolls(content: Content, rows: seq<Row>)
    requires IsRolled(content, rows)
    ensures ScopesSay(content, rows)
  {
    ScopeRowsSay(rows);
  }

  lemma GroupsOfRolls(content: Content, rows: seq<Row>)
    requires IsRolled(content, rows)
    ensures GroupsSay(content, rows)
  {
    CountsOfRolls(content, rows);
    SumsOfRolls(content, rows);
    ScopesOfRolls(content, rows);
  }
}
