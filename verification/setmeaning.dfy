/** What every stored row of the set families says: how many packets, adverts or messages exactly these sites heard; and
    the content of a complete hour in full. */
module SetMeaning {
  import opened Base
  import opened Grouping
  import opened Sorting
  import opened SetBuckets
  import opened Families
  import opened DistinctCounts
  import opened World
  import opened Protocol
  import opened RunTheorems
  import opened FamilyMeaning
  import F = Freshness

  // ---- which sites heard a thing ----

  ghost predicate HeardAt<K>(rows: seq<Row>, of: (Row, K) -> bool, k: K, iata: Iata) {
    exists r :: r in rows && of(r, k) && r.iata == iata
  }

  /** Exactly these sites heard it, and at least one did. */
  ghost predicate HeardExactlyAt<K>(rows: seq<Row>, of: (Row, K) -> bool, k: K, sites: set<Iata>) {
    sites != {} && forall iata :: iata in sites <==> HeardAt(rows, of, k, iata)
  }

  ghost predicate InBucket<K, L>(rows: seq<Row>, of: (Row, K) -> bool, tagged: (K, L) -> bool, k: K, b: Bucket<L>) {
    tagged(k, b.tag) && HeardExactlyAt(rows, of, k, b.iatas)
  }

  /** One stored row for every tag and set of sites that some thing has. */
  ghost predicate Sorts<K(!new), L(!new), A>(table: seq<(Bucket<L>, A)>, rows: seq<Row>, of: (Row, K) -> bool,
                                             tagged: (K, L) -> bool) {
    && DistinctKeys(table)
    && forall b: Bucket<L> :: b in Keys(table) <==> exists k :: InBucket(rows, of, tagged, k, b)
  }

  /** In every row the measure is the number of its things that pass the test. */
  ghost predicate Measures<K(!new), L, A>(table: seq<(Bucket<L>, A)>, rows: seq<Row>, of: (Row, K) -> bool,
                                          tagged: (K, L) -> bool, measure: A -> int, test: K -> bool) {
    forall i, things: set<K> :: 0 <= i < |table| && IsBucket(rows, of, tagged, test, table[i].0, things) ==>
      measure(table[i].1) == |things|
  }

  ghost predicate IsBucket<K(!new), L>(rows: seq<Row>, of: (Row, K) -> bool, tagged: (K, L) -> bool, test: K -> bool,
                                       b: Bucket<L>, things: set<K>) {
    forall k :: k in things <==> InBucket(rows, of, tagged, k, b) && test(k)
  }

  ghost predicate Tags<K(!new), L(!new)>(tag: K -> L, tagged: (K, L) -> bool) {
    forall k: K, l: L :: tagged(k, l) <==> tag(k) == l
  }

  ghost predicate HearsOwn<K(!new)>(f: Row -> Option<(K, set<Iata>)>, of: (Row, K) -> bool) {
    Selects(f, of) && HearsOwnIata(f)
  }

  // ---- the per-thing rows ----

  lemma HeardRows<K(!new)>(rows: seq<Row>, f: Row -> Option<(K, set<Iata>)>, of: (Row, K) -> bool, k: K, iata: Iata)
    requires HearsOwn(f, of)
    ensures HeardIn(PerThing(Collect(rows, f)), k, iata) <==> HeardAt(rows, of, k, iata)
  {
    var items := Collect(rows, f);
    HeardGroup(items, k, iata);
    if HeardIn(items, k, iata) {
      var i :| 0 <= i < |items| && items[i].0 == k && iata in items[i].1;
      CollectItems(rows, f, items[i]);
      var r :| r in rows && f(r) == Some(items[i]);
      assert of(r, k) && r.iata == iata;
    }
    if HeardAt(rows, of, k, iata) {
      var r :| r in rows && of(r, k) && r.iata == iata;
      CollectItems(rows, f, f(r).value);
      var i :| 0 <= i < |items| && items[i] == f(r).value;
      assert items[i].0 == k && iata in items[i].1;
    }
  }

  lemma ThingHeard<K(!new)>(rows: seq<Row>, f: Row -> Option<(K, set<Iata>)>, of: (Row, K) -> bool, i: nat)
    requires HearsOwn(f, of) && i < |PerThing(Collect(rows, f))|
    ensures var thing := PerThing(Collect(rows, f))[i];
            HeardExactlyAt(rows, of, thing.0, thing.1)
  {
    var things := PerThing(Collect(rows, f));
    var k := things[i].0;
    GroupKeys(Collect(rows, f), Union);
    forall iata ensures iata in things[i].1 <==> HeardAt(rows, of, k, iata) {
      HeardRows(rows, f, of, k, iata);
      if HeardIn(things, k, iata) {
        var j :| 0 <= j < |things| && things[j].0 == k && iata in things[j].1;
        assert i == j;
      }
    }
    assert k in Keys(things);
    KeysHeard(rows, f, of, k);
    var r :| r in rows && of(r, k);
    assert HeardAt(rows, of, k, r.iata);
  }

  lemma HeardThing<K(!new)>(rows: seq<Row>, f: Row -> Option<(K, set<Iata>)>, of: (Row, K) -> bool, k: K,
                            sites: set<Iata>)
    requires HearsOwn(f, of) && HeardExactlyAt(rows, of, k, sites)
    ensures exists i :: 0 <= i < |PerThing(Collect(rows, f))| && PerThing(Collect(rows, f))[i] == (k, sites)
  {
    var things := PerThing(Collect(rows, f));
    var iata :| iata in sites;
    HeardRows(rows, f, of, k, iata);
    var i :| 0 <= i < |things| && things[i].0 == k && iata in things[i].1;
    ThingHeard(rows, f, of, i);
    assert things[i].1 == sites;
    assert things[i] == (k, sites);
  }

  // ---- the stored buckets ----

  lemma RetagKeys<K(!new), L, A>(things: seq<(K, set<Iata>)>, tag: K -> L, val: K -> A, b: Bucket<L>)
    ensures b in Keys(Retag(things, tag, val)) <==>
              exists i :: 0 <= i < |things| && tag(things[i].0) == b.tag && things[i].1 == b.iatas
  {
    var tagged := Retag(things, tag, val);
    if b in Keys(tagged) {
      var i :| 0 <= i < |tagged| && tagged[i].0 == b;
      assert tag(things[i].0) == b.tag && things[i].1 == b.iatas;
    }
    if i :| 0 <= i < |things| && tag(things[i].0) == b.tag && things[i].1 == b.iatas {
      assert tagged[i].0 == b;
    }
  }

  lemma BucketsSort<K(!new), L(!new), A(!new)>(rows: seq<Row>, f: Row -> Option<(K, set<Iata>)>, of: (Row, K) -> bool,
                                               tag: K -> L, tagged: (K, L) -> bool, val: K -> A, op: (A, A) -> A)
    requires HearsOwn(f, of) && Tags(tag, tagged)
    ensures Sorts(Buckets(Collect(rows, f), tag, val, op), rows, of, tagged)
  {
    var things := PerThing(Collect(rows, f));
    var table := Buckets(Collect(rows, f), tag, val, op);
    GroupKeys(Retag(things, tag, val), op);
    forall b: Bucket<L> ensures b in Keys(table) <==> exists k :: InBucket(rows, of, tagged, k, b) {
      RetagKeys(things, tag, val, b);
      if b in Keys(table) {
        var i :| 0 <= i < |things| && tag(things[i].0) == b.tag && things[i].1 == b.iatas;
        ThingHeard(rows, f, of, i);
        assert InBucket(rows, of, tagged, things[i].0, b);
      }
      if k :| InBucket(rows, of, tagged, k, b) {
        HeardThing(rows, f, of, k, b.iatas);
        var i :| 0 <= i < |things| && things[i] == (k, b.iatas);
        assert tag(things[i].0) == b.tag && things[i].1 == b.iatas;
      }
    }
  }

  lemma ChosenAre<K(!new), L(!new)>(rows: seq<Row>, f: Row -> Option<(K, set<Iata>)>, of: (Row, K) -> bool,
                                    tag: K -> L, tagged: (K, L) -> bool, test: K -> bool, b: Bucket<L>, wanted: set<K>)
    requires HearsOwn(f, of) && Tags(tag, tagged) && IsBucket(rows, of, tagged, test, b, wanted)
    ensures Chosen(PerThing(Collect(rows, f)), tag, test, Key(b)) == wanted
  {
    var things := PerThing(Collect(rows, f));
    var chosen := Chosen(things, tag, test, Key(b));
    forall k | k in chosen ensures k in wanted {
      var i :| 0 <= i < |things| && Key(b)(Bucket(tag(things[i].0), things[i].1)) && test(things[i].0)
               && things[i].0 == k;
      ThingHeard(rows, f, of, i);
      assert InBucket(rows, of, tagged, k, b);
    }
    forall k | k in wanted ensures k in chosen {
      assert InBucket(rows, of, tagged, k, b);
      HeardThing(rows, f, of, k, b.iatas);
      var i :| 0 <= i < |things| && things[i] == (k, b.iatas);
      assert Key(b)(Bucket(tag(things[i].0), things[i].1));
    }
  }

  lemma BucketsMeasure<K(!new), L(!new),
      A(!new)>(rows: seq<Row>, f: Row -> Option<(K, set<Iata>)>, of: (Row, K) -> bool, tag: K -> L,
               tagged: (K, L) -> bool, val: K -> A, op: (A, A) -> A, unit: A, measure: A -> int, test: K -> bool)
    requires HearsOwn(f, of) && Tags(tag, tagged) && CommutativeMonoid(op, unit) && Counts(measure, op, unit, val, test)
    ensures Measures(Buckets(Collect(rows, f), tag, val, op), rows, of, tagged, measure, test)
  {
    var things := PerThing(Collect(rows, f));
    var table := Buckets(Collect(rows, f), tag, val, op);
    GroupKeys(Collect(rows, f), Union);
    forall i, wanted: set<K> | 0 <= i < |table| && IsBucket(rows, of, tagged, test, table[i].0, wanted)
      ensures measure(table[i].1) == |wanted|
    {
      GroupValue(Retag(things, tag, val), i, op, unit);
      CountThings(things, tag, val, op, unit, measure, test, Key(table[i].0));
      ChosenAre(rows, f, of, tag, tagged, test, table[i].0, wanted);
    }
  }

  // ---- packets and scopes ----

  function OfPacket(): (Row, Hash) -> bool { (r: Row, k: Hash) => r.packet == k }

  function OfScoped(): (Row, Scoped) -> bool {
    (r: Row, k: Scoped) => r.packet == k.packet && r.scopeId == Some(k.scopeId)
  }

  function OfAdvert(): (Row, Advert) -> bool {
    (r: Row, k: Advert) =>
      r.packet == k.packet && r.payloadType == Some(4) && r.originPubkey == Some(k.originPubkey)
      && r.routeType == k.routeType
  }

  function OfTalk(messages: map<Hash, Message>): (Row, Talk) -> bool {
    (r: Row, k: Talk) =>
      r.packet == k.packet && k.packet in messages && messages[k.packet].sender == Some(k.sender)
      && messages[k.packet].sentAt == k.sentAt
  }

  function Number(): int -> int { (n: int) => n }
  function AllAdverts(): Adverts -> int { (a: Adverts) => a.packets }
  function FloodAdverts(): Adverts -> int { (a: Adverts) => a.flood }
  function DirectAdverts(): Adverts -> int { (a: Adverts) => a.direct }
  function AllMessages(): Talks -> int { (t: Talks) => t.messages }

  function Untagged(): (Hash, ()) -> bool { (k: Hash, l: ()) => true }
  function ByScope(): (Scoped, int) -> bool { (k: Scoped, scopeId: int) => k.scopeId == scopeId }
  function ByOrigin(): (Advert, nat) -> bool { (k: Advert, pubkey: nat) => k.originPubkey == pubkey }
  function BySender(): (Talk, string) -> bool { (k: Talk, sender: string) => k.sender == sender }

  /** Route types 0 and 1 flood; 2 and 3 are direct. */
  predicate IsFlood(k: Advert) { k.routeType in {0, 1} }
  predicate IsDirect(k: Advert) { k.routeType in {2, 3} }

  lemma PacketHears()
    ensures HearsOwn(PacketHearing, OfPacket()) && Tags(NoTag, Untagged())
  {
    forall k: Hash, l: () ensures Untagged()(k, l) <==> NoTag(k) == l {
      assert l == ();
    }
  }

  lemma PacketRowsSay(rows: seq<Row>)
    ensures Sorts(Roll(PacketSets, rows, map[]).packets, rows, OfPacket(), Untagged())
    ensures Measures(Roll(PacketSets, rows, map[]).packets, rows, OfPacket(), Untagged(), Number(), Any<Hash>)
  {
    PacketHears();
    BucketsSort(rows, PacketHearing, OfPacket(), NoTag, Untagged(), One<Hash>, Plus);
    BucketsMeasure(rows, PacketHearing, OfPacket(), NoTag, Untagged(), One<Hash>, Plus, 0, Number(), Any<Hash>);
  }

  lemma ScopedHears()
    ensures HearsOwn(ScopedHearing, OfScoped()) && Tags(ScopeOf, ByScope())
  {
    forall r: Row, k: Scoped ensures OfScoped()(r, k) <==> ScopedHearing(r).Some? && ScopedHearing(r).value.0 == k {
      assert k == Scoped(k.packet, k.scopeId);
    }
  }

  lemma ScopedRowsSay(rows: seq<Row>)
    ensures Sorts(Roll(ScopeSets, rows, map[]).scopes, rows, OfScoped(), ByScope())
    ensures Measures(Roll(ScopeSets, rows, map[]).scopes, rows, OfScoped(), ByScope(), Number(), Any<Scoped>)
  {
    ScopedHears();
    BucketsSort(rows, ScopedHearing, OfScoped(), ScopeOf, ByScope(), One<Scoped>, Plus);
    BucketsMeasure(rows, ScopedHearing, OfScoped(), ScopeOf, ByScope(), One<Scoped>, Plus, 0, Number(), Any<Scoped>);
  }

  // ---- adverts ----

  lemma AdvertHears()
    ensures HearsOwn(AdvertHearing, OfAdvert()) && Tags(AdvertOrigin, ByOrigin())
  {
    forall r: Row, k: Advert ensures OfAdvert()(r, k) <==> AdvertHearing(r).Some? && AdvertHearing(r).value.0 == k {
      assert k == Advert(k.packet, k.originPubkey, k.routeType);
    }
  }

  lemma AdvertMonoid()
    ensures CommutativeMonoid(PlusAdverts, NO_ADVERTS)
    ensures Counts(AllAdverts(), PlusAdverts, NO_ADVERTS, AdvertCount, Any<Advert>)
    ensures Counts(FloodAdverts(), PlusAdverts, NO_ADVERTS, AdvertCount, IsFlood)
    ensures Counts(DirectAdverts(), PlusAdverts, NO_ADVERTS, AdvertCount, IsDirect)
  {
  }

  ghost predicate AdvertsSay(table: seq<(Bucket<nat>, Adverts)>, rows: seq<Row>) {
    && Sorts(table, rows, OfAdvert(), ByOrigin())
    && Measures(table, rows, OfAdvert(), ByOrigin(), AllAdverts(), Any<Advert>)
    && Measures(table, rows, OfAdvert(), ByOrigin(), FloodAdverts(), IsFlood)
    && Measures(table, rows, OfAdvert(), ByOrigin(), DirectAdverts(), IsDirect)
  }

  lemma AdvertRowsSay(rows: seq<Row>)
    ensures AdvertsSay(Roll(AdvertSets, rows, map[]).adverts, rows)
  {
    AdvertHears();
    AdvertMonoid();
    BucketsSort(rows, AdvertHearing, OfAdvert(), AdvertOrigin, ByOrigin(), AdvertCount, PlusAdverts);
    BucketsMeasure(rows, AdvertHearing, OfAdvert(), AdvertOrigin, ByOrigin(), AdvertCount, PlusAdverts, NO_ADVERTS,
                   AllAdverts(), Any<Advert>);
    BucketsMeasure(rows, AdvertHearing, OfAdvert(), AdvertOrigin, ByOrigin(), AdvertCount, PlusAdverts, NO_ADVERTS,
                   FloodAdverts(), IsFlood);
    BucketsMeasure(rows, AdvertHearing, OfAdvert(), AdvertOrigin, ByOrigin(), AdvertCount, PlusAdverts, NO_ADVERTS,
                   DirectAdverts(), IsDirect);
  }

  // ---- talkers ----

  lemma TalkHears(messages: map<Hash, Message>)
    ensures HearsOwn(TalkHearing(messages), OfTalk(messages)) && Tags(SenderOf, BySender())
  {
    var f := TalkHearing(messages);
    forall r: Row, k: Talk ensures OfTalk(messages)(r, k) <==> f(r).Some? && f(r).value.0 == k {
      assert k == Talk(k.packet, k.sender, k.sentAt);
    }
  }

  lemma TalkMonoid()
    ensures CommutativeMonoid(PlusTalks, NO_TALKS)
    ensures Counts(AllMessages(), PlusTalks, NO_TALKS, TalkCount, Any<Talk>)
  {
  }

  /** The latest time any message of the row was sent. */
  ghost predicate IsLastSent(at: Option<int>, rows: seq<Row>, messages: map<Hash, Message>, b: Bucket<string>) {
    && (exists k :: InBucket(rows, OfTalk(messages), BySender(), k, b) && at == Some(k.sentAt))
    && forall k :: InBucket(rows, OfTalk(messages), BySender(), k, b) ==> at.Some? && k.sentAt <= at.value
  }

  ghost predicate TalkersSay(table: seq<(Bucket<string>, Talks)>, rows: seq<Row>, messages: map<Hash, Message>) {
    && Sorts(table, rows, OfTalk(messages), BySender())
    && Measures(table, rows, OfTalk(messages), BySender(), AllMessages(), Any<Talk>)
    && forall i :: 0 <= i < |table| ==> IsLastSent(table[i].1.lastSent, rows, messages, table[i].0)
  }

  lemma RetagTalk(things: seq<(Talk, set<Iata>)>, i: nat)
    requires i < |things|
    ensures Retag(things, SenderOf, TalkCount)[i]
         == (Bucket(things[i].0.sender, things[i].1), Talks(1, Some(things[i].0.sentAt)))
  {
    var k := things[i].0;
    assert SenderOf(k) == k.sender && TalkCount(k) == Talks(1, Some(k.sentAt));
  }

  lemma {:induction false} LastOfTotal(things: seq<(Talk, set<Iata>)>, b: Bucket<string>)
    ensures var last := Total(Retag(things, SenderOf, TalkCount), Key(b), PlusTalks, NO_TALKS).lastSent;
            && (forall i :: 0 <= i < |things| && Bucket(things[i].0.sender, things[i].1) == b ==>
                  last.Some? && things[i].0.sentAt <= last.value)
            && (last.Some? ==> exists i :: 0 <= i < |things| && Bucket(things[i].0.sender, things[i].1) == b
                                           && things[i].0.sentAt == last.value)
  {
    if things != [] {
      var front, end := things[..|things| - 1], things[|things| - 1];
      LastOfTotal(front, b);
      var tagged := Retag(things, SenderOf, TalkCount);
      assert tagged[..|tagged| - 1] == Retag(front, SenderOf, TalkCount);
      RetagTalk(things, |front|);
      var last := Total(tagged, Key(b), PlusTalks, NO_TALKS).lastSent;
      var before := Total(tagged[..|tagged| - 1], Key(b), PlusTalks, NO_TALKS).lastSent;
      forall i | 0 <= i < |things| && Bucket(things[i].0.sender, things[i].1) == b
        ensures last.Some? && things[i].0.sentAt <= last.value
      {
        if i < |front| { assert front[i] == things[i]; }
      }
      if last.Some? && last == before {
        var i :| 0 <= i < |front| && Bucket(front[i].0.sender, front[i].1) == b && front[i].0.sentAt == last.value;
        assert things[i] == front[i] && things[i].0.sentAt == last.value;
      } else if last.Some? {
        assert Key(b)(tagged[|tagged| - 1].0) && things[|front|] == end;
      }
    }
  }

  lemma LastSentAt(rows: seq<Row>, messages: map<Hash, Message>, i: nat)
    requires i < |Roll(TalkerSets, rows, messages).talkers|
    ensures var g := Roll(TalkerSets, rows, messages).talkers[i];
            IsLastSent(g.1.lastSent, rows, messages, g.0)
  {
    var f := TalkHearing(messages);
    var things := PerThing(Collect(rows, f));
    var g := Roll(TalkerSets, rows, messages).talkers[i];
    TalkHears(messages);
    TalkMonoid();
    GroupKeys(Collect(rows, f), Union);
    GroupKeys(Retag(things, SenderOf, TalkCount), PlusTalks);
    GroupValue(Retag(things, SenderOf, TalkCount), i, PlusTalks, NO_TALKS);
    LastOfTotal(things, g.0);
    LastIsTheirs(rows, messages, g.0, g.1.lastSent);
    BucketsSort(rows, f, OfTalk(messages), SenderOf, BySender(), TalkCount, PlusTalks);
    assert g.0 in Keys(Roll(TalkerSets, rows, messages).talkers);
  }

  lemma LastIsTheirs(rows: seq<Row>, messages: map<Hash, Message>, b: Bucket<string>, last: Option<int>)
    requires HearsOwn(TalkHearing(messages), OfTalk(messages))
    requires var things := PerThing(Collect(rows, TalkHearing(messages)));
             && (forall i :: 0 <= i < |things| && Bucket(things[i].0.sender, things[i].1) == b ==>
                   last.Some? && things[i].0.sentAt <= last.value)
             && (last.Some? ==> exists i :: 0 <= i < |things| && Bucket(things[i].0.sender, things[i].1) == b
                                            && things[i].0.sentAt == last.value)
    ensures forall k :: InBucket(rows, OfTalk(messages), BySender(), k, b) ==> last.Some? && k.sentAt <= last.value
    ensures last.Some? ==> exists k :: InBucket(rows, OfTalk(messages), BySender(), k, b) && last == Some(k.sentAt)
  {
    var f, of := TalkHearing(messages), OfTalk(messages);
    var things := PerThing(Collect(rows, f));
    forall k | InBucket(rows, of, BySender(), k, b) ensures last.Some? && k.sentAt <= last.value {
      HeardThing(rows, f, of, k, b.iatas);
      var i :| 0 <= i < |things| && things[i] == (k, b.iatas);
      assert Bucket(things[i].0.sender, things[i].1) == b;
    }
    if last.Some? {
      var i :| 0 <= i < |things| && Bucket(things[i].0.sender, things[i].1) == b && things[i].0.sentAt == last.value;
      ThingHeard(rows, f, of, i);
      assert InBucket(rows, of, BySender(), things[i].0, b);
    }
  }

  lemma TalkerRowsSay(rows: seq<Row>, messages: map<Hash, Message>)
    ensures TalkersSay(Roll(TalkerSets, rows, messages).talkers, rows, messages)
  {
    TalkHears(messages);
    TalkMonoid();
    BucketsSort(rows, TalkHearing(messages), OfTalk(messages), SenderOf, BySender(), TalkCount, PlusTalks);
    BucketsMeasure(rows, TalkHearing(messages), OfTalk(messages), SenderOf, BySender(), TalkCount, PlusTalks, NO_TALKS,
                   AllMessages(), Any<Talk>);
    var table := Roll(TalkerSets, rows, messages).talkers;
    forall i | 0 <= i < |table| ensures IsLastSent(table[i].1.lastSent, rows, messages, table[i].0) {
      LastSentAt(rows, messages, i);
    }
  }

  // ---- a complete hour ----

  ghost predicate SetsSay(content: Content, rows: seq<Row>) {
    && PacketSets in content && content[PacketSets].PacketRows?
    && Sorts(content[PacketSets].packets, rows, OfPacket(), Untagged())
    && Measures(content[PacketSets].packets, rows, OfPacket(), Untagged(), Number(), Any<Hash>)
    && ScopeSets in content && content[ScopeSets].ScopeRows?
    && Sorts(content[ScopeSets].scopes, rows, OfScoped(), ByScope())
    && Measures(content[ScopeSets].scopes, rows, OfScoped(), ByScope(), Number(), Any<Scoped>)
    && AdvertSets in content && content[AdvertSets].AdvertRows? && AdvertsSay(content[AdvertSets].adverts, rows)
  }

  function HeardFrom(h: int): Row -> bool {
    (r: Row) => h <= r.heardAt && r.heardAt < h + 3_600_000_000
  }

  lemma {:induction false} RowsInAre(rows: seq<Row>, h: int)
    ensures RowsIn(rows, h) == Filter(rows, HeardFrom(h))
  {
    if rows != [] { RowsInAre(rows[..|rows| - 1], h); }
  }

  /** Over every run: what a complete hour stores, row by row, of all observations ever inserted in that hour, in their
      own columns. */
  lemma CompleteHourSays(now: int, steps: seq<Step>, h: int)
    requires IsRun(Start(now), steps) && IsComplete(After(Start(now), steps).tables, h)
    ensures var w := After(Start(now), steps);
            && h in w.tables.content && GroupsSay(w.tables.content[h], Filter(w.ever, HeardFrom(h)))
            && SetsSay(w.tables.content[h], Filter(w.ever, HeardFrom(h)))
  {
    var w := After(Start(now), steps);
    RowsInAre(w.ever, h);
    CompleteHourIsExact(now, steps, h, PacketSets);
    forall f | f != TalkerSets
      ensures f in w.tables.content[h] && w.tables.content[h][f] == Roll(f, RowsIn(w.ever, h), map[])
    {
      CompleteHourIsExact(now, steps, h, f);
    }
    GroupsOfRolls(w.tables.content[h], RowsIn(w.ever, h));
    SetsOfRolls(w.tables.content[h], RowsIn(w.ever, h));
  }

  lemma SetsOfRolls(content: Content, rows: seq<Row>)
    requires IsRolled(content, rows)
    ensures SetsSay(content, rows)
  {
    PacketRowsSay(rows);
    ScopedRowsSay(rows);
    AdvertRowsSay(rows);
  }

  /** The talkers of an hour that is complete, intact and not queued: where nothing was overlooked they are those of the
      messages stored now. */
  lemma FreshHourSays(w: World, h: int)
    requires F.Fresh(w) && IsComplete(w.tables, h) && Intact(w.tables, h) && h !in w.tables.dirty
    ensures var t := w.tables;
            && h in t.content && TalkerSets in t.content[h] && t.content[h][TalkerSets].TalkerRows?
            && TalkersSay(t.content[h][TalkerSets].talkers, HourRows(t, h), t.messages)
  {
    assert F.HourFresh(w.tables, h);
    TalkerRowsSay(HourRows(w.tables, h), w.tables.messages);
  }
}
