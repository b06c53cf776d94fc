/** Reading the set families back: a sum over the stored buckets is the distinct count a scan of the
    hour's rows would give, for every IATA filter. */
module DistinctCounts {
  import opened Base
  import opened Grouping
  import opened SetBuckets
  import opened Families

  /** The filter of a raw scan: no IATA list selects every row, otherwise iata = ANY($1). */
  predicate Selected(r: Row, filter: set<Iata>) {
    filter == {} || r.iata in filter
  }

  /** Rows that f turns into a hearing of their own IATA. */
  ghost predicate HearsOwnIata<K(!new)>(f: Row -> Option<(K, set<Iata>)>) {
    forall r: Row :: f(r).Some? ==> f(r).value.1 == {r.iata}
  }

  lemma {:induction false} CollectItems<T, K, A>(rows: seq<T>, f: T -> Option<(K, A)>, item: (K, A))
    ensures item in Collect(rows, f) <==> exists r :: r in rows && f(r) == Some(item)
  {
    if rows != [] {
      var front, last := rows[..|rows| - 1], rows[|rows| - 1];
      CollectItems(front, f, item);
      assert rows == front + [last];
      if f(last) == Some(item) { assert last in rows; }
      if r :| r in front && f(r) == Some(item) { assert r in rows; }
    }
  }

  /** Row r speaks for thing k under these filters. */
  ghost predicate Speaks<K(!new), L>(r: Row, k: K, f: Row -> Option<(K, set<Iata>)>, tag: K -> L, test: K -> bool,
                                     tags: L -> bool,
                               filter: set<Iata>)
  {
    f(r).Some? && f(r).value.0 == k && Selected(r, filter) && tags(tag(k)) && test(k)
  }

  /** The things of a hearing list, read straight off the rows. */
  lemma ThingOfRows<K(!new), L>(rows: seq<Row>, f: Row -> Option<(K, set<Iata>)>, tag: K -> L, test: K -> bool,
                                tags: L -> bool,
                          filter: set<Iata>, k: K)
    requires HearsOwnIata(f)
    ensures k in DistinctThings(Collect(rows, f), tag, test, tags, filter)
            <==> exists r :: r in rows && Speaks(r, k, f, tag, test, tags, filter)
  {
    var items := Collect(rows, f);
    if k in DistinctThings(items, tag, test, tags, filter) {
      var i :| 0 <= i < |items| && items[i].0 == k;
      if filter != {} {
        var x :| x in filter && HeardIn(items, k, x);
        i :| 0 <= i < |items| && items[i].0 == k && x in items[i].1;
      }
      CollectItems(rows, f, items[i]);
      var r :| r in rows && f(r) == Some(items[i]);
      assert Speaks(r, k, f, tag, test, tags, filter);
    }
    if r :| r in rows && Speaks(r, k, f, tag, test, tags, filter) {
      CollectItems(rows, f, f(r).value);
      var i :| 0 <= i < |items| && items[i] == f(r).value;
      assert items[i].0 == k && r.iata in items[i].1;
      assert HeardIn(items, k, r.iata);
    }
  }

  /** A set of things counted by one scan of the rows has the size the buckets add up to. */
  lemma CountedByRows<K(!new), L, A(!new)>(rows: seq<Row>, f: Row -> Option<(K, set<Iata>)>, tag: K -> L, val: K -> A,
                                           op: (A, A) -> A,
                                    unit: A, measure: A -> int, test: K -> bool, tags: L -> bool, filter: set<Iata>,
                                        things: set<K>)
    requires HearsOwnIata(f) && CommutativeMonoid(op, unit) && Counts(measure, op, unit, val, test)
    requires forall k: K :: k in things <==> exists r :: r in rows && Speaks(r, k, f, tag, test, tags, filter)
    ensures measure(Total(Buckets(Collect(rows, f), tag, val, op), BucketFilter(tags, filter), op, unit)) == |things|
  {
    DistinctFromBuckets(Collect(rows, f), tag, val, op, unit, measure, test, tags, filter);
    forall k: K ensures k in things <==> k in DistinctThings(Collect(rows, f), tag, test, tags, filter) {
      ThingOfRows(rows, f, tag, test, tags, filter, k);
    }
    assert things == DistinctThings(Collect(rows, f), tag, test, tags, filter);
  }

  predicate Any<T>(t: T) {
    true
  }

  function Same(n: int): int {
    n
  }

  // ---- what the readers sum ----

  ghost function PacketCount(packets: seq<(Bucket<()>, int)>, filter: set<Iata>): int {
    Total(packets, BucketFilter(Any<()>, filter), Plus, 0)
  }

  ghost function ScopedCount(scopes: seq<(Bucket<int>, int)>, wanted: int -> bool, filter: set<Iata>): int {
    Total(scopes, BucketFilter(wanted, filter), Plus, 0)
  }

  ghost function AdvertCounts(adverts: seq<(Bucket<nat>, Adverts)>, wanted: nat -> bool, filter: set<Iata>): Adverts {
    Total(adverts, BucketFilter(wanted, filter), PlusAdverts, NO_ADVERTS)
  }

  ghost function TalkCounts(talkers: seq<(Bucket<string>, Talks)>, wanted: string -> bool, filter: set<Iata>): Talks {
    Total(talkers, BucketFilter(wanted, filter), PlusTalks, NO_TALKS)
  }

  // ---- and what it equals ----

  /** Packets: once per hour, however many observers and IATAs heard them. */
  lemma PacketSetsExact(rows: seq<Row>, filter: set<Iata>)
    ensures PacketCount(Roll(PacketSets, rows, map[]).packets, filter) == |set r | r in rows
            && Selected(r, filter) :: r.packet|
  {
    var things := set r | r in rows && Selected(r, filter) :: r.packet;
    forall k ensures k in things <==> exists r ::
        r in rows && Speaks(r, k, PacketHearing, NoTag, Any<Hash>, Any<()>, filter) {
      if r :| r in rows && Selected(r, filter) && r.packet == k {
        assert Speaks(r, k, PacketHearing, NoTag, Any<Hash>, Any<()>, filter);
      }
    }
    CountedByRows(rows, PacketHearing, NoTag, One<Hash>, Plus, 0, Same, Any<Hash>, Any<()>, filter, things);
  }

  ghost function ScopedIn(rows: seq<Row>, wanted: int -> bool, filter: set<Iata>): set<Scoped> {
    set r | r in rows && r.scopeId.Some? && wanted(r.scopeId.value)
        && Selected(r, filter) :: Scoped(r.packet, r.scopeId.value)
  }

  /** Scoped packets, for any choice of scopes. */
  lemma ScopeSetsExact(rows: seq<Row>, wanted: int -> bool, filter: set<Iata>)
    ensures ScopedCount(Roll(ScopeSets, rows, map[]).scopes, wanted, filter) == |ScopedIn(rows, wanted, filter)|
  {
    var things := ScopedIn(rows, wanted, filter);
    forall k ensures k in things <==> exists r ::
        r in rows && Speaks(r, k, ScopedHearing, ScopeOf, Any<Scoped>, wanted, filter) {
      if r :| r in rows && r.scopeId.Some? && wanted(r.scopeId.value) && Selected(r, filter)
              && Scoped(r.packet, r.scopeId.value) == k {
        assert Speaks(r, k, ScopedHearing, ScopeOf, Any<Scoped>, wanted, filter);
      }
      if r :| r in rows && Speaks(r, k, ScopedHearing, ScopeOf, Any<Scoped>, wanted, filter) {
        assert Scoped(r.packet, r.scopeId.value) == k;
      }
    }
    CountedByRows(rows, ScopedHearing, ScopeOf, One<Scoped>, Plus, 0, Same, Any<Scoped>, wanted, filter, things);
  }

  ghost function AdvertsIn(rows: seq<Row>, wanted: nat -> bool, test: Advert -> bool, filter: set<Iata>): set<Advert> {
    set r | r in rows && IsAdvert(r) && wanted(r.originPubkey.value) && Selected(r, filter)
            && test(Advert(r.packet, r.originPubkey.value, r.routeType)) :: Advert(r.packet, r.originPubkey.value,
                                                                                   r.routeType)
  }

  lemma AdvertMeasure(rows: seq<Row>, measure: Adverts -> int, test: Advert -> bool, wanted: nat -> bool,
                      filter: set<Iata>)
    requires Counts(measure, PlusAdverts, NO_ADVERTS, AdvertCount, test)
    ensures measure(AdvertCounts(Roll(AdvertSets, rows, map[]).adverts, wanted, filter))
            == |AdvertsIn(rows, wanted, test, filter)|
  {
    var things := AdvertsIn(rows, wanted, test, filter);
    forall k ensures k in things <==> exists r ::
        r in rows && Speaks(r, k, AdvertHearing, AdvertOrigin, test, wanted, filter) {
      if k in things {
        var r :| r in rows && IsAdvert(r) && wanted(r.originPubkey.value) && Selected(r, filter)
                 && test(Advert(r.packet, r.originPubkey.value, r.routeType))
                 && Advert(r.packet, r.originPubkey.value, r.routeType) == k;
        assert Speaks(r, k, AdvertHearing, AdvertOrigin, test, wanted, filter);
      }
      if r :| r in rows && Speaks(r, k, AdvertHearing, AdvertOrigin, test, wanted, filter) {
        assert Advert(r.packet, r.originPubkey.value, r.routeType) == k;
      }
    }
    CountedByRows(rows, AdvertHearing, AdvertOrigin, AdvertCount, PlusAdverts, NO_ADVERTS, measure, test, wanted,
                  filter, things);
  }

  /** ADVERT packets, and the flooded and direct ones among them, for any choice of origins. */
  lemma AdvertSetsExact(rows: seq<Row>, wanted: nat -> bool, filter: set<Iata>)
    ensures var sum := AdvertCounts(Roll(AdvertSets, rows, map[]).adverts, wanted, filter);
            && sum.packets == |AdvertsIn(rows, wanted, Any<Advert>, filter)|
            && sum.flood == |AdvertsIn(rows, wanted, Flooded, filter)|
            && sum.direct == |AdvertsIn(rows, wanted, Direct, filter)|
  {
    AdvertMeasure(rows, (a: Adverts) => a.packets, Any<Advert>, wanted, filter);
    AdvertMeasure(rows, (a: Adverts) => a.flood, Flooded, wanted, filter);
    AdvertMeasure(rows, (a: Adverts) => a.direct, Direct, wanted, filter);
  }

  ghost predicate Shown(r: Row, messages: map<Hash, Message>, wanted: string -> bool) {
    r.packet in messages && messages[r.packet].sender.Some? && wanted(messages[r.packet].sender.value)
  }

  /** Channel messages, for any choice of senders: one per decrypted packet heard at a wanted IATA. */
  lemma TalkerSetsExact(rows: seq<Row>, messages: map<Hash, Message>, wanted: string -> bool, filter: set<Iata>)
    ensures TalkCounts(Roll(TalkerSets, rows, messages).talkers, wanted, filter).messages
         == |set r | r in rows && Shown(r, messages, wanted) && Selected(r, filter) :: r.packet|
  {
    var f := TalkHearing(messages);
    var packets := set r | r in rows && Shown(r, messages, wanted) && Selected(r, filter) :: r.packet;
    var talks := set p | p in packets :: Talk(p, messages[p].sender.value, messages[p].sentAt);
    forall k ensures k in talks <==> exists r :: r in rows && Speaks(r, k, f, SenderOf, Any<Talk>, wanted, filter) {
      if k in talks {
        var r :| r in rows && Shown(r, messages, wanted) && Selected(r, filter) && r.packet == k.packet;
        assert Speaks(r, k, f, SenderOf, Any<Talk>, wanted, filter);
      }
      if r :| r in rows && Speaks(r, k, f, SenderOf, Any<Talk>, wanted, filter) {
        assert Shown(r, messages, wanted) && r.packet in packets;
      }
    }
    CountedByRows(rows, f, SenderOf, TalkCount, PlusTalks, NO_TALKS, (t: Talks) =>
        t.messages, Any<Talk>, wanted, filter, talks);
    SameSize(talks, packets, messages);
  }

  lemma {:induction false} SameSize(talks: set<Talk>, packets: set<Hash>, messages: map<Hash, Message>)
    requires packets <= messages.Keys && forall p :: p in packets ==> messages[p].sender.Some?
    requires talks == set p | p in packets :: Talk(p, messages[p].sender.value, messages[p].sentAt)
    ensures |talks| == |packets|
  {
    if packets != {} {
      var p :| p in packets;
      var t := Talk(p, messages[p].sender.value, messages[p].sentAt);
      SameSize(talks - {t}, packets - {p}, messages);
    } else {
      assert talks == {};
    }
  }

  /** A new named message of a packet heard in the hour changes the talker family: its total grows by one. */
  lemma NewMessageShows(rows: seq<Row>, messages: map<Hash, Message>, p: Hash, message: Message)
    requires p in PacketsOf(rows) && p !in messages && message.sender.Some?
    ensures Roll(TalkerSets, rows, messages) != Roll(TalkerSets, rows, messages[p := message])
  {
    var after := messages[p := message];
    TalkerSetsExact(rows, messages, Any<string>, {});
    TalkerSetsExact(rows, after, Any<string>, {});
    var shown := set r | r in rows && Shown(r, messages, Any<string>) && Selected(r, {}) :: r.packet;
    var shownAfter := set r | r in rows && Shown(r, after, Any<string>) && Selected(r, {}) :: r.packet;
    var i :| 0 <= i < |rows| && rows[i].packet == p;
    assert rows[i] in rows && Shown(rows[i], after, Any<string>);
    assert shownAfter == shown + {p};
    assert p !in shown;
  }
}
