/** Following next cursors through the packet pages: what the walk shows, and on which tables it misses nothing. */
module PacketWalk {
  import opened Base
  import opened Sorting
  import opened SetBuckets
  import opened Families
  import opened PacketPages

  /** Not within the first millisecond of 1970, where a next cursor would read as none. */
  ghost predicate PositiveTimes(t: Tables) {
    forall h :: h in t.hearings ==> h.heardAt >= 1000
  }

  /** The packets a client has seen after following next cursors to the end, and whether the last page was cut off:
      empty although a scan filled up. */
  datatype Seen = Seen(packets: set<Hash>, cutOff: bool)

  lemma NextIsPositive(t: Tables, r: Request)
    requires PositiveTimes(t) && NextCursor(t, r).Some?
    ensures NextCursor(t, r).value > 0
  {
    BoundIsScanned(t, r);
    ScannedRows(t, r);
  }

  ghost function Walk(t: Tables, r: Request): Seen
    requires PositiveTimes(t)
    decreases r.cursor <= 0, r.cursor
  {
    var here := set p | p in Packets(Shown(t, r));
    if NextCursor(t, r).None? then Seen(here, Shown(t, r) == [] && QueryFloor(t, r).Some?)
    else
      assert NextCursor(t, r).value > 0 && (r.cursor > 0 ==> NextCursor(t, r).value < r.cursor) by {
        NextIsPositive(t, r);
        if r.cursor > 0 { NextIsOlder(t, r); }
      }
      var rest := Walk(t, r.(cursor := NextCursor(t, r).value));
      Seen(here + rest.packets, rest.cutOff)
  }

  // ---- conditions do not depend on the page ----

  predicate SameQuestion(r: Request, r': Request) {
    r' == r.(cursor := r'.cursor, limit := r'.limit)
  }

  lemma SameNewest(t: Tables, r: Request, r': Request)
    requires SameQuestion(r, r')
    ensures forall h :: NewestAt(t, r, h) <==> NewestAt(t, r', h)
    ensures forall h :: Asked(t, r, h) <==> Asked(t, r', h)
  {
    forall hash ensures Matches(t, r, hash) == Matches(t, r', hash) {}
  }

  lemma SameFew(t: Tables, r: Request, r': Request)
    requires SameQuestion(r, r') && r.limit <= r'.limit
    ensures FewHearings(t, r) ==> FewHearings(t, r')
    ensures FewEchoes(t, r) ==> FewEchoes(t, r')
  {
    forall site | site in r.iatas
      ensures Filter(t.hearings, AskedAt(t, r, site)) == Filter(t.hearings, AskedAt(t, r', site))
      ensures Filter(t.hearings, Echo(t, r, site)) == Filter(t.hearings, Echo(t, r', site))
    {
      FilterAgrees(t.hearings, AskedAt(t, r, site), AskedAt(t, r', site));
      FilterAgrees(t.hearings, Echo(t, r, site), Echo(t, r', site));
    }
  }

  lemma SameSeparate(t: Tables, r: Request, r': Request)
    requires SameQuestion(r, r') && r.limit <= r'.limit && Separate(t, r)
    ensures Separate(t, r')
  {
    SameNewest(t, r, r');
    SameFew(t, r, r');
  }

  // ---- coverage ----

  /** The whole walk: unless a page is cut off, it shows every packet asked for that the requested sites heard below the
      first cursor and not at or above it. */
  lemma {:induction false} WalkShows(t: Tables, r: Request, h: Hearing)
    requires PositiveTimes(t) && Separate(t, r) && r.limit > 0
    requires NewestAt(t, r, h) && Below(r.cursor, h.heardAt)
    ensures h.packet in Walk(t, r).packets || Walk(t, r).cutOff
    decreases r.cursor <= 0, r.cursor
  {
    var next := NextCursor(t, r);
    if next.None? {
      if !Walk(t, r).cutOff { PageHasNoGap(t, r, h); }
    } else if next.value * 1000 <= h.heardAt {
      PageHasNoGap(t, r, h);
    } else {
      NextIsPositive(t, r);
      if r.cursor > 0 { NextIsOlder(t, r); }
      var r' := r.(cursor := next.value);
      SameSeparate(t, r, r');
      SameNewest(t, r, r');
      WalkShows(t, r', h);
    }
  }

  lemma {:induction false} WalkOnlyShows(t: Tables, r: Request, packet: Hash)
    requires PositiveTimes(t) && packet in Walk(t, r).packets
    ensures Matches(t, r, packet) && Unshown(t, r, packet)
    ensures exists h :: h in t.hearings && h.packet == packet && h.iata in r.iatas && Below(r.cursor, h.heardAt)
    decreases r.cursor <= 0, r.cursor
  {
    if packet in Packets(Shown(t, r)) {
      PageOnlyShows(t, r, packet);
    } else {
      NextIsPositive(t, r);
      if r.cursor > 0 { NextIsOlder(t, r); }
      var r' := r.(cursor := NextCursor(t, r).value);
      WalkOnlyShows(t, r', packet);
      assert Matches(t, r, packet) == Matches(t, r', packet);
      var h :| h in t.hearings && h.packet == packet && h.iata in r.iatas && Below(r'.cursor, h.heardAt);
    }
  }

  /** The reference for the walk: the packets asked for that a requested site heard, none of them at or above the
      first cursor. */
  ghost function Wanted(t: Tables, r: Request): set<Hash> {
    set h | h in t.hearings && h.iata in r.iatas && Matches(t, r, h.packet) && Unshown(t, r, h.packet) :: h.packet
  }

  function AtSites(r: Request): Hearing -> bool {
    (h: Hearing) => h.iata in r.iatas
  }

  lemma HasNewest(t: Tables, r: Request, packet: Hash)
    requires packet in Wanted(t, r)
    ensures exists h :: NewestAt(t, r, h) && h.packet == packet && Below(r.cursor, h.heardAt)
  {
    var there := Filter(t.hearings, AtSites(r));
    forall h: Hearing ensures h in there <==> h in t.hearings && h.iata in r.iatas {
      FilterMember(t.hearings, AtSites(r), h);
    }
    LatestIsNewest(there, packet);
    var at := Latest(there, packet);
    assert at.Some?;
    var h :| h in there && h.packet == packet && h.heardAt == at.value;
    assert NewestAt(t, r, h);
  }

  lemma WalkIsCovered(t: Tables, r: Request)
    requires PositiveTimes(t)
    ensures Walk(t, r).packets <= Wanted(t, r)
  {
    forall packet | packet in Walk(t, r).packets ensures packet in Wanted(t, r) {
      WalkOnlyShows(t, r, packet);
    }
  }

  /** With few echoes no page is cut off. */
  lemma {:induction false} FewEchoesKeepWalks(t: Tables, r: Request)
    requires PositiveTimes(t) && FewEchoes(t, r) && r.limit > 0
    ensures !Walk(t, r).cutOff
    decreases r.cursor <= 0, r.cursor
  {
    FewEchoesKeepPages(t, r);
    if NextCursor(t, r).Some? {
      NextIsPositive(t, r);
      if r.cursor > 0 { NextIsOlder(t, r); }
      var r' := r.(cursor := NextCursor(t, r).value);
      SameFew(t, r, r');
      FewEchoesKeepWalks(t, r');
    }
  }

  lemma FewHearingsFewEchoes(t: Tables, r: Request)
    requires FewHearings(t, r)
    ensures FewEchoes(t, r)
  {
    forall site | site in r.iatas ensures multiset(r.iatas)[site] * |Filter(t.hearings, Echo(t, r, site))| < Depth(r) {
      FilterLess(t.hearings, Echo(t, r, site), AskedAt(t, r, site));
      Product(multiset(r.iatas)[site], |Filter(t.hearings, Echo(t, r, site))|,
              |Filter(t.hearings, AskedAt(t, r, site))|);
    }
  }

  /** The walk misses nothing but what a cut-off page keeps from it. */
  lemma WalkShowsAll(t: Tables, r: Request)
    requires PositiveTimes(t) && Separate(t, r) && r.limit > 0 && !Walk(t, r).cutOff
    ensures Walk(t, r).packets == Wanted(t, r)
  {
    WalkIsCovered(t, r);
    forall packet | packet in Wanted(t, r) ensures packet in Walk(t, r).packets {
      HasNewest(t, r, packet);
      var h :| NewestAt(t, r, h) && h.packet == packet && Below(r.cursor, h.heardAt);
      WalkShows(t, r, h);
    }
  }

  /** Coverage, exactly, at microsecond times: the pages together show the wanted packets and no other, when newest
      hearings keep their millisecond to themselves and no site has a whole scan of echoes. */
  lemma WalkIsExact(t: Tables, r: Request)
    requires PositiveTimes(t) && Separate(t, r) && FewEchoes(t, r) && r.limit > 0
    ensures Walk(t, r).packets == Wanted(t, r) && !Walk(t, r).cutOff
  {
    FewEchoesKeepWalks(t, r);
    WalkShowsAll(t, r);
  }

  // ---- and where it does miss ----

  /** What the page leaves out at or above its own next cursor, no later page shows. */
  lemma LeftOutForGood(t: Tables, r: Request, h: Hearing)
    requires PositiveTimes(t) && NewestAt(t, r, h) && NextCursor(t, r).Some?
             && NextCursor(t, r).value * 1000 <= h.heardAt
    ensures h.packet !in Walk(t, r.(cursor := NextCursor(t, r).value)).packets
  {
    NextIsPositive(t, r);
    var r' := r.(cursor := NextCursor(t, r).value);
    if h.packet in Walk(t, r').packets { WalkOnlyShows(t, r', h.packet); }
  }

  /** Two packets with their newest hearings in one millisecond, equal times included, read one per page from just
      above: the walk never shows both. */
  lemma OneOfTwoIsLost(t: Tables, r: Request, a: Hearing, b: Hearing)
    requires PositiveTimes(t) && r.limit == 1 && r.cursor == a.heardAt / 1000 + 1
    requires NewestAt(t, r, a) && NewestAt(t, r, b) && a.packet != b.packet && a.heardAt / 1000 == b.heardAt / 1000
    ensures a.packet in Wanted(t, r) && b.packet in Wanted(t, r)
    ensures a.packet !in Walk(t, r).packets || b.packet !in Walk(t, r).packets
  {
    if NextCursor(t, r).Some? {
      NextIsOlder(t, r);
      LeftToLater(t, r, a);
      LeftToLater(t, r, b);
    }
    OneRowAtMost(t, r, a.packet, b.packet);
  }

  lemma OneRowAtMost(t: Tables, r: Request, p: Hash, q: Hash)
    requires r.limit == 1
    ensures p in Packets(Shown(t, r)) && q in Packets(Shown(t, r)) ==> p == q
  {
  }

  /** Later pages show nothing heard at or above the next cursor. */
  lemma LeftToLater(t: Tables, r: Request, h: Hearing)
    requires PositiveTimes(t) && NewestAt(t, r, h) && NextCursor(t, r).Some?
             && NextCursor(t, r).value * 1000 <= h.heardAt
    ensures h.packet in Walk(t, r).packets <==> h.packet in Packets(Shown(t, r))
  {
    LeftOutForGood(t, r, h);
    NextIsPositive(t, r);
    if r.cursor > 0 { NextIsOlder(t, r); }
  }

  ghost predicate WalkComplete(t: Tables, r: Request)
    requires PositiveTimes(t)
  {
    Walk(t, r).packets == Wanted(t, r)
  }

  /** The exact condition where no scan fills up: every page size from every cursor shows all that is wanted if and
      only if no two packets have their newest hearings in one millisecond. */
  lemma WalksCompleteIff(t: Tables, r: Request)
    requires PositiveTimes(t) && FewHearings(t, r.(limit := 1))
    ensures (forall limit: nat, cursor: int :: limit > 0 ==> WalkComplete(t, r.(limit := limit, cursor := cursor)))
            <==> NewestApart(t, r)
  {
    if NewestApart(t, r) {
      forall limit: nat, cursor: int | limit > 0 ensures WalkComplete(t, r.(limit := limit, cursor := cursor)) {
        var r' := r.(limit := limit, cursor := cursor);
        SameNewest(t, r, r');
        SameFew(t, r.(limit := 1), r');
        FewHearingsFewEchoes(t, r');
        WalkIsExact(t, r');
      }
    } else {
      var a, b :| NewestAt(t, r, a) && NewestAt(t, r, b) && a.heardAt / 1000 == b.heardAt / 1000
          && a.packet != b.packet;
      var r' := r.(limit := 1, cursor := a.heardAt / 1000 + 1);
      SameNewest(t, r, r');
      OneOfTwoIsLost(t, r', a, b);
      assert !WalkComplete(t, r');
    }
  }

  // ---- the order of a walk ----

  /** A packet of a later page was last heard below the next cursor. */
  lemma LaterIsBelowNext(t: Tables, r: Request, packet: Hash, h: Hearing)
    requires PositiveTimes(t) && NextCursor(t, r).Some?
    requires packet in Walk(t, r.(cursor := NextCursor(t, r).value)).packets
    requires h in t.hearings && h.packet == packet && h.iata in r.iatas
    ensures h.heardAt < NextCursor(t, r).value * 1000
  {
    NextIsPositive(t, r);
    WalkOnlyShows(t, r.(cursor := NextCursor(t, r).value), packet);
  }

  lemma RowWasAsked(t: Tables, r: Request, i: nat)
    requires i < |Shown(t, r)|
    ensures exists g :: Asked(t, r, g) && g.packet == Packets(Shown(t, r))[i] && g.heardAt == Shown(t, r)[i].siteHeardAt
  {
    var row := Shown(t, r)[i];
    assert row in Shown(t, r);
    RowComesFrom(t, r, row);
    ScannedRows(t, r);
    var g :| g in Scanned(t, r) && g.packet == row.packet && g.heardAt == row.siteHeardAt;
    assert Asked(t, r, g);
  }

  lemma RowsAboveNext(t: Tables, r: Request, i: nat)
    requires i < |Shown(t, r)| && NextCursor(t, r).Some?
    requires QueryFloor(t, r).Some? ==> QueryFloor(t, r).value <= Shown(t, r)[|Shown(t, r)| - 1].siteHeardAt
    ensures NextCursor(t, r).value * 1000 <= Shown(t, r)[i].siteHeardAt
  {
    ShownOnce(t, r);
    assert NewestRow(Shown(t, r)[i], Shown(t, r)[|Shown(t, r)| - 1]);
  }

  /** So on a page that its last row bounds, every packet was heard at a requested site after every packet of every
      later page. */
  lemma LaterIsOlder(t: Tables, r: Request, i: nat, packet: Hash, h: Hearing)
    requires PositiveTimes(t) && i < |Shown(t, r)| && NextCursor(t, r).Some?
    requires QueryFloor(t, r).Some? ==> QueryFloor(t, r).value <= Shown(t, r)[|Shown(t, r)| - 1].siteHeardAt
    requires packet in Walk(t, r.(cursor := NextCursor(t, r).value)).packets
    requires h in t.hearings && h.packet == packet && h.iata in r.iatas
    ensures exists g :: Asked(t, r, g) && g.packet == Packets(Shown(t, r))[i] && g.heardAt > h.heardAt
  {
    LaterIsBelowNext(t, r, packet, h);
    RowWasAsked(t, r, i);
    RowsAboveNext(t, r, i);
  }

  /** Where no scan fills up that is every page: newer packets never come after older ones. */
  lemma WalkIsInOrder(t: Tables, r: Request, i: nat, packet: Hash, h: Hearing)
    requires PositiveTimes(t) && FewHearings(t, r) && i < |Shown(t, r)| && NextCursor(t, r).Some?
    requires packet in Walk(t, r.(cursor := NextCursor(t, r).value)).packets
    requires h in t.hearings && h.packet == packet && h.iata in r.iatas
    ensures exists g :: Asked(t, r, g) && g.packet == Packets(Shown(t, r))[i] && g.heardAt > h.heardAt
  {
    FewFillNothing(t, r);
    LaterIsOlder(t, r, i, packet, h);
  }

  // ---- the walk, column by column ----

  /** What a walk shows, by the columns: the packets that every filter lets through (an empty one lets everything
      through) and a requested site has heard, none of them at or after the first cursor. */
  lemma WalkByColumns(t: Tables, r: Request, hash: Hash)
    requires PositiveTimes(t) && Separate(t, r) && FewEchoes(t, r) && r.limit > 0
    ensures hash in Walk(t, r).packets <==>
              && hash in t.packets
              && (|r.payloadTypes| == 0 || t.packets[hash].payloadType in r.payloadTypes)
              && (|r.routeTypes| == 0 || t.packets[hash].routeType in r.routeTypes)
              && (|r.scopes| == 0 || (t.packets[hash].scope.Some? && t.packets[hash].scope.value in r.scopes))
              && (r.since == None || r.since.value <= t.packets[hash].firstHeardAt)
              && (r.until == None || t.packets[hash].firstHeardAt <= r.until.value)
              && (exists h :: h in t.hearings && h.packet == hash && h.iata in r.iatas)
              && (r.cursor <= 0 || forall h :: h in t.hearings && h.packet == hash && h.iata in r.iatas ==>
                    h.heardAt < r.cursor * 1000)
  {
    WalkIsExact(t, r);
  }
}
