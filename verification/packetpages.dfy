/** The packet list of some sites: each site is scanned to a fixed depth, duplicates collapse into packets, and the next
    cursor stays above everything a saturated scan did not read. */
module PacketPages {
  import opened Base
  import opened Sorting
  import opened SetBuckets
  import opened Families

  datatype Packet = Packet(payloadType: int, routeType: int, firstHeardAt: int, scope: Option<string>)

  /** One row of packet_observations. The order of rows is the table's: it decides among equal times, so it is
      arbitrary. */
  datatype Hearing = Hearing(packet: Hash, iata: Iata, heardAt: int)

  datatype Tables = Tables(packets: map<Hash, Packet>, hearings: seq<Hearing>)

  /** Empty lists and absent bounds filter nothing; the cursor is in milliseconds, 0 or less for none. */
  datatype Request = Request(iatas: seq<Iata>, payloadTypes: set<int>, routeTypes: set<int>, scopes: set<string>,
                             since: Option<int>,
                             until: Option<int>, cursor: int, limit: nat)

  datatype PageRow = PageRow(packet: Hash, siteHeardAt: int)

  datatype Page = Page(items: seq<Hash>, next: Option<int>, hasMore: bool)

  // ---- the query ----

  predicate Matches(t: Tables, r: Request, hash: Hash) {
    && hash in t.packets
    && var p := t.packets[hash];
       && (r.payloadTypes == {} || p.payloadType in r.payloadTypes)
       && (r.routeTypes == {} || p.routeType in r.routeTypes)
       && (r.since.Some? ==> p.firstHeardAt >= r.since.value)
       && (r.until.Some? ==> p.firstHeardAt <= r.until.value)
       && (r.scopes == {} || (p.scope.Some? && p.scope.value in r.scopes))
  }

  predicate Below(cursor: int, heardAt: int) {
    cursor > 0 ==> heardAt < cursor * 1000
  }

  function Candidate(t: Tables, r: Request, site: Iata): Hearing -> bool {
    (h: Hearing) => h.iata == site && Below(r.cursor, h.heardAt) && Matches(t, r, h.packet)
  }

  predicate Newer(a: Hearing, b: Hearing) {
    a.heardAt >= b.heardAt
  }

  function Depth(r: Request): nat {
    (r.limit + 1) * 8
  }

  function Scan(t: Tables, r: Request, site: Iata): seq<Hearing> {
    Take(Sort(Filter(t.hearings, Candidate(t, r, site)), Newer), Depth(r))
  }

  function ScanAll(t: Tables, r: Request, sites: seq<Iata>): seq<Hearing> {
    if sites == [] then [] else ScanAll(t, r, sites[..|sites| - 1]) + Scan(t, r, sites[|sites| - 1])
  }

  function Scanned(t: Tables, r: Request): seq<Hearing> {
    ScanAll(t, r, r.iatas)
  }

  function AtSite(site: Iata): Hearing -> bool {
    (h: Hearing) => h.iata == site
  }

  function Oldest(hearings: seq<Hearing>): int
    requires hearings != []
  {
    var last := hearings[|hearings| - 1].heardAt;
    if |hearings| == 1 then last else Min(Oldest(hearings[..|hearings| - 1]), last)
  }

  predicate Filled(scanned: seq<Hearing>, site: Iata, depth: nat) {
    |Filter(scanned, AtSite(site))| >= depth
  }

  /** saturation: the newest of the filled sites' oldest scanned times; None when no site filled its scan. */
  function Floor(scanned: seq<Hearing>, sites: seq<Iata>, depth: nat): Option<int>
    requires depth > 0
  {
    if sites == [] then None
    else
      var floor, site := Floor(scanned, sites[..|sites| - 1], depth), sites[|sites| - 1];
      if !Filled(scanned, site, depth) then floor
      else
        var oldest := Oldest(Filter(scanned, AtSite(site)));
        Some(if floor.Some? then Max(floor.value, oldest) else oldest)
  }

  function Latest(scanned: seq<Hearing>, packet: Hash): Option<int> {
    if scanned == [] then None
    else
      var front, last := Latest(scanned[..|scanned| - 1], packet), scanned[|scanned| - 1];
      if last.packet != packet then front else Some(if front.Some? then Max(front.value, last.heardAt)
          else last.heardAt)
  }

  /** GROUP BY packet_hash. */
  function Distinct(scanned: seq<Hearing>): seq<Hash> {
    if scanned == [] then []
    else
      var front, packet := Distinct(scanned[..|scanned| - 1]), scanned[|scanned| - 1].packet;
      if packet in front then front else front + [packet]
  }

  function PageRows(scanned: seq<Hearing>): seq<PageRow> {
    var packets := Distinct(scanned);
    seq(|packets|, i requires 0 <= i < |packets| =>
      PageRow(packets[i], var at := Latest(scanned, packets[i]); if at.Some? then at.value else 0))
  }

  /** HAVING: not heard at a requested site at or after the cursor, so not on an earlier page. */
  predicate Unshown(t: Tables, r: Request, packet: Hash) {
    r.cursor > 0 ==> !exists h :: h in t.hearings && h.packet == packet && h.iata in r.iatas
                                  && h.heardAt >= r.cursor * 1000
  }

  function UnshownRow(t: Tables, r: Request): PageRow -> bool {
    (row: PageRow) => Unshown(t, r, row.packet)
  }

  predicate NewestRow(a: PageRow, b: PageRow) {
    a.siteHeardAt >= b.siteHeardAt
  }

  function Eligible(t: Tables, r: Request): seq<PageRow> {
    Filter(PageRows(Scanned(t, r)), UnshownRow(t, r))
  }

  function Query(t: Tables, r: Request): seq<PageRow> {
    Take(Sort(Eligible(t, r), NewestRow), r.limit + 1)
  }

  function QueryFloor(t: Tables, r: Request): Option<int> {
    Floor(Scanned(t, r), r.iatas, Depth(r))
  }

  // ---- the page ----

  /** Every matching packet newer than this is on the page; None when nothing is left below it. Microseconds. */
  function Bound(t: Tables, r: Request): Option<int> {
    var found, floor := Query(t, r), QueryFloor(t, r);
    var shown := Take(found, r.limit);
    if shown == [] || (|found| <= r.limit && floor.None?) then None
    else
      var last := shown[|shown| - 1].siteHeardAt;
      Some(if floor.Some? then Max(floor.value, last) else last)
  }

  function Packets(rows: seq<PageRow>): seq<Hash> {
    seq(|rows|, i requires 0 <= i < |rows| => rows[i].packet)
  }

  /** UnixMilli rounds down. */
  function NextCursor(t: Tables, r: Request): Option<int> {
    var bound := Bound(t, r);
    if bound.Some? then Some(bound.value / 1000) else None
  }

  /** The time is that of a scanned hearing of the packet, and no scanned hearing of it is newer. */
  ghost predicate NewestScanned(scanned: seq<Hearing>, packet: Hash, at: int) {
    && (exists h :: h in scanned && h.packet == packet && h.heardAt == at)
    && (forall h :: h in scanned && h.packet == packet ==> h.heardAt <= at)
  }

  ghost predicate IsScanned(scanned: seq<Hearing>, packet: Hash) {
    exists h :: h in scanned && h.packet == packet
  }

  /** Packets of the scan in the order of their newest scanned hearings, none twice. */
  ghost predicate NewestFirst(scanned: seq<Hearing>, items: seq<Hash>) {
    && (forall packet :: packet in items ==> IsScanned(scanned, packet))
    && (forall i, j, a, b ::
          0 <= i < j < |items| && NewestScanned(scanned, items[i], a) && NewestScanned(scanned, items[j], b) ==>
            items[i] != items[j] && a >= b)
  }

  /** The cursor is the newest scanned time of this packet, or the scan floor if that is later, in whole
      milliseconds. */
  ghost predicate CursorOfLast(t: Tables, r: Request, packet: Hash, next: int) {
    exists at :: NewestScanned(Scanned(t, r), packet, at)
                 && next == (if QueryFloor(t, r).Some? then Max(QueryFloor(t, r).value, at) else at) / 1000
  }

  ghost predicate InOrder(t: Tables, r: Request, page: Page) {
    && |page.items| <= r.limit && NewestFirst(Scanned(t, r), page.items)
    && (page.next.Some? ==> page.items != [] && CursorOfLast(t, r, page.items[|page.items| - 1], page.next.value))
  }

  method Items(rows: seq<PageRow>) returns (items: seq<Hash>)
    ensures items == Packets(rows)
  {
    items := [];
    for i := 0 to |rows|
      invariant items == Packets(rows[..i])
    {
      assert rows[..i + 1][..i] == rows[..i];
      items := items + [rows[i].packet];
    }
    assert rows[..|rows|] == rows;
  }

  /** listPacketsByIATAs on the rows of its query; saturation shows only on a row. */
  method ListPacketsByIATAs(t: Tables, r: Request) returns (page: Page)
    ensures page.items == Packets(Take(Query(t, r), r.limit))
    ensures page.next == NextCursor(t, r)
    ensures r.limit > 0 ==> page.hasMore == page.next.Some?
    // At most limit packets, each once, the one scanned most recently first; the next cursor comes from the last one.
    ensures InOrder(t, r, page)
  {
    var rows := Query(t, r);
    var hasMore := |rows| > r.limit;
    if hasMore {
      rows := rows[..r.limit];
    }
    var scanFloor := None;
    if |rows| > 0 && QueryFloor(t, r).Some? {
      hasMore := true;
      scanFloor := QueryFloor(t, r);
    }
    var items := Items(rows);
    var next := None;
    if hasMore && |rows| > 0 {
      var last := rows[|rows| - 1].siteHeardAt;
      if scanFloor.Some? && scanFloor.value > last {
        last := scanFloor.value;
      }
      next := Some(last / 1000);
    }
    page := Page(items, next, hasMore);
    ServedInOrder(t, r, page);
  }

  // ---- what a scan reads ----

  lemma Preorders()
    ensures TotalPreorder(Newer) && TotalPreorder(NewestRow)
  {
  }

  lemma {:induction false} ScannedMember(t: Tables, r: Request, sites: seq<Iata>, h: Hearing)
    ensures h in ScanAll(t, r, sites) <==> h.iata in sites && h in Scan(t, r, h.iata)
  {
    if sites != [] {
      var front, last := sites[..|sites| - 1], sites[|sites| - 1];
      assert sites == front + [last];
      ScannedMember(t, r, front, h);
      if h in Scan(t, r, last) { ScanIsCandidate(t, r, last, h); }
    }
  }

  lemma ScanIsCandidate(t: Tables, r: Request, site: Iata, h: Hearing)
    requires h in Scan(t, r, site)
    ensures h in t.hearings && Candidate(t, r, site)(h)
  {
    Preorders();
    TakeIsFrom(Filter(t.hearings, Candidate(t, r, site)), Newer, Depth(r), h);
    FilterMember(t.hearings, Candidate(t, r, site), h);
  }

  /** A scan counts once for every time its site is listed. */
  lemma {:induction false} SiteCount(t: Tables, r: Request, sites: seq<Iata>, site: Iata)
    ensures |Filter(ScanAll(t, r, sites), AtSite(site))| == multiset(sites)[site] * |Scan(t, r, site)|
  {
    if sites != [] {
      var front, last := sites[..|sites| - 1], sites[|sites| - 1];
      assert sites == front + [last];
      SiteCount(t, r, front, site);
      FilterConcat(ScanAll(t, r, front), Scan(t, r, last), AtSite(site));
      ScanAtSite(t, r, last, site);
      OneMore(multiset(front)[site], |Scan(t, r, site)|);
      CountSnoc(sites, site);
    }
  }

  lemma CountSnoc(sites: seq<Iata>, site: Iata)
    requires sites != []
    ensures multiset(sites)[site] == multiset(sites[..|sites| - 1])[site] + if sites[|sites| - 1] == site then 1 else 0
  {
    assert sites == sites[..|sites| - 1] + [sites[|sites| - 1]];
  }

  lemma ScanAtSite(t: Tables, r: Request, last: Iata, site: Iata)
    ensures Filter(Scan(t, r, last), AtSite(site)) == if last == site then Scan(t, r, site) else []
  {
    forall h | h in Scan(t, r, last) ensures h.iata == last { ScanIsCandidate(t, r, last, h); }
    if last == site {
      FilterAll(Scan(t, r, last), AtSite(site));
    } else {
      FilterNone(Scan(t, r, last), AtSite(site));
    }
  }

  lemma OneMore(n: nat, size: nat)
    ensures (n + 1) * size == n * size + size
  {
  }

  lemma {:induction false} OldestIsLeast(hearings: seq<Hearing>)
    requires hearings != []
    ensures forall h :: h in hearings ==> Oldest(hearings) <= h.heardAt
    ensures exists h :: h in hearings && h.heardAt == Oldest(hearings)
  {
    var front, last := hearings[..|hearings| - 1], hearings[|hearings| - 1];
    assert hearings == front + [last];
    if front == [] {
      assert last in hearings;
    } else {
      OldestIsLeast(front);
      var h :| h in front && h.heardAt == Oldest(front);
      assert h in hearings && last in hearings;
    }
  }

  /** The floor is a scanned time, and lies at or above the oldest scanned time of every filled site. */
  lemma {:induction false} FloorBounds(scanned: seq<Hearing>, sites: seq<Iata>, depth: nat)
    requires depth > 0
    ensures var floor := Floor(scanned, sites, depth);
            && (floor.Some? ==> exists h :: h in scanned && h.heardAt == floor.value)
            && (floor.Some? ==> exists site :: site in sites && Filled(scanned, site, depth)
                                               && Oldest(Filter(scanned, AtSite(site))) == floor.value)
            && (forall site :: site in sites && Filled(scanned, site, depth) ==>
                  floor.Some? && floor.value >= Oldest(Filter(scanned, AtSite(site))))
  {
    if sites != [] {
      var front, site := sites[..|sites| - 1], sites[|sites| - 1];
      assert sites == front + [site];
      FloorBounds(scanned, front, depth);
      if Filled(scanned, site, depth) {
        var there := Filter(scanned, AtSite(site));
        OldestIsLeast(there);
        var h :| h in there && h.heardAt == Oldest(there);
        FilterMember(scanned, AtSite(site), h);
      }
    }
  }

  /** A site listed here whose scan returned as many rows as it may, the oldest of them heard at this time. */
  ghost predicate FilledDownTo(scanned: seq<Hearing>, sites: seq<Iata>, depth: nat, site: Iata, at: int) {
    && site in sites && |Filter(scanned, AtSite(site))| >= depth
    && (exists h :: h in scanned && h.iata == site && h.heardAt == at)
    && (forall h :: h in scanned && h.iata == site ==> at <= h.heardAt)
  }

  lemma FilledOldest(scanned: seq<Hearing>, sites: seq<Iata>, depth: nat, site: Iata, at: int)
    requires depth > 0
    ensures FilledDownTo(scanned, sites, depth, site, at) <==>
              site in sites && Filled(scanned, site, depth) && Oldest(Filter(scanned, AtSite(site))) == at
  {
    var there := Filter(scanned, AtSite(site));
    forall h: Hearing ensures h in there <==> h in scanned && h.iata == site { FilterMember(scanned, AtSite(site), h); }
    if there != [] {
      OldestIsLeast(there);
      var g :| g in there && g.heardAt == Oldest(there);
      if FilledDownTo(scanned, sites, depth, site, at) {
        var h :| h in scanned && h.iata == site && h.heardAt == at;
        assert h in there;
      }
    }
  }

  /** The floor is the newest of the filled sites' oldest scanned times, and there is one exactly if a site is
      filled. */
  lemma FloorIsExact(t: Tables, r: Request, at: int)
    ensures var scanned, depth := Scanned(t, r), 8 * r.limit + 8;
            QueryFloor(t, r) == Some(at) <==>
              && (exists site :: FilledDownTo(scanned, r.iatas, depth, site, at))
              && (forall site, other :: FilledDownTo(scanned, r.iatas, depth, site, other) ==> other <= at)
  {
    var scanned, depth := Scanned(t, r), Depth(r);
    FloorBounds(scanned, r.iatas, depth);
    forall site, time ensures FilledDownTo(scanned, r.iatas, depth, site, time) <==>
        site in r.iatas && Filled(scanned, site, depth) && Oldest(Filter(scanned, AtSite(site))) == time {
      FilledOldest(scanned, r.iatas, depth, site, time);
    }
    if QueryFloor(t, r).Some? {
      var floor := QueryFloor(t, r).value;
      var site :| site in r.iatas && Filled(scanned, site, depth)
                  && Oldest(Filter(scanned, AtSite(site))) == floor;
      assert FilledDownTo(scanned, r.iatas, depth, site, floor);
    }
  }

  lemma FullScanFills(t: Tables, r: Request, site: Iata)
    requires site in r.iatas && |Scan(t, r, site)| == Depth(r)
    ensures Filled(Scanned(t, r), site, Depth(r))
  {
    SiteCount(t, r, r.iatas, site);
    AtLeastOnce(multiset(r.iatas)[site], |Scan(t, r, site)|);
  }

  lemma AtLeastOnce(n: nat, size: nat)
    ensures n >= 1 ==> n * size >= size
  {
    if n >= 1 { OneMore(n - 1, size); }
  }

  /** What a scan did not read lies at or below the floor. */
  lemma UnreadIsBelowFloor(t: Tables, r: Request, h: Hearing)
    requires h in t.hearings && h.iata in r.iatas && Candidate(t, r, h.iata)(h) && h !in Scanned(t, r)
    ensures QueryFloor(t, r).Some? && h.heardAt <= QueryFloor(t, r).value
  {
    var site, scanned, depth := h.iata, Scanned(t, r), Depth(r);
    ScannedMember(t, r, r.iatas, h);
    Preorders();
    FilterMember(t.hearings, Candidate(t, r, site), h);
    TakeFirst(Filter(t.hearings, Candidate(t, r, site)), Newer, depth, h);
    if |Scan(t, r, site)| == depth { FullScanFills(t, r, site); }
    FloorBounds(scanned, r.iatas, depth);
    var there := Filter(scanned, AtSite(site));
    OldestIsLeast(there);
    var s :| s in there && s.heardAt == Oldest(there);
    FilterMember(scanned, AtSite(site), s);
    ScannedMember(t, r, r.iatas, s);
    assert Newer(s, h);
  }

  // ---- what the grouping keeps ----

  lemma {:induction false} DistinctMember(scanned: seq<Hearing>, packet: Hash)
    ensures packet in Distinct(scanned) <==> exists h :: h in scanned && h.packet == packet
  {
    if scanned != [] {
      var front, last := scanned[..|scanned| - 1], scanned[|scanned| - 1];
      assert scanned == front + [last];
      DistinctMember(front, packet);
      assert last in scanned;
      if h :| h in front && h.packet == packet { assert h in scanned; }
    }
  }

  lemma {:induction false} LatestIsNewest(scanned: seq<Hearing>, packet: Hash)
    ensures var at := Latest(scanned, packet);
            && (forall h :: h in scanned && h.packet == packet ==> at.Some? && h.heardAt <= at.value)
            && (at.Some? ==> exists h :: h in scanned && h.packet == packet && h.heardAt == at.value)
  {
    if scanned != [] {
      var front, last := scanned[..|scanned| - 1], scanned[|scanned| - 1];
      assert scanned == front + [last];
      LatestIsNewest(front, packet);
      assert last in scanned;
      var at := Latest(front, packet);
      if at.Some? {
        var h :| h in front && h.packet == packet && h.heardAt == at.value;
        assert h in scanned;
      }
    }
  }

  lemma RowMember(scanned: seq<Hearing>, row: PageRow)
    ensures row in PageRows(scanned) <==> Latest(scanned, row.packet) == Some(row.siteHeardAt)
  {
    var packets, rows := Distinct(scanned), PageRows(scanned);
    DistinctMember(scanned, row.packet);
    LatestIsNewest(scanned, row.packet);
    if row in rows {
      var i :| 0 <= i < |rows| && rows[i] == row;
      assert packets[i] in packets;
    }
    if Latest(scanned, row.packet) == Some(row.siteHeardAt) {
      var i :| 0 <= i < |packets| && packets[i] == row.packet;
      assert rows[i] == row;
    }
  }

  lemma EligibleMember(t: Tables, r: Request, row: PageRow)
    ensures row in Eligible(t, r) <==>
            Latest(Scanned(t, r), row.packet) == Some(row.siteHeardAt) && Unshown(t, r, row.packet)
  {
    FilterMember(PageRows(Scanned(t, r)), UnshownRow(t, r), row);
    RowMember(Scanned(t, r), row);
  }

  // ---- the page ----

  function Shown(t: Tables, r: Request): seq<PageRow> {
    Take(Query(t, r), r.limit)
  }

  lemma ShownPackets(t: Tables, r: Request, packet: Hash)
    ensures packet in Packets(Shown(t, r)) <==> exists row :: row in Shown(t, r) && row.packet == packet
  {
    var shown, packets := Shown(t, r), Packets(Shown(t, r));
    if packet in packets {
      var i :| 0 <= i < |packets| && packets[i] == packet;
      assert shown[i] in shown;
    }
    if row :| row in shown && row.packet == packet {
      var i :| 0 <= i < |shown| && shown[i] == row;
      assert packets[i] == packet;
    }
  }

  /** An eligible row is shown, or comes no later than the last row shown. */
  lemma EligibleShown(t: Tables, r: Request, row: PageRow)
    requires row in Eligible(t, r) && r.limit > 0
    ensures row in Shown(t, r)
            || (|Query(t, r)| > r.limit && |Shown(t, r)| == r.limit
                && Shown(t, r)[r.limit - 1].siteHeardAt >= row.siteHeardAt)
  {
    var rows := Eligible(t, r);
    Preorders();
    TakeFirst(rows, NewestRow, r.limit, row);
    SortOrders(rows, NewestRow);
    var sorted := Sort(rows, NewestRow);
    assert Shown(t, r) == Take(sorted, r.limit);
    if row !in Shown(t, r) {
      assert NewestRow(Shown(t, r)[r.limit - 1], row);
      assert row in multiset(sorted);
    }
  }

  lemma ShownIsEligible(t: Tables, r: Request, row: PageRow)
    requires row in Shown(t, r)
    ensures row in Eligible(t, r)
  {
    Preorders();
    TakeIsFrom(Eligible(t, r), NewestRow, r.limit + 1, row);
  }

  /** A packet the request asks for, at its newest hearing at the requested sites. */
  ghost predicate NewestAt(t: Tables, r: Request, h: Hearing) {
    && h in t.hearings && h.iata in r.iatas && Matches(t, r, h.packet)
    && forall other :: other in t.hearings && other.packet == h.packet && other.iata in r.iatas
                       ==> other.heardAt <= h.heardAt
  }

  lemma NewestIsEligible(t: Tables, r: Request, h: Hearing)
    requires NewestAt(t, r, h) && Below(r.cursor, h.heardAt) && h in Scanned(t, r)
    ensures PageRow(h.packet, h.heardAt) in Eligible(t, r)
  {
    var scanned := Scanned(t, r);
    LatestIsNewest(scanned, h.packet);
    forall s | s in scanned && s.packet == h.packet ensures s.heardAt <= h.heardAt {
      ScannedMember(t, r, r.iatas, s);
      ScanIsCandidate(t, r, s.iata, s);
    }
    EligibleMember(t, r, PageRow(h.packet, h.heardAt));
  }

  /** No gaps, for every table: a packet whose newest hearing lies above the bound and below the cursor is on the page.
      When there is no bound everything below the cursor is, unless the page is empty although a scan filled up. */
  lemma PageShows(t: Tables, r: Request, h: Hearing)
    requires NewestAt(t, r, h) && Below(r.cursor, h.heardAt) && r.limit > 0
    requires match Bound(t, r) case Some(bound) =>
             bound < h.heardAt case None => Shown(t, r) != [] || QueryFloor(t, r).None?
    ensures h.packet in Packets(Shown(t, r))
  {
    if h !in Scanned(t, r) {
      UnreadIsBelowFloor(t, r, h);
    } else {
      var row := PageRow(h.packet, h.heardAt);
      NewestIsEligible(t, r, h);
      EligibleShown(t, r, row);
      ShownPackets(t, r, h.packet);
    }
  }

  /** And only such packets: asked for, heard below the cursor at a requested site, and not at or above it. */
  lemma PageOnlyShows(t: Tables, r: Request, packet: Hash)
    requires packet in Packets(Shown(t, r))
    ensures Matches(t, r, packet) && Unshown(t, r, packet)
    ensures exists h :: h in t.hearings && h.packet == packet && h.iata in r.iatas && Below(r.cursor, h.heardAt)
  {
    ShownPackets(t, r, packet);
    var row :| row in Shown(t, r) && row.packet == packet;
    RowComesFrom(t, r, row);
  }

  /** A row's time is that of a hearing the scan read. */
  lemma RowComesFrom(t: Tables, r: Request, row: PageRow)
    requires row in Shown(t, r)
    ensures Unshown(t, r, row.packet)
    ensures exists h :: h in Scanned(t, r) && h.packet == row.packet && h.heardAt == row.siteHeardAt
    ensures forall h :: h in Scanned(t, r) ==>
            h in t.hearings && h.iata in r.iatas && Below(r.cursor, h.heardAt) && Matches(t, r, h.packet)
  {
    ShownIsEligible(t, r, row);
    EligibleMember(t, r, row);
    LatestIsNewest(Scanned(t, r), row.packet);
    ScannedRows(t, r);
  }

  lemma ScannedRows(t: Tables, r: Request)
    ensures forall h :: h in Scanned(t, r) ==>
            h in t.hearings && h.iata in r.iatas && Below(r.cursor, h.heardAt) && Matches(t, r, h.packet)
  {
    forall h | h in Scanned(t, r) ensures h in t.hearings && h.iata in r.iatas && Below(r.cursor, h.heardAt)
        && Matches(t, r, h.packet) {
      ScannedMember(t, r, r.iatas, h);
      ScanIsCandidate(t, r, h.iata, h);
    }
  }

  /** The bound is the time of a hearing that the scan read. */
  lemma BoundIsScanned(t: Tables, r: Request)
    requires Bound(t, r).Some?
    ensures exists h :: h in Scanned(t, r) && h.heardAt == Bound(t, r).value
  {
    var shown := Shown(t, r);
    RowComesFrom(t, r, shown[|shown| - 1]);
    FloorBounds(Scanned(t, r), r.iatas, Depth(r));
  }

  /** Every next cursor is smaller than the cursor it was computed from, which is why the walk ends. */
  lemma NextIsOlder(t: Tables, r: Request)
    requires NextCursor(t, r).Some? && r.cursor > 0
    ensures NextCursor(t, r).value < r.cursor
  {
    BoundIsScanned(t, r);
    ScannedRows(t, r);
    var h :| h in Scanned(t, r) && h.heardAt == Bound(t, r).value;
    assert h.heardAt < r.cursor * 1000;
  }

  // ---- times ----

  /** A hearing that answers the request, cursor apart. */
  ghost predicate Asked(t: Tables, r: Request, h: Hearing) {
    h in t.hearings && h.iata in r.iatas && Matches(t, r, h.packet)
  }

  /** No hearing of another packet at the very same time. */
  ghost predicate Alone(t: Tables, r: Request, h: Hearing) {
    forall b :: Asked(t, r, b) && b.heardAt == h.heardAt ==> b.packet == h.packet
  }

  /** A packet alone at the bound is on the page too. */
  lemma BoundIsShown(t: Tables, r: Request, h: Hearing)
    requires NewestAt(t, r, h) && Below(r.cursor, h.heardAt) && r.limit > 0 && Alone(t, r, h)
    requires Bound(t, r) == Some(h.heardAt)
    ensures h.packet in Packets(Shown(t, r))
  {
    BoundIsScanned(t, r);
    ScannedRows(t, r);
    var g :| g in Scanned(t, r) && g.heardAt == h.heardAt;
    assert Asked(t, r, g);
    NewestIsEligible(t, r, g);
    var row := PageRow(h.packet, h.heardAt);
    EligibleShown(t, r, row);
    ShownPackets(t, r, h.packet);
    if row !in Shown(t, r) {
      RowAtTime(t, r, Shown(t, r)[r.limit - 1], h);
    }
  }

  /** A row dated as a hearing that is alone is that of its packet. */
  lemma RowAtTime(t: Tables, r: Request, row: PageRow, h: Hearing)
    requires row in Shown(t, r) && Alone(t, r, h) && row.siteHeardAt == h.heardAt
    ensures row == PageRow(h.packet, h.heardAt)
  {
    RowComesFrom(t, r, row);
    var g :| g in Scanned(t, r) && g.packet == row.packet && g.heardAt == row.siteHeardAt;
    assert Asked(t, r, g);
  }

  /** A page bounded by its last row shows a packet that is alone at its newest time exactly when it is not
      older than that row, at any precision. The next cursor rounds the bound down, so what lies between the two
      is on neither side. */
  lemma ShownIffNotOlder(t: Tables, r: Request, h: Hearing)
    requires NewestAt(t, r, h) && Below(r.cursor, h.heardAt) && r.limit > 0 && Alone(t, r, h)
    requires Shown(t, r) != [] && Bound(t, r) == Some(Shown(t, r)[|Shown(t, r)| - 1].siteHeardAt)
    ensures h.packet in Packets(Shown(t, r)) <==> Bound(t, r).value <= h.heardAt
  {
    if Bound(t, r).value < h.heardAt {
      PageShows(t, r, h);
    } else if Bound(t, r).value == h.heardAt {
      BoundIsShown(t, r, h);
    } else if h.packet in Packets(Shown(t, r)) {
      ShownPackets(t, r, h.packet);
      var row :| row in Shown(t, r) && row.packet == h.packet;
      RowComesFrom(t, r, row);
      ShownInOrder(t, r, row);
    }
  }

  lemma ShownInOrder(t: Tables, r: Request, row: PageRow)
    requires row in Shown(t, r)
    ensures row.siteHeardAt >= Shown(t, r)[|Shown(t, r)| - 1].siteHeardAt
  {
    Preorders();
    SortOrders(Eligible(t, r), NewestRow);
    LastIsOldest(Sort(Eligible(t, r), NewestRow), Shown(t, r), row);
  }

  lemma LastIsOldest(sorted: seq<PageRow>, shown: seq<PageRow>, row: PageRow)
    requires Ordered(sorted, NewestRow) && shown <= sorted && row in shown
    ensures row.siteHeardAt >= shown[|shown| - 1].siteHeardAt
  {
    var i :| 0 <= i < |shown| && shown[i] == row;
    assert i < |shown| - 1 ==> NewestRow(sorted[i], sorted[|shown| - 1]);
  }

  // ---- pages without a gap ----

  /** No packet's newest hearing shares its millisecond with any hearing of another packet. */
  ghost predicate Apart(t: Tables, r: Request) {
    forall a, b :: NewestAt(t, r, a) && Asked(t, r, b) && a.heardAt / 1000 == b.heardAt / 1000 ==> a.packet == b.packet
  }

  /** No two packets have their newest hearings in one millisecond. */
  ghost predicate NewestApart(t: Tables, r: Request) {
    forall a, b :: NewestAt(t, r, a) && NewestAt(t, r, b) && a.heardAt / 1000 == b.heardAt / 1000
                   ==> a.packet == b.packet
  }

  function AskedAt(t: Tables, r: Request, site: Iata): Hearing -> bool {
    (h: Hearing) => h.iata == site && Matches(t, r, h.packet)
  }

  /** So few hearings at every requested site that no scan can fill up; a site listed twice counts twice. */
  ghost predicate FewHearings(t: Tables, r: Request) {
    forall site :: site in r.iatas ==> multiset(r.iatas)[site] * |Filter(t.hearings, AskedAt(t, r, site))| < Depth(r)
  }

  /** What the table has to satisfy for the times: the second form is weaker, but takes scans that read everything. */
  ghost predicate Separate(t: Tables, r: Request) {
    Apart(t, r) || (NewestApart(t, r) && FewHearings(t, r))
  }

  /** A scan that is not cut reads no more than there is. */
  lemma FewFillNothing(t: Tables, r: Request)
    requires FewHearings(t, r)
    ensures QueryFloor(t, r).None?
  {
    FloorBounds(Scanned(t, r), r.iatas, Depth(r));
    if QueryFloor(t, r).Some? {
      var site :| site in r.iatas && Filled(Scanned(t, r), site, Depth(r));
      SiteCount(t, r, r.iatas, site);
      ScanIsFew(t, r, site);
      Product(multiset(r.iatas)[site], |Scan(t, r, site)|, |Filter(t.hearings, AskedAt(t, r, site))|);
    }
  }

  lemma ScanIsFew(t: Tables, r: Request, site: Iata)
    ensures |Scan(t, r, site)| <= |Filter(t.hearings, AskedAt(t, r, site))|
  {
    Preorders();
    SortLength(Filter(t.hearings, Candidate(t, r, site)), Newer);
    FilterLess(t.hearings, Candidate(t, r, site), AskedAt(t, r, site));
  }

  lemma Product(n: nat, a: nat, b: nat)
    requires a <= b
    ensures n * a <= n * b
  {
  }

  /** Without a full scan every row is dated by its packet's newest hearing. */
  lemma RowIsNewest(t: Tables, r: Request, row: PageRow)
    requires row in Shown(t, r) && QueryFloor(t, r).None?
    ensures exists g :: NewestAt(t, r, g) && g.packet == row.packet && g.heardAt == row.siteHeardAt
  {
    RowComesFrom(t, r, row);
    ShownIsEligible(t, r, row);
    EligibleMember(t, r, row);
    LatestIsNewest(Scanned(t, r), row.packet);
    var g :| g in Scanned(t, r) && g.packet == row.packet && g.heardAt == row.siteHeardAt;
    forall other | other in t.hearings && other.packet == g.packet && other.iata in r.iatas
        ensures other.heardAt <= g.heardAt {
      assert Candidate(t, r, other.iata)(other);
      if other !in Scanned(t, r) { UnreadIsBelowFloor(t, r, other); }
    }
    assert NewestAt(t, r, g);
  }

  /** Every packet whose newest hearing lies in [next cursor, cursor) is on the page, at microsecond times. */
  lemma PageHasNoGap(t: Tables, r: Request, h: Hearing)
    requires NewestAt(t, r, h) && Below(r.cursor, h.heardAt) && r.limit > 0 && Separate(t, r)
    requires match NextCursor(t, r) case Some(next) =>
             next * 1000 <= h.heardAt case None => Shown(t, r) != [] || QueryFloor(t, r).None?
    ensures h.packet in Packets(Shown(t, r))
  {
    if NextCursor(t, r).None? || Bound(t, r).value < h.heardAt {
      PageShows(t, r, h);
    } else {
      SameMillisecond(Bound(t, r).value, h.heardAt);
      if Apart(t, r) { BoundApart(t, r, h); } else { BoundUnfilled(t, r, h); }
    }
  }

  /** The hearing at the bound is one of this packet's own. */
  lemma BoundApart(t: Tables, r: Request, h: Hearing)
    requires NewestAt(t, r, h) && Below(r.cursor, h.heardAt) && r.limit > 0 && Apart(t, r)
    requires Bound(t, r).Some? && h.heardAt <= Bound(t, r).value && h.heardAt / 1000 == Bound(t, r).value / 1000
    ensures h.packet in Packets(Shown(t, r))
  {
    BoundIsAsked(t, r);
    var g :| Asked(t, r, g) && g.heardAt == Bound(t, r).value;
    ApartIsAlone(t, r, h);
    BoundIsShown(t, r, h);
  }

  lemma BoundIsAsked(t: Tables, r: Request)
    requires Bound(t, r).Some?
    ensures exists g :: Asked(t, r, g) && g.heardAt == Bound(t, r).value
  {
    BoundIsScanned(t, r);
    ScannedRows(t, r);
    var g :| g in Scanned(t, r) && g.heardAt == Bound(t, r).value;
    assert Asked(t, r, g);
  }

  lemma ApartIsAlone(t: Tables, r: Request, h: Hearing)
    requires Apart(t, r) && NewestAt(t, r, h)
    ensures Alone(t, r, h)
  {
  }

  /** The row at the bound is this packet's own. */
  lemma BoundUnfilled(t: Tables, r: Request, h: Hearing)
    requires NewestAt(t, r, h) && NewestApart(t, r) && FewHearings(t, r)
    requires Bound(t, r).Some? && h.heardAt / 1000 == Bound(t, r).value / 1000
    ensures h.packet in Packets(Shown(t, r))
  {
    FewFillNothing(t, r);
    var last := Shown(t, r)[|Shown(t, r)| - 1];
    RowIsNewest(t, r, last);
    ShownPackets(t, r, h.packet);
  }

  lemma SameMillisecond(bound: int, at: int)
    requires bound / 1000 * 1000 <= at <= bound
    ensures at / 1000 == bound / 1000
  {
  }

  // ---- empty pages ----

  /** A page is empty exactly when its scans read only packets that earlier pages have shown. */
  lemma EmptyPageIff(t: Tables, r: Request)
    requires r.limit > 0
    ensures Shown(t, r) == [] <==> forall h :: h in Scanned(t, r) ==> !Unshown(t, r, h.packet)
  {
    if Shown(t, r) == [] {
      forall h | h in Scanned(t, r) ensures !Unshown(t, r, h.packet) {
        LatestIsNewest(Scanned(t, r), h.packet);
        var row := PageRow(h.packet, Latest(Scanned(t, r), h.packet).value);
        EligibleMember(t, r, row);
        if Unshown(t, r, h.packet) { EligibleShown(t, r, row); }
      }
    } else {
      var row := Shown(t, r)[0];
      RowComesFrom(t, r, row);
    }
  }

  /** A hearing at the site of a packet that some requested site heard later. */
  ghost function Echo(t: Tables, r: Request, site: Iata): Hearing -> bool {
    (h: Hearing) =>
      && h.iata == site && Matches(t, r, h.packet)
      && exists g :: g in t.hearings && g.packet == h.packet && g.iata in r.iatas && g.heardAt > h.heardAt
  }

  /** At every requested site, fewer hearings of packets heard again later than a scan reads. */
  ghost predicate FewEchoes(t: Tables, r: Request) {
    forall site :: site in r.iatas ==> multiset(r.iatas)[site] * |Filter(t.hearings, Echo(t, r, site))| < Depth(r)
  }

  /** A scan that reads only hearings of one kind is no longer than there are such hearings. */
  lemma ScanOfKind(t: Tables, r: Request, site: Iata, kind: Hearing -> bool)
    requires forall h :: h in Scan(t, r, site) ==> kind(h)
    ensures |Scan(t, r, site)| <= |Filter(t.hearings, kind)|
  {
    var rows := Filter(t.hearings, Candidate(t, r, site));
    var sorted, scan := Sort(rows, Newer), Scan(t, r, site);
    Preorders();
    assert sorted == scan + sorted[|scan|..];
    FilterConcat(scan, sorted[|scan|..], kind);
    FilterAll(scan, kind);
    FilterSort(rows, Newer, kind);
    SortLength(Filter(rows, kind), Newer);
    FilterTwice(t.hearings, Candidate(t, r, site), kind);
  }

  /** So with few echoes no page is empty while a scan fills up. */
  lemma FewEchoesKeepPages(t: Tables, r: Request)
    requires FewEchoes(t, r) && r.limit > 0
    ensures Shown(t, r) != [] || QueryFloor(t, r).None?
  {
    FloorBounds(Scanned(t, r), r.iatas, Depth(r));
    if Shown(t, r) == [] && QueryFloor(t, r).Some? {
      var site :| site in r.iatas && Filled(Scanned(t, r), site, Depth(r));
      EmptyPageIff(t, r);
      forall h | h in Scan(t, r, site) ensures Echo(t, r, site)(h) {
        ScanIsCandidate(t, r, site, h);
        ScannedMember(t, r, r.iatas, h);
      }
      ScanOfKind(t, r, site, Echo(t, r, site));
      SiteCount(t, r, r.iatas, site);
      Product(multiset(r.iatas)[site], |Scan(t, r, site)|, |Filter(t.hearings, Echo(t, r, site))|);
    }
  }

  // ---- packets stranded above an empty page ----

  /** A hearing the page could show: below the cursor at a requested site, of a packet no earlier page has shown. */
  ghost predicate Fresh(t: Tables, r: Request, h: Hearing) {
    h in t.hearings && h.iata in r.iatas && Candidate(t, r, h.iata)(h) && Unshown(t, r, h.packet)
  }

  /** Hearings of shown packets at the site, below the cursor and newer than h. */
  ghost function EchoAbove(t: Tables, r: Request, h: Hearing): Hearing -> bool {
    (g: Hearing) => Candidate(t, r, h.iata)(g) && g.heardAt > h.heardAt && !Unshown(t, r, g.packet)
  }

  /** Rows before a kept row are at least as many as those that come before it in any order. */
  lemma KeptAfterFew<T(!new)>(rows: seq<T>, le: (T, T) -> bool, n: nat, x: T, newer: T -> bool)
    requires TotalPreorder(le) && x in Take(Sort(rows, le), n)
    requires forall y :: newer(y) ==> !le(x, y)
    ensures |Filter(rows, newer)| < n
  {
    SortOrders(rows, le);
    FilterSort(rows, le, newer);
    SortLength(Filter(rows, newer), le);
    var sorted := Sort(rows, le);
    var i :| 0 <= i < |sorted| && i < n && sorted[i] == x;
    OnlyBefore(sorted, le, i, newer);
  }

  lemma OnlyBefore<T(!new)>(sorted: seq<T>, le: (T, T) -> bool, i: nat, newer: T -> bool)
    requires Ordered(sorted, le) && i < |sorted| && le(sorted[i], sorted[i])
    requires forall y :: newer(y) ==> !le(sorted[i], y)
    ensures |Filter(sorted, newer)| <= i
  {
    var before, after := sorted[..i], sorted[i..];
    assert sorted == before + after;
    forall y | y in after ensures !newer(y) {
      var j :| 0 <= j < |after| && after[j] == y;
      assert sorted[i + j] == y;
    }
    FilterConcat(before, after, newer);
    FilterNone(after, newer);
    FilterShorter(before, newer);
  }

  /** The scan misses a fresh hearing exactly when shown packets fill it from above, if no fresh hearing is read at
      all. */
  lemma UnreadIsBelowEchoes(t: Tables, r: Request, h: Hearing)
    requires Fresh(t, r, h) && Alone(t, r, h) && forall g :: g in Scanned(t, r) ==> !Unshown(t, r, g.packet)
    ensures |Filter(t.hearings, EchoAbove(t, r, h))| >= Depth(r)
  {
    var site := h.iata;
    ScannedMember(t, r, r.iatas, h);
    Preorders();
    FilterMember(t.hearings, Candidate(t, r, site), h);
    TakeFirst(Filter(t.hearings, Candidate(t, r, site)), Newer, Depth(r), h);
    forall g | g in Scan(t, r, site) ensures EchoAbove(t, r, h)(g) {
      ScanIsCandidate(t, r, site, g);
      ScannedMember(t, r, r.iatas, g);
      assert Newer(g, h) && Asked(t, r, g);
    }
    ScanOfKind(t, r, site, EchoAbove(t, r, h));
  }

  lemma ReadIsBelowFewEchoes(t: Tables, r: Request, h: Hearing)
    requires Fresh(t, r, h) && h in Scanned(t, r)
    ensures |Filter(t.hearings, EchoAbove(t, r, h))| < Depth(r)
  {
    var rows, echo := Filter(t.hearings, Candidate(t, r, h.iata)), EchoAbove(t, r, h);
    ScannedMember(t, r, r.iatas, h);
    Preorders();
    KeptAfterFew(rows, Newer, Depth(r), h, echo);
    EchoesAreCandidates(t.hearings, Candidate(t, r, h.iata), echo);
  }

  lemma {:induction false} EchoesAreCandidates(rows: seq<Hearing>, p: Hearing -> bool, q: Hearing -> bool)
    requires forall h :: q(h) ==> p(h)
    ensures |Filter(Filter(rows, p), q)| == |Filter(rows, q)|
  {
    if rows != [] {
      var front, kept := rows[..|rows| - 1], Filter(rows, p);
      EchoesAreCandidates(front, p, q);
      if p(rows[|rows| - 1]) { assert kept[..|kept| - 1] == Filter(front, p); }
    }
  }

  /** The exact condition over the table, where no two packets share a time: a page is empty above packets it
      should show if and only if every one of their hearings has a whole scan of newer hearings of shown packets above
      it at its site. */
  lemma StrandedIff(t: Tables, r: Request)
    requires r.limit > 0 && forall h :: Fresh(t, r, h) ==> Alone(t, r, h)
    ensures Shown(t, r) == [] <==> forall h :: Fresh(t, r, h) ==> |Filter(t.hearings, EchoAbove(t, r, h))| >= Depth(r)
  {
    EmptyPageIff(t, r);
    ScannedRows(t, r);
    if Shown(t, r) == [] {
      forall h | Fresh(t, r, h) ensures |Filter(t.hearings, EchoAbove(t, r, h))| >= Depth(r) {
        UnreadIsBelowEchoes(t, r, h);
      }
    } else {
      var h :| h in Scanned(t, r) && Unshown(t, r, h.packet);
      assert Fresh(t, r, h);
      ReadIsBelowFewEchoes(t, r, h);
    }
  }

  // ---- the order of a page ----

  lemma LatestScanned(scanned: seq<Hearing>, packet: Hash, at: int)
    ensures Latest(scanned, packet) == Some(at) <==> NewestScanned(scanned, packet, at)
  {
    LatestIsNewest(scanned, packet);
    if NewestScanned(scanned, packet, at) {
      var h :| h in scanned && h.packet == packet && h.heardAt == at;
      var g :| g in scanned && g.packet == packet && g.heardAt == Latest(scanned, packet).value;
    }
  }

  lemma {:induction false} DistinctOnce(scanned: seq<Hearing>)
    ensures forall i, j :: 0 <= i < j < |Distinct(scanned)| ==> Distinct(scanned)[i] != Distinct(scanned)[j]
  {
    if scanned != [] {
      var front, packet := Distinct(scanned[..|scanned| - 1]), scanned[|scanned| - 1].packet;
      DistinctOnce(scanned[..|scanned| - 1]);
    }
  }

  ghost predicate PacketsOnce(rows: seq<PageRow>) {
    forall i, j :: 0 <= i < j < |rows| ==> rows[i].packet != rows[j].packet
  }

  lemma {:induction false} FilterOnce(rows: seq<PageRow>, p: PageRow -> bool)
    requires PacketsOnce(rows)
    ensures PacketsOnce(Filter(rows, p))
  {
    if rows != [] {
      var front, last := rows[..|rows| - 1], rows[|rows| - 1];
      assert rows == front + [last];
      FilterOnce(front, p);
      forall row | row in Filter(front, p) ensures row.packet != last.packet {
        FilterMember(front, p, row);
        var i :| 0 <= i < |front| && front[i] == row;
        assert rows[i] == row;
      }
    }
  }

  lemma {:induction false} InsertOnce(x: PageRow, sorted: seq<PageRow>)
    requires PacketsOnce(sorted) && forall row :: row in sorted ==> row.packet != x.packet
    ensures PacketsOnce(Insert(x, sorted, NewestRow))
    ensures forall row :: row in Insert(x, sorted, NewestRow) <==> row in sorted || row == x
  {
    if sorted != [] {
      var front, last := sorted[..|sorted| - 1], sorted[|sorted| - 1];
      assert sorted == front + [last];
      if !NewestRow(last, x) {
        InsertOnce(x, front);
        var inserted := Insert(x, front, NewestRow);
        forall row | row in inserted ensures row.packet != last.packet {
          if row in front {
            var j :| 0 <= j < |front| && front[j] == row;
            assert sorted[j] == row;
          } else {
            assert last in sorted;
          }
        }
      }
    }
  }

  lemma {:induction false} SortOnce(rows: seq<PageRow>)
    requires PacketsOnce(rows)
    ensures PacketsOnce(Sort(rows, NewestRow)) && forall row :: row in Sort(rows, NewestRow) <==> row in rows
  {
    if rows != [] {
      var front, last := rows[..|rows| - 1], rows[|rows| - 1];
      assert rows == front + [last];
      SortOnce(front);
      forall row | row in Sort(front, NewestRow) ensures row.packet != last.packet {
        var i :| 0 <= i < |front| && front[i] == row;
        assert rows[i] == row;
      }
      InsertOnce(last, Sort(front, NewestRow));
    }
  }

  lemma EligibleOnce(t: Tables, r: Request)
    ensures PacketsOnce(Eligible(t, r))
  {
    DistinctOnce(Scanned(t, r));
    FilterOnce(PageRows(Scanned(t, r)), UnshownRow(t, r));
  }

  lemma CutOnce(rows: seq<PageRow>, n: nat, limit: nat)
    requires PacketsOnce(rows) && Ordered(rows, NewestRow)
    ensures PacketsOnce(Take(Take(rows, n), limit)) && Ordered(Take(Take(rows, n), limit), NewestRow)
    ensures |Take(Take(rows, n), limit)| <= limit
  {
  }

  lemma ShownOnce(t: Tables, r: Request)
    ensures PacketsOnce(Shown(t, r)) && |Shown(t, r)| <= r.limit
    ensures Ordered(Shown(t, r), NewestRow)
  {
    EligibleOnce(t, r);
    SortOnce(Eligible(t, r));
    Preorders();
    SortOrders(Eligible(t, r), NewestRow);
    CutOnce(Sort(Eligible(t, r), NewestRow), r.limit + 1, r.limit);
  }

  lemma ShownIsNewest(t: Tables, r: Request, i: nat)
    requires i < |Shown(t, r)|
    ensures NewestScanned(Scanned(t, r), Shown(t, r)[i].packet, Shown(t, r)[i].siteHeardAt)
  {
    var row := Shown(t, r)[i];
    assert row in Shown(t, r);
    ShownIsEligible(t, r, row);
    EligibleMember(t, r, row);
    LatestScanned(Scanned(t, r), row.packet, row.siteHeardAt);
  }

  lemma RowsInOrder(scanned: seq<Hearing>, rows: seq<PageRow>)
    requires PacketsOnce(rows) && Ordered(rows, NewestRow)
    requires forall i :: 0 <= i < |rows| ==> NewestScanned(scanned, rows[i].packet, rows[i].siteHeardAt)
    ensures NewestFirst(scanned, Packets(rows))
  {
    var items := Packets(rows);
    forall packet | packet in items ensures IsScanned(scanned, packet) {
      var i :| 0 <= i < |items| && items[i] == packet;
      assert NewestScanned(scanned, rows[i].packet, rows[i].siteHeardAt);
    }
    forall i, j, a, b |
      0 <= i < j < |items| && NewestScanned(scanned, items[i], a) && NewestScanned(scanned, items[j], b)
      ensures items[i] != items[j] && a >= b
    {
      assert NewestRow(rows[i], rows[j]);
      OneNewest(scanned, items[i], a, rows[i].siteHeardAt);
      OneNewest(scanned, items[j], b, rows[j].siteHeardAt);
    }
  }

  /** A page's packets: at most limit, none twice, in the order of their newest scanned hearings. */
  lemma PageInOrder(t: Tables, r: Request)
    ensures |Packets(Shown(t, r))| <= r.limit && NewestFirst(Scanned(t, r), Packets(Shown(t, r)))
  {
    ShownOnce(t, r);
    forall i | 0 <= i < |Shown(t, r)|
      ensures NewestScanned(Scanned(t, r), Shown(t, r)[i].packet, Shown(t, r)[i].siteHeardAt)
    {
      ShownIsNewest(t, r, i);
    }
    RowsInOrder(Scanned(t, r), Shown(t, r));
  }

  /** The last of them is the one the next cursor comes from. */
  lemma CutAfterLast(t: Tables, r: Request)
    requires NextCursor(t, r).Some?
    ensures var items := Packets(Shown(t, r));
            items != [] && CursorOfLast(t, r, items[|items| - 1], NextCursor(t, r).value)
  {
    var shown := Shown(t, r);
    ShownIsNewest(t, r, |shown| - 1);
    CursorAt(t, r, shown[|shown| - 1].packet, shown[|shown| - 1].siteHeardAt);
  }

  lemma ServedInOrder(t: Tables, r: Request, page: Page)
    requires page.items == Packets(Take(Query(t, r), r.limit)) && page.next == NextCursor(t, r)
    ensures InOrder(t, r, page)
  {
    PageInOrder(t, r);
    if page.next.Some? { CutAfterLast(t, r); }
  }

  lemma CursorAt(t: Tables, r: Request, packet: Hash, at: int)
    requires NewestScanned(Scanned(t, r), packet, at)
    ensures CursorOfLast(t, r, packet, (if QueryFloor(t, r).Some? then Max(QueryFloor(t, r).value, at) else at) / 1000)
  {
  }

  lemma OneNewest(scanned: seq<Hearing>, packet: Hash, a: int, b: int)
    requires NewestScanned(scanned, packet, a) && NewestScanned(scanned, packet, b)
    ensures a == b
  {
  }
}
