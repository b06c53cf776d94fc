/** Tables on which the packet walk loses a packet, one for each condition that keeps it from doing so. */
module PacketExamples {
  import opened Base
  import opened Sorting
  import opened SetBuckets
  import opened Families
  import opened PacketPages
  import opened PacketWalk

  // ---- two packets within one millisecond ----

  ghost predicate DistinctTimes(t: Tables) {
    forall a, b :: a in t.hearings && b in t.hearings && a.heardAt == b.heardAt ==> a == b
  }

  const FINE: Tables :=
    Tables(map[1 := Packet(5, 1, 0, None), 2 := Packet(5, 1, 0, None)],
           [Hearing(1, "YOW", 5_000_900), Hearing(2, "YOW", 5_000_500)])

  const ONE_BY_ONE: Request := Request(["YOW"], {}, {}, {}, None, None, 0, 1)

  const NEXT_ONE: Request := ONE_BY_ONE.(cursor := 5000)

  lemma FineScans()
    ensures Scanned(FINE, ONE_BY_ONE) == FINE.hearings && Scanned(FINE, NEXT_ONE) == []
  {
    var rows, first, next := FINE.hearings, Candidate(FINE, ONE_BY_ONE, "YOW"), Candidate(FINE, NEXT_ONE, "YOW");
    assert rows[..1] == [rows[0]] && rows[..1][..0] == [];
    assert first(rows[0]) && first(rows[1]) && !next(rows[0]) && !next(rows[1]);
    assert Filter(rows[..1], first) == [rows[0]] && Filter(rows[..1], next) == [];
    assert Filter(rows, first) == rows && Filter(rows, next) == [];
    assert Sort(rows[..1], Newer) == [rows[0]] && Sort(rows, Newer) == rows;
    OneSite(ONE_BY_ONE);
    OneSite(NEXT_ONE);
  }

  lemma OneSite(r: Request)
    requires r.iatas == ["YOW"]
    ensures Scanned(FINE, r) == Scan(FINE, r, "YOW")
  {
    assert ["YOW"][..0] == [];
    assert ScanAll(FINE, r, []) == [];
  }

  lemma FinePages()
    ensures Query(FINE, ONE_BY_ONE) == [PageRow(1, 5_000_900), PageRow(2, 5_000_500)]
            && QueryFloor(FINE, ONE_BY_ONE).None?
    ensures Query(FINE, NEXT_ONE) == [] && QueryFloor(FINE, NEXT_ONE).None?
  {
    FineScans();
    var rows := FINE.hearings;
    assert rows[..1] == [rows[0]] && rows[..1][..0] == [];
    assert Distinct(rows[..1]) == [1] && Distinct(rows) == [1, 2];
    assert Latest([], 1) == None && Latest([], 2) == None;
    assert Latest(rows[..1], 1) == Some(5_000_900) && Latest(rows[..1], 2) == None;
    assert Latest(rows, 1) == Some(5_000_900) && Latest(rows, 2) == Some(5_000_500);
    var pages := PageRows(rows);
    assert pages == [PageRow(1, 5_000_900), PageRow(2, 5_000_500)];
    FilterAll(pages, UnshownRow(FINE, ONE_BY_ONE));
    assert pages[..1] == [pages[0]] && pages[..1][..0] == [];
    assert Sort(pages[..1], NewestRow) == [pages[0]] && Sort(pages, NewestRow) == pages;
    FineFloors();
  }

  lemma FineFloors()
    ensures QueryFloor(FINE, ONE_BY_ONE).None? && QueryFloor(FINE, NEXT_ONE).None?
  {
    FineScans();
    FilterAll(FINE.hearings, AtSite("YOW"));
    assert ["YOW"][..0] == [];
    assert Floor(FINE.hearings, [], 16) == None && Floor([], [], 16) == None;
  }

  lemma FineFirstPage()
    ensures Shown(FINE, ONE_BY_ONE) == [PageRow(1, 5_000_900)] && Bound(FINE, ONE_BY_ONE) == Some(5_000_900)
    ensures Packets(Shown(FINE, ONE_BY_ONE)) == [1]
    ensures Shown(FINE, NEXT_ONE) == [] && NextCursor(FINE, NEXT_ONE) == None
  {
    FinePages();
  }

  lemma FineWanted()
    ensures PositiveTimes(FINE) && DistinctTimes(FINE) && NewestAt(FINE, ONE_BY_ONE, FINE.hearings[1])
    ensures 2 in Wanted(FINE, ONE_BY_ONE)
  {
    assert FINE.hearings[1] in FINE.hearings;
  }

  /** Two packets within one millisecond, read one per page: the walk never shows the second. */
  lemma SubMillisecondTimesLoseAPacket()
    ensures PositiveTimes(FINE) && DistinctTimes(FINE)
    ensures 2 in Wanted(FINE, ONE_BY_ONE) && 2 !in Walk(FINE, ONE_BY_ONE).packets && !Walk(FINE, ONE_BY_ONE).cutOff
  {
    FineWanted();
    FineFirstPage();
    FineFloors();
    WalkTwice(FINE, ONE_BY_ONE, NEXT_ONE);
  }

  /** A walk of two pages, the second of them empty. */
  lemma WalkTwice(t: Tables, first: Request, second: Request)
    requires PositiveTimes(t) && NextCursor(t, first) == Some(second.cursor)
             && second == first.(cursor := second.cursor)
    requires Shown(t, second) == [] && NextCursor(t, second) == None
    ensures Walk(t, first) == Seen((set p | p in Packets(Shown(t, first))), QueryFloor(t, second).Some?)
  {
    assert Walk(t, second) == Seen({}, QueryFloor(t, second).Some?);
  }

  // ---- scans over a range of the table ----

  /** When the candidates of a site stand together in the table, newest first, the scan reads them from the start. */
  lemma ScanOfRange(t: Tables, r: Request, site: Iata, lo: nat, hi: nat)
    requires lo <= hi <= |t.hearings| && Ordered(t.hearings[lo..hi], Newer)
    requires forall i :: 0 <= i < |t.hearings| ==> Candidate(t, r, site)(t.hearings[i]) == (lo <= i < hi)
    ensures Scan(t, r, site) == Take(t.hearings[lo..hi], Depth(r))
  {
    FilterRange(t.hearings, Candidate(t, r, site), lo, hi);
    SortSorted(t.hearings[lo..hi], Newer);
  }

  lemma OneSiteScan(t: Tables, r: Request, site: Iata)
    requires r.iatas == [site]
    ensures Scanned(t, r) == Scan(t, r, site)
  {
    assert [site][..0] == [];
    assert ScanAll(t, r, []) == [];
  }

  /** A page none of whose scanned packets is new, at the end of a filled scan. */
  lemma OnlyOldNews(t: Tables, r: Request, site: Iata)
    requires r.limit > 0 && site in r.iatas && |Scan(t, r, site)| == Depth(r)
    requires forall h :: h in Scanned(t, r) ==> !Unshown(t, r, h.packet)
    ensures Shown(t, r) == [] && NextCursor(t, r) == None && QueryFloor(t, r).Some?
  {
    EmptyPageIff(t, r);
    FullScanFills(t, r, site);
    FloorBounds(Scanned(t, r), r.iatas, Depth(r));
  }

  /** A page of one whose scans found one new packet. */
  lemma SoleRow(t: Tables, r: Request, h: Hearing)
    requires r.limit == 1 && NewestAt(t, r, h) && Below(r.cursor, h.heardAt) && h in Scanned(t, r)
    requires forall g :: g in Scanned(t, r) && Unshown(t, r, g.packet) ==> g.packet == h.packet
    ensures Shown(t, r) == [PageRow(h.packet, h.heardAt)] && Packets(Shown(t, r)) == [h.packet]
  {
    NewestIsEligible(t, r, h);
    EligibleShown(t, r, PageRow(h.packet, h.heardAt));
    var row := Shown(t, r)[0];
    RowComesFrom(t, r, row);
    ShownIsEligible(t, r, row);
    EligibleMember(t, r, row);
    EligibleMember(t, r, PageRow(h.packet, h.heardAt));
  }

  // ---- an echoing packet ----

  const PLAIN: Packet := Packet(5, 1, 0, None)

  /** One packet heard seventeen times by the observers of one site, and an older packet. */
  const ECHOES: Tables :=
    Tables(map[1 := PLAIN, 2 := PLAIN],
           seq(18, i => if i < 17 then Hearing(1, "YOW", 30_000_000 - i * 1_000_000) else Hearing(2, "YOW", 1_000_000)))

  const AFTER_FIRST: Request := ONE_BY_ONE.(cursor := 30_000)

  lemma EchoScans()
    ensures Scanned(ECHOES, ONE_BY_ONE) == ECHOES.hearings[..16]
            && Scanned(ECHOES, AFTER_FIRST) == ECHOES.hearings[1..17]
    ensures |Scan(ECHOES, ONE_BY_ONE, "YOW")| == 16 && |Scan(ECHOES, AFTER_FIRST, "YOW")| == 16
  {
    var rows := ECHOES.hearings;
    ScanOfRange(ECHOES, ONE_BY_ONE, "YOW", 0, 18);
    ScanOfRange(ECHOES, AFTER_FIRST, "YOW", 1, 18);
    OneSiteScan(ECHOES, ONE_BY_ONE, "YOW");
    OneSiteScan(ECHOES, AFTER_FIRST, "YOW");
    assert rows[0..18][..16] == rows[..16] && rows[1..18][..16] == rows[1..17];
  }

  lemma EchoPages()
    ensures Packets(Shown(ECHOES, ONE_BY_ONE)) == [1] && NextCursor(ECHOES, ONE_BY_ONE) == Some(30_000)
    ensures Shown(ECHOES, AFTER_FIRST) == [] && NextCursor(ECHOES, AFTER_FIRST) == None
            && QueryFloor(ECHOES, AFTER_FIRST).Some?
  {
    EchoScans();
    var rows := ECHOES.hearings;
    assert rows[0] in rows;
    OnlyOldNews(ECHOES, AFTER_FIRST, "YOW") by {
      forall h | h in Scanned(ECHOES, AFTER_FIRST) ensures !Unshown(ECHOES, AFTER_FIRST, h.packet) {
        assert h.packet == rows[0].packet;
      }
    }
    FirstEchoPage();
  }

  lemma FirstEchoPage()
    ensures Packets(Shown(ECHOES, ONE_BY_ONE)) == [1] && NextCursor(ECHOES, ONE_BY_ONE) == Some(30_000)
  {
    EchoScans();
    var t, r, newest := ECHOES, ONE_BY_ONE, ECHOES.hearings[0];
    assert newest in t.hearings[..16] && NewestAt(t, r, newest);
    SoleRow(t, r, newest);
    EchoFloor();
    LastIsNext(t, r);
  }

  lemma EchoFloor()
    ensures QueryFloor(ECHOES, ONE_BY_ONE).Some? && QueryFloor(ECHOES, ONE_BY_ONE).value <= 30_000_000
  {
    EchoScans();
    FullScanFills(ECHOES, ONE_BY_ONE, "YOW");
    FloorBounds(Scanned(ECHOES, ONE_BY_ONE), ["YOW"], 16);
  }

  /** All times differ by a second, and still the walk ends on an empty page and never shows the older packet. */
  lemma EchoesCutTheWalkOff()
    ensures PositiveTimes(ECHOES) && Apart(ECHOES, ONE_BY_ONE)
    ensures 2 in Wanted(ECHOES, ONE_BY_ONE) && 2 !in Walk(ECHOES, ONE_BY_ONE).packets && Walk(ECHOES, ONE_BY_ONE).cutOff
  {
    EchoPages();
    EchoFacts();
    WalkTwice(ECHOES, ONE_BY_ONE, AFTER_FIRST);
  }

  lemma EchoFacts()
    ensures PositiveTimes(ECHOES) && Apart(ECHOES, ONE_BY_ONE) && 2 in Wanted(ECHOES, ONE_BY_ONE)
  {
    assert ECHOES.hearings[17] in ECHOES.hearings;
  }

  // ---- a floor inside the millisecond ----

  /** Sixteen old hearings of a packet shown before fill one site's scan, down to the millisecond of another packet. */
  const CROWDED: Tables :=
    Tables(map[1 := PLAIN, 2 := PLAIN, 3 := PLAIN],
           seq(19, i => if i < 16 then Hearing(1, "YOW", 6_500_900 - i * 100_000)
                        else if i == 16 then Hearing(2, "YOW", 5_000_500)
                        else if i == 17 then Hearing(1, "YYZ", 20_000_000) else Hearing(3, "YYZ", 1_000_000)))

  const LATER_PAGE: Request := ONE_BY_ONE.(iatas := ["YOW", "YYZ"], cursor := 20_000)

  lemma CrowdedScans()
    ensures Scan(CROWDED, LATER_PAGE, "YOW") == CROWDED.hearings[..16]
            && Scan(CROWDED, LATER_PAGE, "YYZ") == CROWDED.hearings[18..]
    ensures Scanned(CROWDED, LATER_PAGE) == CROWDED.hearings[..16] + CROWDED.hearings[18..]
  {
    var rows := CROWDED.hearings;
    ScanOfRange(CROWDED, LATER_PAGE, "YOW", 0, 17);
    ScanOfRange(CROWDED, LATER_PAGE, "YYZ", 18, 19);
    assert rows[0..17][..16] == rows[..16] && rows[18..19] == rows[18..];
    var sites := ["YOW", "YYZ"];
    assert sites[..1] == ["YOW"] && ["YOW"][..0] == [];
    assert ScanAll(CROWDED, LATER_PAGE, []) == [];
    assert ScanAll(CROWDED, LATER_PAGE, sites[..1]) == rows[..16];
  }

  lemma CrowdedFloor()
    ensures QueryFloor(CROWDED, LATER_PAGE) == Some(5_000_900)
  {
    CrowdedScans();
    var rows := CROWDED.hearings;
    var yow, yyz := rows[..16], rows[18..];
    FilterTwoSites(yow, yyz, "YOW", "YYZ");
    FloorOfFirst(yow + yyz, "YOW", "YYZ", 16);
    OldestIsLeast(yow);
    assert yow[15] in yow;
  }

  lemma FilterTwoSites(a: seq<Hearing>, b: seq<Hearing>, site: Iata, other: Iata)
    requires site != other && (forall h :: h in a ==> h.iata == site) && (forall h :: h in b ==> h.iata == other)
    ensures Filter(a + b, AtSite(site)) == a && Filter(a + b, AtSite(other)) == b
  {
    FilterConcat(a, b, AtSite(site));
    FilterConcat(a, b, AtSite(other));
    FilterAll(a, AtSite(site));
    FilterNone(b, AtSite(site));
    FilterNone(a, AtSite(other));
    FilterAll(b, AtSite(other));
  }

  lemma FloorOfFirst(scanned: seq<Hearing>, site: Iata, other: Iata, depth: nat)
    requires depth > 0 && Filled(scanned, site, depth) && !Filled(scanned, other, depth)
    ensures Floor(scanned, [site, other], depth) == Some(Oldest(Filter(scanned, AtSite(site))))
  {
    assert [site, other][..1] == [site] && [site][..0] == [];
    assert Floor(scanned, [], depth) == None;
    assert Floor(scanned, [site], depth) == Some(Oldest(Filter(scanned, AtSite(site))));
  }

  lemma CrowdedPage()
    ensures Packets(Shown(CROWDED, LATER_PAGE)) == [3] && NextCursor(CROWDED, LATER_PAGE) == Some(5000)
  {
    CrowdedScans();
    CrowdedFloor();
    var t, r, rows := CROWDED, LATER_PAGE, CROWDED.hearings;
    assert rows[17] in rows && rows[18] in rows[18..] && NewestAt(t, r, rows[18]);
    assert !Unshown(t, r, 1);
    SoleRow(t, r, rows[18]);
    FloorIsNext(t, r, 5_000_900);
  }

  /** A floor above the last row decides the next cursor. */
  lemma FloorIsNext(t: Tables, r: Request, floor: int)
    requires Shown(t, r) != [] && QueryFloor(t, r) == Some(floor) && Shown(t, r)[|Shown(t, r)| - 1].siteHeardAt <= floor
    ensures NextCursor(t, r) == Some(floor / 1000)
  {
  }

  /** And a last row above the floor. */
  lemma LastIsNext(t: Tables, r: Request)
    requires Shown(t, r) != [] && QueryFloor(t, r).Some?
             && QueryFloor(t, r).value <= Shown(t, r)[|Shown(t, r)| - 1].siteHeardAt
    ensures NextCursor(t, r) == Some(Shown(t, r)[|Shown(t, r)| - 1].siteHeardAt / 1000)
  {
  }

  /** No two newest hearings share a millisecond here, and still a packet is lost, to a floor that is not a newest
      hearing. */
  lemma FloorLosesAPacket()
    ensures PositiveTimes(CROWDED) && NewestApart(CROWDED, LATER_PAGE)
    ensures 2 in Wanted(CROWDED, LATER_PAGE) && 2 !in Walk(CROWDED, LATER_PAGE).packets
  {
    CrowdedPage();
    var rows := CROWDED.hearings;
    assert rows[16] in rows && NewestAt(CROWDED, LATER_PAGE, rows[16]);
    LeftToLater(CROWDED, LATER_PAGE, rows[16]);
    CrowdedNewest();
  }

  lemma CrowdedNewest()
    ensures NewestApart(CROWDED, LATER_PAGE)
  {
    var rows := CROWDED.hearings;
    assert rows[17] in rows;
    forall h | NewestAt(CROWDED, LATER_PAGE, h) ensures h in {rows[16], rows[17], rows[18]} {
      if h.packet == 1 { assert h.heardAt >= rows[17].heardAt; }
    }
  }
}
