/** Path statistics against the columns of every observation ever heard: what each number of the response counts. */
module PathColumns {
  import opened Base
  import opened Grouping
  import opened Sorting
  import opened SetBuckets
  import opened Families
  import opened World
  import opened Protocol
  import opened RunTheorems
  import opened HourFold
  import opened PathStatistics
  import opened PathQuery
  import opened RowColumns

  // ---- the reference ----

  /** An observation of a complete hour of the window, at a wanted site. */
  ghost predicate Covers(t: Tables, since: int, until: int, filter: set<Iata>, r: Row) {
    var h := TruncHour(r.heardAt);
    && h in t.hours && t.hours[h].status == Complete && since <= h < until
    && (filter == {} || r.iata in filter)
  }

  /** How many such observations there ever were, of a kind. */
  ghost function Ever(w: World, since: int, until: int, filter: set<Iata>, kind: Row -> bool): int {
    |Filter(w.ever, (r: Row) => Covers(w.tables, since, until, filter, r) && kind(r))|
  }

  // ---- the kinds, by columns ----

  ghost function Routed(): Row -> bool { (r: Row) => IsRouted(r) }
  ghost function ZeroHop(): Row -> bool { (r: Row) => IsZeroHop(r) }
  ghost function Trace(): Row -> bool { (r: Row) => IsTrace(r) }
  ghost function Unusable(): Row -> bool { (r: Row) => IsUnclassified(r) }
  ghost function Any(): Row -> bool { (r: Row) => true }
  ghost function RoutedWide(bytes: int): Row -> bool { (r: Row) => IsRouted(r) && r.hashSize == bytes }

  /** Routed over so many hops; hop count 0 takes the zero-hop ones. */
  ghost function OfLength(hops: int): Row -> bool {
    (r: Row) => (IsRouted(r) || IsZeroHop(r)) && r.hopCount == hops
  }

  ghost function AtHour(h: int, kind: Row -> bool): Row -> bool {
    (r: Row) => h <= r.heardAt < h + 3_600_000_000 && kind(r)
  }

  // ---- readings are observations ----

  /** The reading one observation becomes part of. */
  function ReadingOf(r: Row): Reading {
    var c := PathCategory(r);
    Reading(TruncHour(r.heardAt), r.iata, c, if c == 0 then r.hashSize else 0, if c == 0 then r.hopCount else 0, 1)
  }

  /** Selections that do not look at the number of receptions or the site. */
  ghost predicate Keyed(p: Reading -> bool) {
    forall a: Reading, b: Reading ::
      a.hour == b.hour && a.category == b.category && a.hashBytes == b.hashBytes && a.entries == b.entries ==>
        p(a) == p(b)
  }

  function KeyKind(h: int, filter: set<Iata>, p: Reading -> bool): PathKey -> bool {
    (k: PathKey) => (filter == {} || k.iata in filter) && p(Reading(h, k.iata, k.category, k.hashBytes, k.entries, 1))
  }

  lemma {:induction false} ReadingsOfKind(paths: seq<(PathKey, int)>, h: int, filter: set<Iata>, p: Reading -> bool)
    requires Keyed(p)
    ensures ReadingSum(ReadingsOf(paths, h, filter), p) == Total(paths, KeyKind(h, filter, p), Plus, 0)
  {
    if paths != [] {
      var front, last, readings := paths[..|paths| - 1], paths[|paths| - 1], ReadingsOf(paths, h, filter);
      ReadingsOfKind(front, h, filter, p);
      var k := last.0;
      var here := Reading(h, k.iata, k.category, k.hashBytes, k.entries, last.1);
      assert p(here) == p(Reading(h, k.iata, k.category, k.hashBytes, k.entries, 1));
      if filter == {} || k.iata in filter {
        assert readings[..|readings| - 1] == ReadingsOf(front, h, filter) && readings[|readings| - 1] == here;
        assert ReadingShare(p)(here) == if p(here) then last.1 else 0;
      }
    }
  }

  lemma {:induction false} ShareIsCount<T>(rows: seq<T>, share: T -> int, p: T -> bool)
    requires forall r :: r in rows ==> share(r) == if p(r) then 1 else 0
    ensures Pass(rows, share, Plus, 0) == |Filter(rows, p)|
  {
    if rows != [] {
      assert rows == rows[..|rows| - 1] + [rows[|rows| - 1]];
      ShareIsCount(rows[..|rows| - 1], share, p);
    }
  }

  ghost function HeardKind(filter: set<Iata>, p: Reading -> bool): Row -> bool {
    (r: Row) => (filter == {} || r.iata in filter) && p(ReadingOf(r))
  }

  /** The rolled readings of one hour's rows count the rows. */
  lemma HourOfKind(rows: seq<Row>, h: int, filter: set<Iata>, p: Reading -> bool)
    requires forall r :: r in rows ==> TruncHour(r.heardAt) == h
    ensures Total(Roll(Paths, rows, map[]).paths, KeyKind(h, filter, p), Plus, 0)
         == |Filter(rows, HeardKind(filter, p))|
  {
    var sel := KeyKind(h, filter, p);
    PathPass(rows, sel);
    forall r | r in rows ensures ShareOf(PathItem, sel, 0)(r) == if HeardKind(filter, p)(r) then 1 else 0 {
      ItemKind(r, h, filter, p);
    }
    ShareIsCount(rows, ShareOf(PathItem, sel, 0), HeardKind(filter, p));
  }

  lemma ItemKind(r: Row, h: int, filter: set<Iata>, p: Reading -> bool)
    requires TruncHour(r.heardAt) == h
    ensures PathItem(r).Some? && PathItem(r).value.1 == 1
    ensures KeyKind(h, filter, p)(PathItem(r).value.0) <==> HeardKind(filter, p)(r)
  {
    var c := PathCategory(r);
    var k := PathItem(r).value.0;
    assert k == PathKey(r.iata, c, if c == 0 then r.hashSize else 0, if c == 0 then r.hopCount else 0);
    assert Reading(h, k.iata, k.category, k.hashBytes, k.entries, 1) == ReadingOf(r);
  }

  lemma {:induction false} RowsInHour(rows: seq<Row>, h: int)
    requires h % HOUR == 0
    ensures forall r :: r in RowsIn(rows, h) ==> TruncHour(r.heardAt) == h
  {
    if rows != [] {
      RowsInHour(rows[..|rows| - 1], h);
      HourOfInstant(rows[|rows| - 1].heardAt, h);
    }
  }

  lemma {:induction false} RowsInFilter(rows: seq<Row>, h: int, p: Row -> bool)
    requires h % HOUR == 0
    ensures |Filter(RowsIn(rows, h), p)| == |Filter(rows, (r: Row) => TruncHour(r.heardAt) == h && p(r))|
  {
    if rows != [] {
      var front, last, kept := rows[..|rows| - 1], rows[|rows| - 1], RowsIn(rows, h);
      RowsInFilter(front, h, p);
      HourOfInstant(last.heardAt, h);
      if InHour(last.heardAt, h) { assert kept[..|kept| - 1] == RowsIn(front, h); }
    }
  }

  /** An observation of a complete hour in [from, to), of a kind. */
  ghost function InHours(t: Tables, from: int, to: int, kind: Row -> bool): Row -> bool {
    (r: Row) => IsComplete(t, TruncHour(r.heardAt)) && from <= TruncHour(r.heardAt) < to && kind(r)
  }

  ghost function InOneHour(t: Tables, h: int, kind: Row -> bool): Row -> bool {
    (r: Row) => TruncHour(r.heardAt) == h && IsComplete(t, h) && kind(r)
  }

  lemma {:induction false} CountSplits<T>(rows: seq<T>, p: T -> bool, a: T -> bool, b: T -> bool)
    requires forall r :: r in rows ==> (p(r) <==> a(r) || b(r)) && !(a(r) && b(r))
    ensures |Filter(rows, p)| == |Filter(rows, a)| + |Filter(rows, b)|
  {
    if rows != [] {
      assert rows == rows[..|rows| - 1] + [rows[|rows| - 1]];
      CountSplits(rows[..|rows| - 1], p, a, b);
    }
  }

  lemma HourReadingsKind(w: World, h: int, filter: set<Iata>, p: Reading -> bool)
    requires Inv(w) && h % HOUR == 0 && Keyed(p)
    ensures ReadingSum(ReadingsAt(w.tables.content, h, filter), p)
         == |Filter(w.ever, InOneHour(w.tables, h, HeardKind(filter, p)))|
  {
    var kind := HeardKind(filter, p);
    if IsComplete(w.tables, h) {
      var rows := RowsIn(w.ever, h);
      ExactFamily(w.tables.content[h], rows, Paths);
      ReadingsOfKind(w.tables.content[h][Paths].paths, h, filter, p);
      RowsInHour(w.ever, h);
      HourOfKind(rows, h, filter, p);
      RowsInFilter(w.ever, h, kind);
      FilterAgrees(w.ever, (r: Row) => TruncHour(r.heardAt) == h && kind(r), InOneHour(w.tables, h, kind));
    } else {
      FilterNone(w.ever, InOneHour(w.tables, h, kind));
    }
  }

  /** The readings of a window, of a kind, count the observations ever heard in its complete hours. */
  lemma {:induction false} ReadingsCount(w: World, from: int, to: int, filter: set<Iata>, p: Reading -> bool)
    requires Inv(w) && from % HOUR == 0 && Keyed(p)
    ensures ReadingSum(Readings(w.tables.content, from, to, filter), p)
         == |Filter(w.ever, InHours(w.tables, from, to, HeardKind(filter, p)))|
    decreases Max(to - from, 0)
  {
    var kind := HeardKind(filter, p);
    if from < to {
      ReadingsCount(w, from + HOUR, to, filter, p);
      HourReadingsKind(w, from, filter, p);
      ReadingSumConcat(ReadingsAt(w.tables.content, from, filter),
                       Readings(w.tables.content, from + HOUR, to, filter), p);
      forall r | r in w.ever
        ensures InHours(w.tables, from, to, kind)(r)
                <==> InOneHour(w.tables, from, kind)(r) || InHours(w.tables, from + HOUR, to, kind)(r)
      {
        if from < TruncHour(r.heardAt) { AlignedGap(from, TruncHour(r.heardAt)); }
      }
      CountSplits(w.ever, InHours(w.tables, from, to, kind), InOneHour(w.tables, from, kind),
                  InHours(w.tables, from + HOUR, to, kind));
    } else {
      FilterNone(w.ever, InHours(w.tables, from, to, kind));
    }
  }

  /** So a selection of query rows counts the observations whose columns match it. */
  lemma KindCounts(w: World, since: int, until: int, filter: set<Iata>, p: Reading -> bool, kind: Row -> bool)
    requires Inv(w) && Keyed(p) && forall r: Row :: p(ReadingOf(r)) == kind(r)
    ensures ReadingSum(Readings(w.tables.content, CeilHour(since), until, filter), p)
         == Ever(w, since, until, filter, kind)
  {
    ReadingsCount(w, CeilHour(since), until, filter, p);
    var covered := (r: Row) => Covers(w.tables, since, until, filter, r) && kind(r);
    forall r: Row ensures InHours(w.tables, CeilHour(since), until, HeardKind(filter, p))(r) == covered(r) {
      var h := TruncHour(r.heardAt);
      if h < CeilHour(since) { AlignedGap(h, CeilHour(since)); }
      assert p(ReadingOf(r)) == kind(r);
    }
    FilterAgrees(w.ever, InHours(w.tables, CeilHour(since), until, HeardKind(filter, p)), covered);
  }

  // ---- every number of the response ----

  function OfCategory(c: int): Reading -> bool { (r: Reading) => r.category == c }
  function OfWidth(b: int): Reading -> bool { (r: Reading) => r.category == 0 && r.hashBytes == b }
  function OfBin(e: int): Reading -> bool {
    (r: Reading) => (r.category == 0 && r.entries == e) || (r.category == 1 && e == 0)
  }
  function TotalCategory(c: int): TotalKey -> bool { (k: TotalKey) => k.category == c }
  function TotalWidth(b: int): TotalKey -> bool { (k: TotalKey) => k.category == 0 && k.hashBytes == b }
  function TotalBin(e: int): TotalKey -> bool {
    (k: TotalKey) => (k.category == 0 && k.entries == e) || (k.category == 1 && e == 0)
  }

  /** A selection of total rows sums the readings it stands for. */
  lemma TotalsSum(readings: seq<Reading>, p: PathRow -> bool, totals: TotalKey -> bool, pt: Reading -> bool)
    requires forall g: (TotalKey, int) :: p(TotalRow(g)) == totals(g.0)
    requires forall g: (HourKey, HourSums) :: !p(HourRowOf(g))
    requires forall r: Reading :: pt(r) == totals(TotalKey(r.category, r.hashBytes, r.entries))
    ensures RowSum(QueryRows(readings), p) == ReadingSum(readings, pt)
  {
    QuerySum(readings, p, totals, Nothing<HourKey>, pt, Nothing<Reading>);
    NoReadings(readings);
  }

  lemma CategoryCounts(w: World, since: int, until: int, filter: set<Iata>)
    requires Inv(w)
    ensures var rows := QueryRows(Readings(w.tables.content, CeilHour(since), until, filter));
            && RowSum(rows, Hashed) == Ever(w, since, until, filter, Routed())
            && RowSum(rows, Empty) == Ever(w, since, until, filter, ZeroHop())
            && RowSum(rows, Traced) == Ever(w, since, until, filter, Trace())
            && RowSum(rows, Unclassified) == Ever(w, since, until, filter, Unusable())
  {
    var readings := Readings(w.tables.content, CeilHour(since), until, filter);
    TotalsSum(readings, Hashed, TotalCategory(0), OfCategory(0));
    TotalsSum(readings, Empty, TotalCategory(1), OfCategory(1));
    TotalsSum(readings, Traced, TotalCategory(2), OfCategory(2));
    TotalsSum(readings, Unclassified, TotalCategory(3), OfCategory(3));
    forall r: Row
      ensures OfCategory(0)(ReadingOf(r)) == Routed()(r) && OfCategory(1)(ReadingOf(r)) == ZeroHop()(r)
      ensures OfCategory(2)(ReadingOf(r)) == Trace()(r) && OfCategory(3)(ReadingOf(r)) == Unusable()(r)
    {
      CategoryOfColumns(r);
    }
    KindCounts(w, since, until, filter, OfCategory(0), Routed());
    KindCounts(w, since, until, filter, OfCategory(1), ZeroHop());
    KindCounts(w, since, until, filter, OfCategory(2), Trace());
    KindCounts(w, since, until, filter, OfCategory(3), Unusable());
  }

  lemma AllCounts(w: World, since: int, until: int, filter: set<Iata>)
    requires Inv(w)
    ensures RowSum(QueryRows(Readings(w.tables.content, CeilHour(since), until, filter)), IsTotal)
         == Ever(w, since, until, filter, Any())
  {
    var readings := Readings(w.tables.content, CeilHour(since), until, filter);
    QueryConserves(readings, 0);
    KindCounts(w, since, until, filter, All<Reading>, Any());
  }

  lemma WidthCounts(w: World, since: int, until: int, filter: set<Iata>, b: int)
    requires Inv(w)
    ensures RowSum(QueryRows(Readings(w.tables.content, CeilHour(since), until, filter)), Width(b))
         == Ever(w, since, until, filter, RoutedWide(b))
  {
    TotalsSum(Readings(w.tables.content, CeilHour(since), until, filter), Width(b), TotalWidth(b), OfWidth(b));
    forall r: Row ensures OfWidth(b)(ReadingOf(r)) == RoutedWide(b)(r) { CategoryOfColumns(r); }
    KindCounts(w, since, until, filter, OfWidth(b), RoutedWide(b));
  }

  lemma LengthCounts(w: World, since: int, until: int, filter: set<Iata>, e: int)
    requires Inv(w)
    ensures RowSum(QueryRows(Readings(w.tables.content, CeilHour(since), until, filter)), Length(e))
         == Ever(w, since, until, filter, OfLength(e))
  {
    TotalsSum(Readings(w.tables.content, CeilHour(since), until, filter), Length(e), TotalBin(e), OfBin(e));
    forall r: Row ensures OfBin(e)(ReadingOf(r)) == OfLength(e)(r) { CategoryOfColumns(r); }
    KindCounts(w, since, until, filter, OfBin(e), OfLength(e));
  }

  lemma {:induction false} ListsExactly(lengths: seq<int>, upTo: nat)
    requires upTo <= |lengths|
    ensures var listed := Lists(lengths, upTo);
            && (forall bin :: bin in listed <==> 0 <= bin.0 < upTo && bin.1 == lengths[bin.0] && bin.1 > 0)
            && (forall i, j :: 0 <= i < j < |listed| ==> listed[i].0 < listed[j].0)
  {
    if upTo > 0 {
      ListsExactly(lengths, upTo - 1);
      var front := Lists(lengths, upTo - 1);
      forall i | 0 <= i < |front| ensures front[i].0 < upTo - 1 { assert front[i] in front; }
    }
  }

  // ---- one hour ----

  lemma HourKindCounts(w: World, since: int, until: int, filter: set<Iata>, h: int, c: int, b: int, kind: Row -> bool)
    requires Inv(w) && h % HOUR == 0
    requires forall r: Row :: (PathCategory(r) == c && (c == 0 ==> r.hashSize == b)) == kind(r)
    ensures ReadingSum(Readings(w.tables.content, CeilHour(since), until, filter), HeardAs(h, c, b))
         == Ever(w, since, until, filter, AtHour(h, kind))
  {
    forall r: Row ensures HeardAs(h, c, b)(ReadingOf(r)) == AtHour(h, kind)(r) { HourOfInstant(r.heardAt, h); }
    KindCounts(w, since, until, filter, HeardAs(h, c, b), AtHour(h, kind));
  }

  /** A point of the hourly list: each number counts the observations of the hour whose columns say so. */
  ghost predicate PointCounts(w: World, since: int, until: int, filter: set<Iata>, p: PathHour) {
    && p.receptions == Ever(w, since, until, filter, AtHour(p.hour, Any()))
    && p.oneByte == Ever(w, since, until, filter, AtHour(p.hour, RoutedWide(1)))
    && p.twoByte == Ever(w, since, until, filter, AtHour(p.hour, RoutedWide(2)))
    && p.threeByte == Ever(w, since, until, filter, AtHour(p.hour, RoutedWide(3)))
    && p.empty == Ever(w, since, until, filter, AtHour(p.hour, ZeroHop()))
    && p.trace == Ever(w, since, until, filter, AtHour(p.hour, Trace()))
    && p.unclassified == Ever(w, since, until, filter, AtHour(p.hour, Unusable()))
  }

  lemma HourAllCounts(w: World, since: int, until: int, filter: set<Iata>, h: int)
    requires Inv(w) && h % HOUR == 0
    ensures ReadingSum(Readings(w.tables.content, CeilHour(since), until, filter), PathQuery.HeardIn(h))
         == Ever(w, since, until, filter, AtHour(h, Any()))
  {
    forall r: Row ensures PathQuery.HeardIn(h)(ReadingOf(r)) == AtHour(h, Any())(r) { HourOfInstant(r.heardAt, h); }
    KindCounts(w, since, until, filter, PathQuery.HeardIn(h), AtHour(h, Any()));
  }

  lemma PointIsExact(w: World, since: int, until: int, filter: set<Iata>, p: PathHour)
    requires Inv(w) && p.hour % HOUR == 0
    requires HourConserves(p, Readings(w.tables.content, CeilHour(since), until, filter))
    ensures PointCounts(w, since, until, filter, p)
  {
    forall r: Row
      ensures (PathCategory(r) == 0 <==> IsRouted(r)) && (PathCategory(r) == 1 <==> IsZeroHop(r))
      ensures (PathCategory(r) == 2 <==> IsTrace(r)) && (PathCategory(r) == 3 <==> IsUnclassified(r))
    {
      CategoryOfColumns(r);
    }
    HourAllCounts(w, since, until, filter, p.hour);
    HourKindCounts(w, since, until, filter, p.hour, 0, 1, RoutedWide(1));
    HourKindCounts(w, since, until, filter, p.hour, 0, 2, RoutedWide(2));
    HourKindCounts(w, since, until, filter, p.hour, 0, 3, RoutedWide(3));
    HourKindCounts(w, since, until, filter, p.hour, 1, 0, ZeroHop());
    HourKindCounts(w, since, until, filter, p.hour, 2, 0, Trace());
    HourKindCounts(w, since, until, filter, p.hour, 3, 0, Unusable());
  }

  lemma {:induction false} ReadingsAligned(content: map<int, Content>, from: int, to: int, filter: set<Iata>)
    requires from % HOUR == 0
    ensures forall r :: r in Readings(content, from, to, filter) ==> r.hour % HOUR == 0
    decreases Max(to - from, 0)
  {
    if from < to {
      ReadingsAligned(content, from + HOUR, to, filter);
      if from in content && Paths in content[from] && content[from][Paths].PathRows? {
        ReadingsHour(content[from][Paths].paths, from, filter);
      }
    }
  }

  lemma {:induction false} ReadingsHour(paths: seq<(PathKey, int)>, h: int, filter: set<Iata>)
    ensures forall r :: r in ReadingsOf(paths, h, filter) ==> r.hour == h
  {
    if paths != [] { ReadingsHour(paths[..|paths| - 1], h, filter); }
  }

  lemma {:induction false} SumIsPositive(readings: seq<Reading>, p: Reading -> bool)
    requires forall r :: r in readings ==> r.receptions > 0
    ensures ReadingSum(readings, p) >= 0 && (ReadingSum(readings, p) > 0 <==> exists r :: r in readings && p(r))
  {
    if readings != [] {
      var front, last := readings[..|readings| - 1], readings[|readings| - 1];
      assert readings == front + [last];
      SumIsPositive(front, p);
      assert last in readings;
      if r :| r in front && p(r) { assert r in readings; }
    }
  }

  lemma QueryMember(readings: seq<Reading>, q: PathRow)
    ensures q in QueryRows(readings)
            <==> q in Mapped(TotalGroups(readings), TotalRow) || q in Mapped(HourGroups(readings), HourRowOf)
  {
    var unsorted := Mapped(TotalGroups(readings), TotalRow) + Mapped(HourGroups(readings), HourRowOf);
    InOrderIsPreorder();
    SortOrders(unsorted, InOrder);
    assert q in QueryRows(readings) <==> q in multiset(QueryRows(readings));
    assert q in unsorted <==> q in multiset(unsorted);
  }

  /** A key is grouped exactly when some reading has it. */
  lemma GroupedKey(readings: seq<Reading>, k: HourKey)
    ensures k in Keys(HourGroups(readings)) <==>
              exists r :: r in readings && HourKey(r.hour, r.category, r.hashBytes) == k
  {
    var items := Collect(readings, HourItem);
    GroupKeys(items, PlusHour);
    if k in Keys(items) {
      var j :| 0 <= j < |items| && items[j].0 == k;
      CollectReadings(readings, items[j]);
    }
    if r :| r in readings && HourKey(r.hour, r.category, r.hashBytes) == k {
      CollectReadings(readings, HourItem(r).value);
      var j :| 0 <= j < |items| && items[j] == HourItem(r).value;
    }
  }

  /** The hours listed are those of the readings. */
  lemma ListedHours(readings: seq<Reading>, h: int)
    ensures ListsHour(QueryRows(readings), h) <==> exists r :: r in readings && r.hour == h
  {
    var groups, hours := HourGroups(readings), Mapped(HourGroups(readings), HourRowOf);
    if ListsHour(QueryRows(readings), h) {
      var q :| q in QueryRows(readings) && q.isHourly && q.hour == h;
      QueryMember(readings, q);
      TotalsAreNotHourly(readings, q);
      var i :| 0 <= i < |hours| && hours[i] == q;
      assert q == HourRowOf(groups[i]) && groups[i].0 in Keys(groups);
      GroupedKey(readings, groups[i].0);
      var r :| r in readings && HourKey(r.hour, r.category, r.hashBytes) == groups[i].0;
      assert r.hour == h;
    }
    if r :| r in readings && r.hour == h {
      var k := HourKey(r.hour, r.category, r.hashBytes);
      GroupedKey(readings, k);
      var i :| 0 <= i < |groups| && groups[i].0 == k;
      assert hours[i] == HourRowOf(groups[i]) && hours[i] in hours;
      var q := hours[i];
      QueryMember(readings, q);
      assert q in QueryRows(readings) && q.isHourly && q.hour == h;
    }
  }

  lemma TotalsAreNotHourly(readings: seq<Reading>, q: PathRow)
    ensures q.isHourly ==> q !in Mapped(TotalGroups(readings), TotalRow)
  {
    var groups, rows := TotalGroups(readings), Mapped(TotalGroups(readings), TotalRow);
    if q in rows {
      var i :| 0 <= i < |rows| && rows[i] == q;
      assert q == TotalRow(groups[i]);
    }
  }

  lemma {:induction false} CollectReadings(readings: seq<Reading>, item: (HourKey, HourSums))
    ensures item in Collect(readings, HourItem) <==> exists r :: r in readings && HourItem(r) == Some(item)
  {
    if readings != [] {
      var front, last := readings[..|readings| - 1], readings[|readings| - 1];
      assert readings == front + [last];
      CollectReadings(front, item);
      assert last in readings;
      if r :| r in front && HourItem(r) == Some(item) { assert r in readings; }
    }
  }

  // ---- the longest path of an hour ----

  ghost function RoutedOver(hops: int): Row -> bool {
    (r: Row) => IsRouted(r) && r.hopCount == hops
  }

  function HeardOver(h: int, hops: int): Reading -> bool {
    (r: Reading) => r.hour == h && r.category == 0 && r.entries == hops
  }

  /** The fold of an hour's rows is the greatest entry count among them, or 0. */
  lemma {:induction false} MaxOfRows(rows: seq<PathRow>, h: int)
    requires forall q :: q in rows ==> q.maxEntries >= 0
    ensures var m := Pass(rows, MaxShare(h), Max, 0);
            && (forall q :: q in rows && q.isHourly && q.hour == h ==> q.maxEntries <= m)
            && (m > 0 ==> exists q :: q in rows && q.isHourly && q.hour == h && q.maxEntries == m) && m >= 0
  {
    if rows != [] {
      var front, last := rows[..|rows| - 1], rows[|rows| - 1];
      assert rows == front + [last];
      MaxOfRows(front, h);
      assert last in rows;
      if q :| q in front && q.isHourly && q.hour == h && q.maxEntries == Pass(front, MaxShare(h), Max, 0) {
        assert q in rows;
      }
    }
  }

  /** A group's longest entry count is the greatest among the items of its key. */
  ghost predicate GroupMax(items: seq<(HourKey, HourSums)>, k: HourKey, longest: Option<int>) {
    && (forall i :: 0 <= i < |items| && items[i].0 == k && items[i].1.maxEntries.Some? ==>
          longest.Some? && items[i].1.maxEntries.value <= longest.value)
    && (longest.Some? ==> exists i :: 0 <= i < |items| && items[i].0 == k && items[i].1.maxEntries == longest)
  }

  function LongestOf(sums: HourSums): Option<int> {
    sums.maxEntries
  }

  lemma {:induction false} TotalLongest(items: seq<(HourKey, HourSums)>, k: HourKey)
    ensures GroupMax(items, k, Total(items, Key(k), PlusHour, NO_SUMS).maxEntries)
  {
    if items != [] {
      var front, last, sel := items[..|items| - 1], items[|items| - 1], Key(k);
      TotalLongest(front, k);
      var before := Total(front, sel, PlusHour, NO_SUMS).maxEntries;
      var all := Total(items, sel, PlusHour, NO_SUMS).maxEntries;
      forall i | 0 <= i < |items| && items[i].0 == k && items[i].1.maxEntries.Some?
        ensures all.Some? && items[i].1.maxEntries.value <= all.value
      {
        if i < |front| { assert front[i] == items[i]; }
      }
      if all.Some? {
        if last.0 == k && last.1.maxEntries == all {
          assert items[|items| - 1].1.maxEntries == all;
        } else {
          var i :| 0 <= i < |front| && front[i].0 == k && front[i].1.maxEntries == before;
          assert items[i] == front[i];
        }
      }
    }
  }

  lemma GroupLongest(readings: seq<Reading>, i: nat)
    requires i < |HourGroups(readings)|
    ensures GroupMax(Collect(readings, HourItem), HourGroups(readings)[i].0, HourGroups(readings)[i].1.maxEntries)
  {
    var items, groups := Collect(readings, HourItem), HourGroups(readings);
    HourMonoid();
    GroupValue(items, i, PlusHour, NO_SUMS);
    TotalLongest(items, groups[i].0);
  }

  /** In every listed hour the longest path is that of some reading, and no reading has a longer one. */
  lemma LongestReading(readings: seq<Reading>, h: int)
    requires forall r :: r in readings ==> ValidReading(r)
    ensures var m := HourPoint(QueryRows(readings), h).maxEntries;
            && m >= 0 && (forall r :: r in readings && r.hour == h && r.category == 0 ==> r.entries <= m)
            && (m > 0 ==> exists r :: r in readings && r.hour == h && r.category == 0 && r.entries == m)
  {
    var rows, m := QueryRows(readings), HourPoint(QueryRows(readings), h).maxEntries;
    QueryRowsClassified(readings);
    forall q | q in rows ensures q.maxEntries >= 0 { assert Classified(q); }
    MaxOfRows(rows, h);
    forall r | r in readings && r.hour == h && r.category == 0 ensures r.entries <= m { ReadingIsListed(readings, r); }
    if m > 0 {
      var q :| q in rows && q.isHourly && q.hour == h && q.maxEntries == m;
      ListedIsReading(readings, q);
    }
  }

  lemma ReadingIsListed(readings: seq<Reading>, r: Reading)
    requires r in readings && ValidReading(r)
    ensures exists q :: q in QueryRows(readings) && q.isHourly && q.hour == r.hour && r.entries <= q.maxEntries
  {
    var groups, hours := HourGroups(readings), Mapped(HourGroups(readings), HourRowOf);
    var items, k := Collect(readings, HourItem), HourKey(r.hour, r.category, r.hashBytes);
    GroupedKey(readings, k);
    var i :| 0 <= i < |groups| && groups[i].0 == k;
    GroupLongest(readings, i);
    CollectReadings(readings, HourItem(r).value);
    var j :| 0 <= j < |items| && items[j] == HourItem(r).value;
    assert items[j].0 == k && items[j].1.maxEntries == Some(r.entries);
    assert hours[i] == HourRowOf(groups[i]) && hours[i] in hours;
    QueryMember(readings, hours[i]);
  }

  lemma ListedIsReading(readings: seq<Reading>, q: PathRow)
    requires q in QueryRows(readings) && q.isHourly && q.maxEntries > 0 && forall r :: r in readings ==> ValidReading(r)
    ensures exists r :: r in readings && r.hour == q.hour && r.category == 0 && r.entries == q.maxEntries
  {
    var groups, items := HourGroups(readings), Collect(readings, HourItem);
    var hours := Mapped(groups, HourRowOf);
    QueryMember(readings, q);
    TotalsAreNotHourly(readings, q);
    var i :| 0 <= i < |hours| && hours[i] == q;
    assert q == HourRowOf(groups[i]);
    GroupLongest(readings, i);
    assert groups[i].1.maxEntries == Some(q.maxEntries);
    var j :| 0 <= j < |items| && items[j].0 == groups[i].0 && items[j].1.maxEntries == groups[i].1.maxEntries;
    CollectReadings(readings, items[j]);
  }

  /** Likewise over the observations: the longest path is routed over so many hops, and no routed one in the hour
      over more. */
  ghost predicate PointLongest(w: World, since: int, until: int, filter: set<Iata>, p: PathHour) {
    && p.maxEntries >= 0
    && (forall hops :: hops > p.maxEntries ==> Ever(w, since, until, filter, AtHour(p.hour, RoutedOver(hops))) == 0)
    && (p.maxEntries > 0 ==> Ever(w, since, until, filter, AtHour(p.hour, RoutedOver(p.maxEntries))) > 0)
  }

  lemma OverCounts(w: World, since: int, until: int, filter: set<Iata>, h: int, hops: int)
    requires Inv(w) && h % HOUR == 0
    ensures ReadingSum(Readings(w.tables.content, CeilHour(since), until, filter), HeardOver(h, hops))
         == Ever(w, since, until, filter, AtHour(h, RoutedOver(hops)))
  {
    forall r: Row ensures HeardOver(h, hops)(ReadingOf(r)) == AtHour(h, RoutedOver(hops))(r) {
      CategoryOfColumns(r);
      HourOfInstant(r.heardAt, h);
    }
    KindCounts(w, since, until, filter, HeardOver(h, hops), AtHour(h, RoutedOver(hops)));
  }

  lemma LongestIsExact(w: World, since: int, until: int, filter: set<Iata>, p: PathHour)
    requires Inv(w) && p.hour % HOUR == 0
    requires p == HourPoint(QueryRows(Readings(w.tables.content, CeilHour(since), until, filter)), p.hour)
    ensures PointLongest(w, since, until, filter, p)
  {
    var readings := Readings(w.tables.content, CeilHour(since), until, filter);
    RolledReadingsValid(w, CeilHour(since), until, filter);
    LongestReading(readings, p.hour);
    forall hops | hops > p.maxEntries ensures Ever(w, since, until, filter, AtHour(p.hour, RoutedOver(hops))) == 0 {
      OverCounts(w, since, until, filter, p.hour, hops);
      SumIsPositive(readings, HeardOver(p.hour, hops));
    }
    if p.maxEntries > 0 {
      OverCounts(w, since, until, filter, p.hour, p.maxEntries);
      SumIsPositive(readings, HeardOver(p.hour, p.maxEntries));
    }
  }

  // ---- end to end ----

  /** Every number of a response, by the columns of everything ever heard in the complete hours at the wanted sites. */
  ghost predicate StatsExact(s: PathStats, w: World, since: int, until: int, filter: set<Iata>) {
    && s.receptions == Ever(w, since, until, filter, Any()) && s.hashed == Ever(w, since, until, filter, Routed())
    && s.empty == Ever(w, since, until, filter, ZeroHop()) && s.trace == Ever(w, since, until, filter, Trace())
    && s.unclassified == Ever(w, since, until, filter, Unusable())
    && |s.hashWidths| == 3
    && (forall b :: 1 <= b <= 3 ==> s.hashWidths[b - 1] == Ever(w, since, until, filter, RoutedWide(b)))
    && (forall bin :: bin in s.pathLengths <==>
          0 <= bin.0 < 64 && bin.1 == Ever(w, since, until, filter, OfLength(bin.0)) && bin.1 > 0)
    && (forall i, j :: 0 <= i < j < |s.pathLengths| ==> s.pathLengths[i].0 < s.pathLengths[j].0)
    && (forall i, j :: 0 <= i < j < |s.hourly| ==> s.hourly[i].hour < s.hourly[j].hour)
    && (forall k :: 0 <= k < |s.hourly| ==>
          PointCounts(w, since, until, filter, s.hourly[k]) && PointLongest(w, since, until, filter, s.hourly[k]))
    && (forall h :: h % 3_600_000_000 == 0 ==>
          (HasHour(s.hourly, h) <==> Ever(w, since, until, filter, AtHour(h, Any())) > 0))
    && (forall k :: 0 <= k < |s.hourly| ==> s.hourly[k].hour % 3_600_000_000 == 0)
  }

  lemma HourlyIsExact(w: World, since: int, until: int, filter: set<Iata>, hourly: seq<PathHour>)
    requires Inv(w) && HoursSoFar(QueryRows(Readings(w.tables.content, CeilHour(since), until, filter)), hourly)
    ensures forall k :: 0 <= k < |hourly| ==>
              && hourly[k].hour % HOUR == 0
              && PointCounts(w, since, until, filter, hourly[k]) && PointLongest(w, since, until, filter, hourly[k])
    ensures forall h :: h % HOUR == 0 ==> (HasHour(hourly, h) <==> Ever(w, since, until, filter, AtHour(h, Any())) > 0)
  {
    var readings := Readings(w.tables.content, CeilHour(since), until, filter);
    RolledReadingsValid(w, CeilHour(since), until, filter);
    ReadingsAligned(w.tables.content, CeilHour(since), until, filter);
    forall k | 0 <= k < |hourly|
      ensures hourly[k].hour % HOUR == 0
      ensures PointCounts(w, since, until, filter, hourly[k]) && PointLongest(w, since, until, filter, hourly[k])
    {
      assert HasHour(hourly, hourly[k].hour);
      ListedHours(readings, hourly[k].hour);
      PointConserves(readings, hourly[k].hour);
      PointIsExact(w, since, until, filter, hourly[k]);
      LongestIsExact(w, since, until, filter, hourly[k]);
    }
    forall h | h % HOUR == 0 ensures HasHour(hourly, h) <==> Ever(w, since, until, filter, AtHour(h, Any())) > 0 {
      ListedHours(readings, h);
      HourAllCounts(w, since, until, filter, h);
      SumIsPositive(readings, PathQuery.HeardIn(h));
    }
  }

  lemma SummaryIsExact(w: World, since: int, until: int, filter: set<Iata>, s: PathStats)
    requires Inv(w) && Summarises(s, QueryRows(Readings(w.tables.content, CeilHour(since), until, filter)))
    ensures StatsExact(s, w, since, until, filter)
  {
    var rows := QueryRows(Readings(w.tables.content, CeilHour(since), until, filter));
    var lengths :| TotalsSoFar(rows, s, lengths) && s.pathLengths == Lists(lengths, 64);
    AllCounts(w, since, until, filter);
    CategoryCounts(w, since, until, filter);
    WidthsAreExact(w, since, until, filter, s.hashWidths);
    BinsAreExact(w, since, until, filter, lengths);
    HourlyIsExact(w, since, until, filter, s.hourly);
  }

  lemma WidthsAreExact(w: World, since: int, until: int, filter: set<Iata>, widths: seq<int>)
    requires Inv(w) && WidthsOf(QueryRows(Readings(w.tables.content, CeilHour(since), until, filter)), widths)
    ensures |widths| == 3 && forall b :: 1 <= b <= 3 ==> widths[b - 1] == Ever(w, since, until, filter, RoutedWide(b))
  {
    forall b | 1 <= b <= 3 ensures widths[b - 1] == Ever(w, since, until, filter, RoutedWide(b)) {
      WidthCounts(w, since, until, filter, b);
      WidthAt(QueryRows(Readings(w.tables.content, CeilHour(since), until, filter)), widths, b);
    }
  }

  lemma WidthAt(rows: seq<PathRow>, widths: seq<int>, b: int)
    requires WidthsOf(rows, widths) && 1 <= b <= 3
    ensures |widths| == 3 && widths[b - 1] == RowSum(rows, Width(b))
  {
  }

  lemma BinsAreExact(w: World, since: int, until: int, filter: set<Iata>, lengths: seq<int>)
    requires Inv(w) && LengthsOf(QueryRows(Readings(w.tables.content, CeilHour(since), until, filter)), lengths)
    ensures forall bin :: bin in Lists(lengths, 64) <==>
              0 <= bin.0 < 64 && bin.1 == Ever(w, since, until, filter, OfLength(bin.0)) && bin.1 > 0
    ensures forall i, j :: 0 <= i < j < |Lists(lengths, 64)| ==> Lists(lengths, 64)[i].0 < Lists(lengths, 64)[j].0
  {
    ListsExactly(lengths, 64);
    forall e | 0 <= e < 64 ensures lengths[e] == Ever(w, since, until, filter, OfLength(e)) {
      LengthCounts(w, since, until, filter, e);
    }
  }

  /** Served from the stored paths of any reachable state, the loop succeeds, and every number of what it returns
      counts the observations ever heard whose columns say so. */
  method ServePathStats(content: map<int, Content>, since: int, until: int, filter: set<Iata>, ghost now: int,
                        ghost steps: seq<Step>)
    returns (stats: Option<PathStats>)
    requires IsRun(Start(now), steps) && content == After(Start(now), steps).tables.content
    ensures stats.Some? && Conserves(stats.value, Readings(content, CeilHour(since), until, filter))
    ensures StatsExact(stats.value, After(Start(now), steps), since, until, filter)
  {
    ghost var w := After(Start(now), steps);
    RunKeepsInv(Start(now), steps);
    RolledReadingsValid(w, CeilHour(since), until, filter);
    QueryRowsClassified(Readings(content, CeilHour(since), until, filter));
    stats := FoldRows(QueryRows(Readings(content, CeilHour(since), until, filter)));
    SummaryConserves(Readings(content, CeilHour(since), until, filter), stats.value);
    SummaryIsExact(w, since, until, filter, stats.value);
  }
}
