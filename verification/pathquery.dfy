/** The grouped query over the rolled paths, and the conservation laws of the response it leads to. */
module PathQuery {
  import opened Base
  import opened Grouping
  import opened Sorting
  import opened SetBuckets
  import opened Families
  import opened DistinctCounts
  import opened World
  import opened Protocol
  import opened RunTheorems
  import opened HourFold
  import opened PathStatistics

  // ---- the query ----

  datatype TotalKey = TotalKey(category: int, hashBytes: int, entries: int)

  datatype HourKey = HourKey(hour: int, category: int, hashBytes: int)

  /** sum(receptions), and max(entries) FILTER (WHERE receptions > 0). */
  datatype HourSums = HourSums(receptions: int, maxEntries: Option<int>)

  const NO_SUMS: HourSums := HourSums(0, None)

  function PlusHour(a: HourSums, b: HourSums): HourSums {
    HourSums(a.receptions + b.receptions,
             if a.maxEntries.None? then b.maxEntries else if b.maxEntries.None? then a.maxEntries
             else Some(Max(a.maxEntries.value, b.maxEntries.value)))
  }

  function TotalItem(r: Reading): Option<(TotalKey, int)> {
    Some((TotalKey(r.category, r.hashBytes, r.entries), r.receptions))
  }

  function HourItem(r: Reading): Option<(HourKey, HourSums)> {
    Some((HourKey(r.hour, r.category, r.hashBytes),
          HourSums(r.receptions, if r.receptions > 0 then Some(r.entries) else None)))
  }

  function TotalRow(g: (TotalKey, int)): PathRow {
    PathRow(false, 0, g.0.category, g.0.hashBytes, g.0.entries, g.1, 0)
  }

  function HourRowOf(g: (HourKey, HourSums)): PathRow {
    PathRow(true, g.0.hour, g.0.category, g.0.hashBytes, 0, g.1.receptions, if g.1.maxEntries.None? then 0
        else g.1.maxEntries.value)
  }

  function Mapped<A, B>(s: seq<A>, f: A -> B): seq<B> {
    seq(|s|, i requires 0 <= i < |s| => f(s[i]))
  }

  function TotalGroups(readings: seq<Reading>): seq<(TotalKey, int)> {
    GroupBy(Collect(readings, TotalItem), Plus)
  }

  function HourGroups(readings: seq<Reading>): seq<(HourKey, HourSums)> {
    GroupBy(Collect(readings, HourItem), PlusHour)
  }

  /** GROUPING SETS ((category, hash_bytes, entries), (hour, category, hash_bytes)) ORDER BY is_hourly, hour. */
  function QueryRows(readings: seq<Reading>): seq<PathRow> {
    Sort(Mapped(TotalGroups(readings), TotalRow) + Mapped(HourGroups(readings), HourRowOf), InOrder)
  }

  // ---- what the query rows add up to ----

  function ReadingShare(p: Reading -> bool): Reading -> int {
    (r: Reading) => if p(r) then r.receptions else 0
  }

  function ReadingSum(readings: seq<Reading>, p: Reading -> bool): int {
    Pass(readings, ReadingShare(p), Plus, 0)
  }

  lemma PlusMonoid()
    ensures CommutativeMonoid(Plus, 0)
  {
  }

  lemma HourMonoid()
    ensures CommutativeMonoid(PlusHour, NO_SUMS)
  {
    forall a: HourSums, b: HourSums, c: HourSums ensures PlusHour(PlusHour(a, b), c) == PlusHour(a, PlusHour(b, c)) {}
  }

  lemma {:induction false} PassConcat(a: seq<PathRow>, b: seq<PathRow>, p: PathRow -> bool)
    ensures RowSum(a + b, p) == RowSum(a, p) + RowSum(b, p)
  {
    if b == [] {
      assert a + b == a;
    } else {
      assert (a + b)[..|a + b| - 1] == a + b[..|b| - 1];
      PassConcat(a, b[..|b| - 1], p);
    }
  }

  lemma {:induction false} TotalRowsSum(groups: seq<(TotalKey, int)>, p: PathRow -> bool, sel: TotalKey -> bool)
    requires forall g: (TotalKey, int) :: p(TotalRow(g)) == sel(g.0)
    ensures RowSum(Mapped(groups, TotalRow), p) == Total(groups, sel, Plus, 0)
  {
    if groups != [] {
      var front, rows := groups[..|groups| - 1], Mapped(groups, TotalRow);
      assert rows[..|rows| - 1] == Mapped(front, TotalRow);
      TotalRowsSum(front, p, sel);
      assert p(TotalRow(groups[|groups| - 1])) == sel(groups[|groups| - 1].0);
    }
  }

  lemma {:induction false} HourRowsSum(groups: seq<(HourKey, HourSums)>, p: PathRow -> bool, sel: HourKey -> bool)
    requires forall g: (HourKey, HourSums) :: p(HourRowOf(g)) == sel(g.0)
    ensures RowSum(Mapped(groups, HourRowOf), p) == Total(groups, sel, PlusHour, NO_SUMS).receptions
  {
    if groups != [] {
      var front, rows := groups[..|groups| - 1], Mapped(groups, HourRowOf);
      assert rows[..|rows| - 1] == Mapped(front, HourRowOf);
      HourRowsSum(front, p, sel);
      assert p(HourRowOf(groups[|groups| - 1])) == sel(groups[|groups| - 1].0);
    }
  }

  lemma {:induction false} HourPass(readings: seq<Reading>, share: Reading -> HourSums, p: Reading -> bool)
    requires forall r :: r in readings ==> share(r).receptions == ReadingShare(p)(r)
    ensures Pass(readings, share, PlusHour, NO_SUMS).receptions == ReadingSum(readings, p)
  {
    if readings != [] {
      HourPass(readings[..|readings| - 1], share, p);
    }
  }

  /** The receptions of any selection of query rows are those of the readings it stands for, in each grouping. */
  lemma QuerySum(readings: seq<Reading>, p: PathRow -> bool, totals: TotalKey -> bool, hours: HourKey -> bool,
                 pt: Reading -> bool, ph: Reading -> bool)
    requires forall g: (TotalKey, int) :: p(TotalRow(g)) == totals(g.0)
    requires forall g: (HourKey, HourSums) :: p(HourRowOf(g)) == hours(g.0)
    requires forall r: Reading :: pt(r) == totals(TotalKey(r.category, r.hashBytes, r.entries))
    requires forall r: Reading :: ph(r) == hours(HourKey(r.hour, r.category, r.hashBytes))
    ensures RowSum(QueryRows(readings), p) == ReadingSum(readings, pt) + ReadingSum(readings, ph)
  {
    PlusMonoid();
    var a, b := Mapped(TotalGroups(readings), TotalRow), Mapped(HourGroups(readings), HourRowOf);
    PassSort(a + b, InOrder, RowShare(p), Plus, 0);
    PassConcat(a, b, p);
    TotalRowsSum(TotalGroups(readings), p, totals);
    HourRowsSum(HourGroups(readings), p, hours);
    TotalSide(readings, totals, pt);
    HourSide(readings, hours, ph);
  }

  lemma PlusTotal(readings: seq<Reading>, totals: TotalKey -> bool, share: Reading -> int)
    requires forall r :: r in readings ==> ShareOf(TotalItem, totals, 0)(r) == share(r)
    ensures Total(TotalGroups(readings), totals, Plus, 0) == Pass(readings, share, Plus, 0)
  {
    PlusMonoid();
    TotalOfGroups(Collect(readings, TotalItem), totals, Plus, 0);
    TotalIsPass(readings, TotalItem, totals, Plus, 0);
    PassAgree(readings, ShareOf(TotalItem, totals, 0), share, Plus, 0);
  }

  lemma TotalSide(readings: seq<Reading>, totals: TotalKey -> bool, pt: Reading -> bool)
    requires forall r: Reading :: pt(r) == totals(TotalKey(r.category, r.hashBytes, r.entries))
    ensures Total(TotalGroups(readings), totals, Plus, 0) == ReadingSum(readings, pt)
  {
    forall r | r in readings ensures ShareOf(TotalItem, totals, 0)(r) == ReadingShare(pt)(r) {
      assert TotalItem(r).value == (TotalKey(r.category, r.hashBytes, r.entries), r.receptions);
      assert pt(r) == totals(TotalKey(r.category, r.hashBytes, r.entries));
    }
    PlusTotal(readings, totals, ReadingShare(pt));
  }

  lemma HourTotal(readings: seq<Reading>, hours: HourKey -> bool)
    ensures Total(HourGroups(readings), hours, PlusHour, NO_SUMS)
            == Pass(readings, ShareOf(HourItem, hours, NO_SUMS), PlusHour, NO_SUMS)
  {
    HourMonoid();
    TotalOfGroups(Collect(readings, HourItem), hours, PlusHour, NO_SUMS);
    TotalIsPass(readings, HourItem, hours, PlusHour, NO_SUMS);
  }

  lemma HourSide(readings: seq<Reading>, hours: HourKey -> bool, ph: Reading -> bool)
    requires forall r: Reading :: ph(r) == hours(HourKey(r.hour, r.category, r.hashBytes))
    ensures Total(HourGroups(readings), hours, PlusHour, NO_SUMS).receptions == ReadingSum(readings, ph)
  {
    HourTotal(readings, hours);
    forall r | r in readings ensures ShareOf(HourItem, hours, NO_SUMS)(r).receptions == ReadingShare(ph)(r) {
      assert HourItem(r).value.0 == HourKey(r.hour, r.category, r.hashBytes);
      assert ph(r) == hours(HourKey(r.hour, r.category, r.hashBytes));
    }
    HourPass(readings, ShareOf(HourItem, hours, NO_SUMS), ph);
  }

  predicate All<T>(t: T) { true }
  predicate Nothing<T>(t: T) { false }

  function HourIs(h: int): HourKey -> bool {
    (k: HourKey) => k.hour == h
  }

  function HeardIn(h: int): Reading -> bool {
    (r: Reading) => r.hour == h
  }

  /** Totals, hours together, and each hour alone: every grouping of the query counts every reception once. */
  lemma QueryConserves(readings: seq<Reading>, h: int)
    ensures RowSum(QueryRows(readings), IsTotal) == ReadingSum(readings, All<Reading>)
    ensures RowSum(QueryRows(readings), IsHourly) == ReadingSum(readings, All<Reading>)
    ensures RowSum(QueryRows(readings), OfHour(h)) == ReadingSum(readings, HeardIn(h))
  {
    QuerySum(readings, IsTotal, All<TotalKey>, Nothing<HourKey>, All<Reading>, Nothing<Reading>);
    QuerySum(readings, IsHourly, Nothing<TotalKey>, All<HourKey>, Nothing<Reading>, All<Reading>);
    QuerySum(readings, OfHour(h), Nothing<TotalKey>, HourIs(h), Nothing<Reading>, HeardIn(h));
    NoReadings(readings);
  }

  lemma {:induction false} NoReadings(readings: seq<Reading>)
    ensures ReadingSum(readings, Nothing<Reading>) == 0
  {
    if readings != [] {
      NoReadings(readings[..|readings| - 1]);
      assert !Nothing(readings[|readings| - 1]);
      assert ReadingShare(Nothing<Reading>)(readings[|readings| - 1]) == 0;
    }
  }

  // ---- rows that come from a roll ----

  /** What RollPaths can write: category 0 has a width and an entry count that fit the packed byte, the others zeros. */
  predicate ValidKey(category: int, hashBytes: int, entries: int) {
    if category == 0 then 1 <= hashBytes <= 3 && 1 <= entries <= 63 && hashBytes * entries <= 64
    else 1 <= category <= 3 && hashBytes == 0 && entries == 0
  }

  predicate ValidReading(r: Reading) {
    ValidKey(r.category, r.hashBytes, r.entries) && r.receptions > 0
  }

  lemma ClassifiedKey(r: Row)
    ensures var k := PathItem(r).value.0; ValidKey(k.category, k.hashBytes, k.entries)
  {
  }

  ghost predicate Positive<K>(groups: seq<(K, int)>) {
    forall i :: 0 <= i < |groups| ==> groups[i].1 > 0
  }

  lemma {:induction false} AddPositive<K>(groups: seq<(K, int)>, key: K, value: int)
    requires Positive(groups) && value > 0
    ensures Positive(Add(groups, key, value, Plus))
  {
    if groups != [] {
      AddPositive(groups[..|groups| - 1], key, value);
    }
  }

  lemma {:induction false} GroupPositive<K>(items: seq<(K, int)>)
    requires Positive(items)
    ensures Positive(GroupBy(items, Plus))
  {
    if items != [] {
      GroupPositive(items[..|items| - 1]);
      AddPositive(GroupBy(items[..|items| - 1], Plus), items[|items| - 1].0, items[|items| - 1].1);
    }
  }

  /** Every row a roll stores is valid, so the loop's range error cannot happen on rolled data. */
  lemma RolledPathsValid(rows: seq<Row>)
    ensures forall g :: g in Roll(Paths, rows, map[]).paths
                        ==> ValidKey(g.0.category, g.0.hashBytes, g.0.entries) && g.1 > 0
  {
    var items := Collect(rows, PathItem);
    forall i | 0 <= i < |items| ensures items[i].1 > 0
        && ValidKey(items[i].0.category, items[i].0.hashBytes, items[i].0.entries) {
      CollectItems(rows, PathItem, items[i]);
      var r :| r in rows && PathItem(r) == Some(items[i]);
      ClassifiedKey(r);
    }
    GroupPositive(items);
    GroupKeys(items, Plus);
    var groups := GroupBy(items, Plus);
    forall g | g in groups ensures ValidKey(g.0.category, g.0.hashBytes, g.0.entries) && g.1 > 0 {
      var i :| 0 <= i < |groups| && groups[i] == g;
      assert g.0 in Keys(groups) && Keys(groups) == Keys(items);
    }
  }

  /** WHERE iata = ANY($3), over one hour's stored rows. */
  function ReadingsOf(paths: seq<(PathKey, int)>, h: int, filter: set<Iata>): seq<Reading> {
    if paths == [] then []
    else
      var front, g := ReadingsOf(paths[..|paths| - 1], h, filter), paths[|paths| - 1];
      if filter == {} || g.0.iata in filter
      then front + [Reading(h, g.0.iata, g.0.category, g.0.hashBytes, g.0.entries, g.1)] else front
  }

  function ReadingsAt(content: map<int, Content>, h: int, filter: set<Iata>): seq<Reading> {
    if h in content && Paths in content[h] && content[h][Paths].PathRows?
        then ReadingsOf(content[h][Paths].paths, h, filter) else []
  }

  /** The readings of the hours in [from, to). */
  function Readings(content: map<int, Content>, from: int, to: int, filter: set<Iata>): seq<Reading>
    decreases Max(to - from, 0)
  {
    if from >= to then [] else ReadingsAt(content, from, filter) + Readings(content, from + HOUR, to, filter)
  }

  lemma {:induction false} ReadingsValid(paths: seq<(PathKey, int)>, h: int, filter: set<Iata>)
    requires forall g :: g in paths ==> ValidKey(g.0.category, g.0.hashBytes, g.0.entries) && g.1 > 0
    ensures forall r :: r in ReadingsOf(paths, h, filter) ==> ValidReading(r) && r.hour == h
  {
    if paths != [] {
      ReadingsValid(paths[..|paths| - 1], h, filter);
      assert paths[|paths| - 1] in paths;
    }
  }

  lemma {:induction false} RolledReadingsValid(w: World, from: int, to: int, filter: set<Iata>)
    requires Inv(w)
    ensures forall r :: r in Readings(w.tables.content, from, to, filter) ==> ValidReading(r) && from <= r.hour < to
    decreases Max(to - from, 0)
  {
    if from < to {
      RolledReadingsValid(w, from + HOUR, to, filter);
      if from in w.tables.content {
        var rows := RowsIn(w.ever, from);
        ExactFamily(w.tables.content[from], rows, Paths);
        RolledPathsValid(rows);
        ReadingsValid(w.tables.content[from][Paths].paths, from, filter);
      }
    }
  }

  // ---- the response ----

  lemma InOrderIsPreorder()
    ensures TotalPreorder(InOrder)
  {
  }

  /** Query rows of valid readings: classified, in range, with receptions that are not negative. */
  ghost predicate Classified(r: PathRow) {
    0 <= r.category <= 3 && !Invalid(r) && r.receptions >= 0 && r.maxEntries >= 0
  }

  lemma {:induction false} AddNonnegative(groups: seq<(HourKey, HourSums)>, key: HourKey, value: HourSums)
    requires forall g :: g in groups ==> g.1.receptions >= 0 && (g.1.maxEntries.Some? ==> g.1.maxEntries.value >= 0)
    requires value.receptions >= 0 && (value.maxEntries.Some? ==> value.maxEntries.value >= 0)
    ensures forall g :: g in Add(groups, key, value, PlusHour)
                        ==> g.1.receptions >= 0 && (g.1.maxEntries.Some? ==> g.1.maxEntries.value >= 0)
  {
    if groups != [] {
      assert groups[|groups| - 1] in groups;
      AddNonnegative(groups[..|groups| - 1], key, value);
    }
  }

  lemma {:induction false} HourGroupsNonnegative(items: seq<(HourKey, HourSums)>)
    requires forall g :: g in items ==> g.1.receptions >= 0 && (g.1.maxEntries.Some? ==> g.1.maxEntries.value >= 0)
    ensures forall g :: g in GroupBy(items, PlusHour)
                        ==> g.1.receptions >= 0 && (g.1.maxEntries.Some? ==> g.1.maxEntries.value >= 0)
  {
    if items != [] {
      assert items[|items| - 1] in items;
      HourGroupsNonnegative(items[..|items| - 1]);
      AddNonnegative(GroupBy(items[..|items| - 1], PlusHour), items[|items| - 1].0, items[|items| - 1].1);
    }
  }

  lemma TotalRowsClassified(readings: seq<Reading>)
    requires forall r :: r in readings ==> ValidReading(r)
    ensures forall q :: q in Mapped(TotalGroups(readings), TotalRow) ==> Classified(q)
  {
    var items := Collect(readings, TotalItem);
    forall i | 0 <= i < |items| ensures items[i].1 > 0
        && ValidKey(items[i].0.category, items[i].0.hashBytes, items[i].0.entries) {
      CollectItems(readings, TotalItem, items[i]);
    }
    GroupPositive(items);
    GroupKeys(items, Plus);
    var groups, rows := GroupBy(items, Plus), Mapped(TotalGroups(readings), TotalRow);
    forall q | q in rows ensures Classified(q) {
      var i :| 0 <= i < |rows| && rows[i] == q;
      assert q == TotalRow(groups[i]) && groups[i].0 in Keys(groups) && Keys(groups) == Keys(items);
    }
  }

  lemma HourRowsClassified(readings: seq<Reading>)
    requires forall r :: r in readings ==> ValidReading(r)
    ensures forall q :: q in Mapped(HourGroups(readings), HourRowOf) ==> Classified(q)
  {
    var items := Collect(readings, HourItem);
    forall i | 0 <= i < |items|
      ensures items[i].1.receptions >= 0 && (items[i].1.maxEntries.Some? ==> items[i].1.maxEntries.value >= 0)
      ensures 0 <= items[i].0.category <= 3 && (items[i].0.category == 0 ==> 1 <= items[i].0.hashBytes <= 3)
    {
      CollectItems(readings, HourItem, items[i]);
    }
    HourGroupsNonnegative(items);
    GroupKeys(items, PlusHour);
    var groups, rows := GroupBy(items, PlusHour), Mapped(HourGroups(readings), HourRowOf);
    forall q | q in rows ensures Classified(q) {
      var i :| 0 <= i < |rows| && rows[i] == q;
      assert groups[i] in groups;
      assert q == HourRowOf(groups[i]) && groups[i].0 in Keys(groups) && Keys(groups) == Keys(items);
    }
  }

  lemma QueryRowsClassified(readings: seq<Reading>)
    requires forall r :: r in readings ==> ValidReading(r)
    ensures Ordered(QueryRows(readings), InOrder)
    ensures forall q :: q in QueryRows(readings) ==> Classified(q)
  {
    InOrderIsPreorder();
    var unsorted := Mapped(TotalGroups(readings), TotalRow) + Mapped(HourGroups(readings), HourRowOf);
    SortOrders(unsorted, InOrder);
    TotalRowsClassified(readings);
    HourRowsClassified(readings);
    forall q | q in QueryRows(readings) ensures Classified(q) {
      assert q in multiset(QueryRows(readings));
    }
  }

  lemma {:induction false} CategoriesPartition(rows: seq<PathRow>)
    requires forall q :: q in rows ==> Classified(q)
    ensures RowSum(rows, IsTotal) == RowSum(rows, Hashed) + RowSum(rows, Empty) + RowSum(rows, Traced)
            + RowSum(rows, Unclassified)
  {
    if rows != [] {
      var front, r := rows[..|rows| - 1], rows[|rows| - 1];
      assert rows == front + [r];
      assert Classified(r) by { assert r in rows; }
      CategoriesPartition(front);
      TotalsSnoc(front, r);
    }
  }

  lemma {:induction false} SumsNonnegative(rows: seq<PathRow>, p: PathRow -> bool)
    requires forall q :: q in rows ==> Classified(q)
    ensures RowSum(rows, p) >= 0
  {
    if rows != [] {
      var front, r := rows[..|rows| - 1], rows[|rows| - 1];
      assert rows == front + [r];
      assert Classified(r) by { assert r in rows; }
      SumsNonnegative(front, p);
      RowSumSnoc(front, r, p);
    }
  }

  ghost function SumPairs(s: seq<(int, int)>): int {
    if s == [] then 0 else SumPairs(s[..|s| - 1]) + s[|s| - 1].1
  }

  lemma {:induction false} ListedBins(lengths: seq<int>, upTo: nat)
    requires upTo <= |lengths| && forall e :: 0 <= e < |lengths| ==> lengths[e] >= 0
    ensures SumPairs(Lists(lengths, upTo)) == Sum(lengths[..upTo])
  {
    if upTo > 0 {
      ListedBins(lengths, upTo - 1);
      assert lengths[..upTo][..upTo - 1] == lengths[..upTo - 1];
      var shorter, listed := Lists(lengths, upTo - 1), Lists(lengths, upTo);
      if lengths[upTo - 1] > 0 { assert listed[..|listed| - 1] == shorter; } else { assert listed == shorter; }
    }
  }

  /** Receptions are conserved: the categories partition them, the widths add up to the routed ones, the listed
      lengths to the routed and zero-hop ones, and the hours, strictly ascending, to all of them. */
  ghost predicate Conserves(s: PathStats, readings: seq<Reading>) {
    && s.receptions == ReadingSum(readings, All<Reading>)
    && s.receptions == s.hashed + s.empty + s.trace + s.unclassified
    && Sum(s.hashWidths) == s.hashed
    && SumPairs(s.pathLengths) == s.hashed + s.empty
    && SumHours(s.hourly) == s.receptions
    && Ascending(s.hourly)
    && forall k :: 0 <= k < |s.hourly| ==> HourConserves(s.hourly[k], readings)
  }

  /** Likewise within an hour: categories and widths partition its receptions, and each is what the readings say. */
  ghost predicate HourConserves(p: PathHour, readings: seq<Reading>) {
    && p.receptions == ReadingSum(readings, HeardIn(p.hour))
    && p.receptions == p.oneByte + p.twoByte + p.threeByte + p.empty + p.trace + p.unclassified
    && p.oneByte == ReadingSum(readings, HeardAs(p.hour, 0, 1))
    && p.twoByte == ReadingSum(readings, HeardAs(p.hour, 0, 2))
    && p.threeByte == ReadingSum(readings, HeardAs(p.hour, 0, 3))
    && p.empty == ReadingSum(readings, HeardAs(p.hour, 1, 0))
    && p.trace == ReadingSum(readings, HeardAs(p.hour, 2, 0))
    && p.unclassified == ReadingSum(readings, HeardAs(p.hour, 3, 0))
  }

  /** Readings of one hour and category, and for routed ones of one width. */
  function HeardAs(h: int, category: int, bytes: int): Reading -> bool {
    (r: Reading) => r.hour == h && r.category == category && (category == 0 ==> r.hashBytes == bytes)
  }

  function KeyAs(h: int, category: int, bytes: int): HourKey -> bool {
    (k: HourKey) => k.hour == h && k.category == category && (category == 0 ==> k.hashBytes == bytes)
  }

  lemma KindConserves(readings: seq<Reading>, h: int, category: int, bytes: int)
    ensures RowSum(QueryRows(readings), OfHourCategory(h, category, bytes))
            == ReadingSum(readings, HeardAs(h, category, bytes))
  {
    QuerySum(readings, OfHourCategory(h, category, bytes), Nothing<TotalKey>, KeyAs(h, category, bytes),
             Nothing<Reading>,
             HeardAs(h, category, bytes));
    NoReadings(readings);
  }

  /** The hourly rows of an hour fall into its categories and widths. */
  lemma {:induction false} HourPartition(rows: seq<PathRow>, h: int)
    requires forall q :: q in rows ==> Classified(q)
    ensures RowSum(rows, OfHour(h))
         == RowSum(rows, OfHourCategory(h, 0, 1)) + RowSum(rows, OfHourCategory(h, 0, 2))
             + RowSum(rows, OfHourCategory(h, 0, 3))
            + RowSum(rows, OfHourCategory(h, 1, 0)) + RowSum(rows, OfHourCategory(h, 2, 0))
                + RowSum(rows, OfHourCategory(h, 3, 0))
  {
    if rows != [] {
      var front, r := rows[..|rows| - 1], rows[|rows| - 1];
      assert rows == front + [r];
      assert Classified(r) by { assert r in rows; }
      HourPartition(front, h);
      RowSumSnoc(front, r, OfHour(h));
      RowSumSnoc(front, r, OfHourCategory(h, 0, 1));
      RowSumSnoc(front, r, OfHourCategory(h, 0, 2));
      RowSumSnoc(front, r, OfHourCategory(h, 0, 3));
      RowSumSnoc(front, r, OfHourCategory(h, 1, 0));
      RowSumSnoc(front, r, OfHourCategory(h, 2, 0));
      RowSumSnoc(front, r, OfHourCategory(h, 3, 0));
    }
  }

  lemma PointConserves(readings: seq<Reading>, h: int)
    requires forall r :: r in readings ==> ValidReading(r)
    ensures HourConserves(HourPoint(QueryRows(readings), h), readings)
  {
    QueryRowsClassified(readings);
    HourPartition(QueryRows(readings), h);
    QueryConserves(readings, h);
    KindConserves(readings, h, 0, 1);
    KindConserves(readings, h, 0, 2);
    KindConserves(readings, h, 0, 3);
    KindConserves(readings, h, 1, 0);
    KindConserves(readings, h, 2, 0);
    KindConserves(readings, h, 3, 0);
  }

  lemma SummaryConserves(readings: seq<Reading>, s: PathStats)
    requires (forall r :: r in readings ==> ValidReading(r)) && Summarises(s, QueryRows(readings))
    ensures Conserves(s, readings)
  {
    var rows := QueryRows(readings);
    QueryRowsClassified(readings);
    CategoriesPartition(rows);
    QueryConserves(readings, 0);
    var lengths :| TotalsSoFar(rows, s, lengths) && s.pathLengths == Lists(lengths, 64);
    forall e | 0 <= e < |lengths| ensures lengths[e] >= 0 {
      SumsNonnegative(rows, Length(e));
    }
    ListedBins(lengths, 64);
    assert lengths[..64] == lengths;
    forall k | 0 <= k < |s.hourly| ensures HourConserves(s.hourly[k], readings) {
      PointConserves(readings, s.hourly[k].hour);
    }
  }

  /** GetPathStats: on readings a roll can have written it never fails, and conserves every reception. */
  method GetPathStats(readings: seq<Reading>) returns (stats: Option<PathStats>)
    requires forall r :: r in readings ==> ValidReading(r)
    ensures stats.Some? && Conserves(stats.value, readings)
  {
    QueryRowsClassified(readings);
    stats := FoldRows(QueryRows(readings));
    SummaryConserves(readings, stats.value);
  }

  // ---- against everything ever heard ----

  function Counted(filter: set<Iata>): Row -> int {
    (r: Row) => if Selected(r, filter) then 1 else 0
  }

  /** How many observations of an hour the filter selects. */
  ghost function HeardCount(rows: seq<Row>, filter: set<Iata>): int {
    Pass(rows, Counted(filter), Plus, 0)
  }

  ghost function HourCount(ever: seq<Row>, filter: set<Iata>): int -> int {
    (h: int) => HeardCount(RowsIn(ever, h), filter)
  }

  function KeySelected(filter: set<Iata>): PathKey -> bool {
    (k: PathKey) => filter == {} || k.iata in filter
  }

  lemma {:induction false} ReadingsOfSum(paths: seq<(PathKey, int)>, h: int, filter: set<Iata>)
    ensures ReadingSum(ReadingsOf(paths, h, filter), All<Reading>) == Total(paths, KeySelected(filter), Plus, 0)
  {
    if paths != [] {
      var front, readings := paths[..|paths| - 1], ReadingsOf(paths, h, filter);
      ReadingsOfSum(front, h, filter);
      if KeySelected(filter)(paths[|paths| - 1].0) {
        assert readings[..|readings| - 1] == ReadingsOf(front, h, filter);
        assert All(readings[|readings| - 1]) && ReadingShare(All<Reading>)(readings[|readings| - 1])
            == paths[|paths| - 1].1;
      }
    }
  }

  lemma PathPass(rows: seq<Row>, sel: PathKey -> bool)
    ensures Total(GroupBy(Collect(rows, PathItem), Plus), sel, Plus, 0)
            == Pass(rows, ShareOf(PathItem, sel, 0), Plus, 0)
  {
    PlusMonoid();
    TotalOfGroups(Collect(rows, PathItem), sel, Plus, 0);
    TotalIsPass(rows, PathItem, sel, Plus, 0);
  }

  lemma PathTotal(rows: seq<Row>, filter: set<Iata>)
    ensures Total(Roll(Paths, rows, map[]).paths, KeySelected(filter), Plus, 0)
         == Pass(rows, ShareOf(PathItem, KeySelected(filter), 0), Plus, 0)
  {
    PathPass(rows, KeySelected(filter));
  }

  lemma HourReadings(w: World, h: int, filter: set<Iata>)
    requires Inv(w)
    ensures ReadingSum(ReadingsAt(w.tables.content, h, filter), All<Reading>)
         == if IsComplete(w.tables, h) then HourCount(w.ever, filter)(h) else 0
  {
    if IsComplete(w.tables, h) {
      var rows := RowsIn(w.ever, h);
      ExactFamily(w.tables.content[h], rows, Paths);
      ReadingsOfSum(w.tables.content[h][Paths].paths, h, filter);
      PathTotal(rows, filter);
      forall r | r in rows ensures ShareOf(PathItem, KeySelected(filter), 0)(r) == Counted(filter)(r) {
        assert PathItem(r).value.0.iata == r.iata;
      }
      PassAgree(rows, ShareOf(PathItem, KeySelected(filter), 0), Counted(filter), Plus, 0);
    }
  }

  lemma {:induction false} ReadingSumConcat(a: seq<Reading>, b: seq<Reading>, p: Reading -> bool)
    ensures ReadingSum(a + b, p) == ReadingSum(a, p) + ReadingSum(b, p)
  {
    if b == [] {
      assert a + b == a;
    } else {
      assert (a + b)[..|a + b| - 1] == a + b[..|b| - 1];
      ReadingSumConcat(a, b[..|b| - 1], p);
    }
  }

  /** The readings of a window add up to the observations ever heard in its complete hours, at the wanted IATAs. */
  lemma {:induction false} ReadingsCountObservations(w: World, from: int, to: int, filter: set<Iata>)
    requires Inv(w)
    ensures ReadingSum(Readings(w.tables.content, from, to, filter), All<Reading>)
         == OverComplete(w.tables, HourCount(w.ever, filter), from, to, Plus, 0)
    decreases Max(to - from, 0)
  {
    if from < to {
      HourReadings(w, from, filter);
      ReadingsCountObservations(w, from + HOUR, to, filter);
      ReadingSumConcat(ReadingsAt(w.tables.content, from, filter),
                       Readings(w.tables.content, from + HOUR, to, filter), All<Reading>);
    }
  }

  /** End to end, in every reachable state: path statistics succeed and their receptions are the observations ever
      heard. */
  lemma PathStatsOfReachableState(now: int, steps: seq<Step>, since: int, until: int, filter: set<Iata>, s: PathStats)
    requires IsRun(Start(now), steps)
    requires Summarises(s, QueryRows(Readings(After(Start(now), steps).tables.content, CeilHour(since), until, filter)))
    ensures var w := After(Start(now), steps);
            && Conserves(s, Readings(w.tables.content, CeilHour(since), until, filter))
            && s.receptions == OverComplete(w.tables, HourCount(w.ever, filter), CeilHour(since), until, Plus, 0)
            && forall q :: q in QueryRows(Readings(w.tables.content, CeilHour(since), until, filter)) ==> !Invalid(q)
  {
    RunKeepsInv(Start(now), steps);
    var w := After(Start(now), steps);
    var readings := Readings(w.tables.content, CeilHour(since), until, filter);
    RolledReadingsValid(w, CeilHour(since), until, filter);
    QueryRowsClassified(readings);
    SummaryConserves(readings, s);
    ReadingsCountObservations(w, CeilHour(since), until, filter);
  }
}
