/** Path statistics: the grouped query over the hourly path table and the loop that folds its rows. */
module PathStatistics {
  import opened Base
  import opened Grouping
  import opened Sorting
  import opened SetBuckets
  import opened Families
  import opened DistinctCounts
  import opened World
  import opened Protocol
  import opened RunTheorems
  import opened HourFold

  /** A row of analytics_hourly_paths. */
  datatype Reading = Reading(hour: int, iata: Iata, category: int, hashBytes: int, entries: int, receptions: int)

  /** A row of the grouped query. */
  datatype PathRow = PathRow(isHourly: bool, hour: int, category: int, hashBytes: int, entries: int, receptions: int,
                             maxEntries: int)

  datatype PathHour = PathHour(hour: int, receptions: int, maxEntries: int, oneByte: int, twoByte: int, threeByte: int,
                               empty: int, trace: int, unclassified: int)

  datatype PathStats = PathStats(receptions: int, hashed: int, empty: int, trace: int, unclassified: int,
                                 hashWidths: seq<int>, pathLengths: seq<(int, int)>, hourly: seq<PathHour>)

  // ---- sums over query rows ----

  function RowShare(p: PathRow -> bool): PathRow -> int {
    (r: PathRow) => if p(r) then r.receptions else 0
  }

  /** The receptions of the rows p picks. */
  function RowSum(rows: seq<PathRow>, p: PathRow -> bool): int {
    Pass(rows, RowShare(p), Plus, 0)
  }

  predicate IsTotal(r: PathRow) { !r.isHourly }
  predicate IsHourly(r: PathRow) { r.isHourly }
  predicate Hashed(r: PathRow) { !r.isHourly && r.category == 0 }
  predicate Empty(r: PathRow) { !r.isHourly && r.category == 1 }
  predicate Traced(r: PathRow) { !r.isHourly && r.category == 2 }
  predicate Unclassified(r: PathRow) { !r.isHourly && r.category == 3 }

  function Width(b: int): PathRow -> bool {
    (r: PathRow) => Hashed(r) && r.hashBytes == b
  }

  /** Length bin e: routed paths of e entries, and zero-hop paths in bin 0. */
  function Length(e: int): PathRow -> bool {
    (r: PathRow) => (Hashed(r) && r.entries == e) || (Empty(r) && e == 0)
  }

  function OfHour(h: int): PathRow -> bool {
    (r: PathRow) => r.isHourly && r.hour == h
  }

  function OfHourCategory(h: int, category: int, bytes: int): PathRow -> bool {
    (r: PathRow) => r.isHourly && r.hour == h && r.category == category && (category == 0 ==> r.hashBytes == bytes)
  }

  function MaxShare(h: int): PathRow -> int {
    (r: PathRow) => if r.isHourly && r.hour == h then r.maxEntries else 0
  }

  /** What an hour's point should say about the rows. */
  function HourPoint(rows: seq<PathRow>, h: int): PathHour {
    PathHour(h, RowSum(rows, OfHour(h)), Pass(rows, MaxShare(h), Max, 0), RowSum(rows, OfHourCategory(h, 0, 1)),
             RowSum(rows, OfHourCategory(h, 0, 2)), RowSum(rows, OfHourCategory(h, 0, 3)),
                 RowSum(rows, OfHourCategory(h, 1, 0)),
             RowSum(rows, OfHourCategory(h, 2, 0)), RowSum(rows, OfHourCategory(h, 3, 0)))
  }

  /** An hourly row folded into its hour's point. */
  function Folded(p: PathHour, r: PathRow): PathHour {
    var q := p.(receptions := p.receptions + r.receptions, maxEntries := Max(p.maxEntries, r.maxEntries));
    if r.category == 0 && r.hashBytes == 1 then q.(oneByte := p.oneByte + r.receptions)
    else if r.category == 0 && r.hashBytes == 2 then q.(twoByte := p.twoByte + r.receptions)
    else if r.category == 0 && r.hashBytes == 3 then q.(threeByte := p.threeByte + r.receptions)
    else if r.category == 1 then q.(empty := p.empty + r.receptions)
    else if r.category == 2 then q.(trace := p.trace + r.receptions)
    else if r.category == 3 then q.(unclassified := p.unclassified + r.receptions)
    else q
  }

  function NewHour(h: int): PathHour {
    PathHour(h, 0, 0, 0, 0, 0, 0, 0, 0)
  }

  lemma RowSumSnoc(rows: seq<PathRow>, r: PathRow, p: PathRow -> bool)
    ensures RowSum(rows + [r], p) == RowSum(rows, p) + if p(r) then r.receptions else 0
  {
    assert (rows + [r])[..|rows|] == rows;
  }

  lemma HourPointSnoc(rows: seq<PathRow>, r: PathRow, h: int)
    requires r.maxEntries >= 0 && Pass(rows, MaxShare(h), Max, 0) >= 0
    ensures HourPoint(rows + [r], h) == if r.isHourly
            && r.hour == h then Folded(HourPoint(rows, h), r) else HourPoint(rows, h)
  {
    assert (rows + [r])[..|rows|] == rows;
    RowSumSnoc(rows, r, OfHour(h));
    RowSumSnoc(rows, r, OfHourCategory(h, 0, 1));
    RowSumSnoc(rows, r, OfHourCategory(h, 0, 2));
    RowSumSnoc(rows, r, OfHourCategory(h, 0, 3));
    RowSumSnoc(rows, r, OfHourCategory(h, 1, 0));
    RowSumSnoc(rows, r, OfHourCategory(h, 2, 0));
    RowSumSnoc(rows, r, OfHourCategory(h, 3, 0));
  }

  lemma {:induction false} HourPointNew(rows: seq<PathRow>, h: int)
    requires forall r :: r in rows && r.isHourly ==> r.hour != h
    requires forall r :: r in rows ==> r.maxEntries >= 0
    ensures HourPoint(rows, h) == NewHour(h)
  {
    if rows != [] {
      var front, r := rows[..|rows| - 1], rows[|rows| - 1];
      assert rows == front + [r];
      HourPointNew(front, h);
      HourPointSnoc(front, r, h);
    }
  }

  // ---- the loop ----

  predicate Invalid(r: PathRow) {
    r.category == 0 && (r.hashBytes < 1 || r.hashBytes > 3 || r.entries < 0 || r.entries >= 64)
  }

  /** ORDER BY is_hourly, hour: totals first, then the hours ascending. */
  predicate InOrder(a: PathRow, b: PathRow) {
    (!a.isHourly && b.isHourly) || (a.isHourly == b.isHourly && a.hour <= b.hour)
  }

  ghost predicate Ascending(hourly: seq<PathHour>) {
    forall i, j :: 0 <= i < j < |hourly| ==> hourly[i].hour < hourly[j].hour
  }

  ghost predicate PointsOf(hourly: seq<PathHour>, rows: seq<PathRow>) {
    forall k :: 0 <= k < |hourly| ==> hourly[k] == HourPoint(rows, hourly[k].hour) && hourly[k].maxEntries >= 0
  }

  ghost predicate HasHour(hourly: seq<PathHour>, h: int) {
    exists k :: 0 <= k < |hourly| && hourly[k].hour == h
  }

  ghost predicate ListsHour(rows: seq<PathRow>, h: int) {
    exists r :: r in rows && r.isHourly && r.hour == h
  }

  ghost predicate SameHours(hourly: seq<PathHour>, rows: seq<PathRow>) {
    forall h :: HasHour(hourly, h) <==> ListsHour(rows, h)
  }

  lemma ListsHourSnoc(rows: seq<PathRow>, r: PathRow, h: int)
    ensures ListsHour(rows + [r], h) <==> ListsHour(rows, h) || (r.isHourly && r.hour == h)
  {
    if q :| q in rows && q.isHourly && q.hour == h { assert q in rows + [r]; }
    if r.isHourly && r.hour == h { assert r in rows + [r]; }
  }

  ghost function SumHours(hourly: seq<PathHour>): int {
    if hourly == [] then 0 else SumHours(hourly[..|hourly| - 1]) + hourly[|hourly| - 1].receptions
  }

  ghost function Sum(s: seq<int>): int {
    if s == [] then 0 else Sum(s[..|s| - 1]) + s[|s| - 1]
  }

  lemma {:induction false} SumUpdate(s: seq<int>, i: nat, n: int)
    requires i < |s|
    ensures Sum(s[i := s[i] + n]) == Sum(s) + n
  {
    var t := s[i := s[i] + n];
    if i == |s| - 1 {
      assert t[..|s| - 1] == s[..|s| - 1];
    } else {
      assert t[..|s| - 1] == s[..|s| - 1][i := s[..|s| - 1][i] + n];
      SumUpdate(s[..|s| - 1], i, n);
    }
  }

  lemma {:induction false} SumZeros(s: seq<int>)
    requires forall i :: 0 <= i < |s| ==> s[i] == 0
    ensures Sum(s) == 0
  {
    if s != [] {
      SumZeros(s[..|s| - 1]);
    }
  }

  function LastHour(hourly: seq<PathHour>): Option<int> {
    if hourly == [] then None else Some(hourly[|hourly| - 1].hour)
  }

  /** The hourly branch of the loop: the row's hour is the last point, or a new one. */
  function WithRow(hourly: seq<PathHour>, r: PathRow): seq<PathHour> {
    if LastHour(hourly) != Some(r.hour) then hourly + [Folded(NewHour(r.hour), r)]
    else hourly[..|hourly| - 1] + [Folded(hourly[|hourly| - 1], r)]
  }

  lemma WithRowPoints(hourly: seq<PathHour>, rows: seq<PathRow>, r: PathRow)
    requires Ascending(hourly) && PointsOf(hourly, rows) && SameHours(hourly, rows)
    requires r.isHourly && r.maxEntries >= 0 && forall q :: q in rows ==> q.maxEntries >= 0 && InOrder(q, r)
    ensures Ascending(WithRow(hourly, r)) && PointsOf(WithRow(hourly, r), rows + [r])
  {
    var after := WithRow(hourly, r);
    var last := |after| - 1;
    forall k | 0 <= k < |hourly| ensures hourly[k].hour <= r.hour {
      assert HasHour(hourly, hourly[k].hour) && ListsHour(rows, hourly[k].hour);
    }
    forall k | 0 <= k < last ensures after[k] == hourly[k] && after[k].hour < r.hour {}
    forall k | 0 <= k < last ensures after[k] == HourPoint(rows + [r], after[k].hour) {
      HourPointSnoc(rows, r, after[k].hour);
    }
    if LastHour(hourly) != Some(r.hour) {
      forall q | q in rows && q.isHourly ensures q.hour != r.hour {
        assert ListsHour(rows, q.hour) && HasHour(hourly, q.hour);
      }
      HourPointNew(rows, r.hour);
    }
    HourPointSnoc(rows, r, r.hour);
    assert after[last] == HourPoint(rows + [r], r.hour);
  }

  lemma WithRowHours(hourly: seq<PathHour>, rows: seq<PathRow>, r: PathRow)
    requires SameHours(hourly, rows) && r.isHourly
    ensures SameHours(WithRow(hourly, r), rows + [r])
  {
    var after := WithRow(hourly, r);
    forall h ensures HasHour(after, h) <==> HasHour(hourly, h) || h == r.hour {
      if HasHour(hourly, h) {
        var k :| 0 <= k < |hourly| && hourly[k].hour == h;
        assert after[k].hour == h;
      }
      if HasHour(after, h) && h != r.hour {
        var k :| 0 <= k < |after| && after[k].hour == h;
        assert hourly[k].hour == h;
      }
      if h == r.hour { assert after[|after| - 1].hour == h; }
    }
    forall h ensures ListsHour(rows + [r], h) <==> ListsHour(rows, h) || h == r.hour {
      ListsHourSnoc(rows, r, h);
    }
  }

  lemma WithRowSum(hourly: seq<PathHour>, r: PathRow)
    ensures SumHours(WithRow(hourly, r)) == SumHours(hourly) + r.receptions
  {
    var after := WithRow(hourly, r);
    assert after[..|after| - 1] == if LastHour(hourly) != Some(r.hour) then hourly else hourly[..|hourly| - 1];
  }

  /** Totals of the non-hourly rows seen so far. */
  ghost predicate TotalsOf(rows: seq<PathRow>, receptions: int, hashed: int, empty: int, trace: int,
                           unclassified: int) {
    && receptions == RowSum(rows, IsTotal) && hashed == RowSum(rows, Hashed) && empty == RowSum(rows, Empty)
    && trace == RowSum(rows, Traced) && unclassified == RowSum(rows, Unclassified)
  }

  ghost predicate WidthsOf(rows: seq<PathRow>, widths: seq<int>) {
    widths == [RowSum(rows, Width(1)), RowSum(rows, Width(2)), RowSum(rows, Width(3))]
  }

  ghost predicate LengthsOf(rows: seq<PathRow>, lengths: seq<int>) {
    |lengths| == 64 && forall e :: 0 <= e < 64 ==> lengths[e] == RowSum(rows, Length(e))
  }

  lemma TotalsSnoc(rows: seq<PathRow>, r: PathRow)
    ensures RowSum(rows + [r], IsTotal) == RowSum(rows, IsTotal) + if IsTotal(r) then r.receptions else 0
    ensures RowSum(rows + [r], IsHourly) == RowSum(rows, IsHourly) + if IsHourly(r) then r.receptions else 0
    ensures RowSum(rows + [r], Hashed) == RowSum(rows, Hashed) + if Hashed(r) then r.receptions else 0
    ensures RowSum(rows + [r], Empty) == RowSum(rows, Empty) + if Empty(r) then r.receptions else 0
    ensures RowSum(rows + [r], Traced) == RowSum(rows, Traced) + if Traced(r) then r.receptions else 0
    ensures RowSum(rows + [r], Unclassified) == RowSum(rows, Unclassified) + if Unclassified(r) then r.receptions else 0
  {
    RowSumSnoc(rows, r, IsTotal);
    RowSumSnoc(rows, r, IsHourly);
    RowSumSnoc(rows, r, Hashed);
    RowSumSnoc(rows, r, Empty);
    RowSumSnoc(rows, r, Traced);
    RowSumSnoc(rows, r, Unclassified);
  }

  lemma WidthsSnoc(rows: seq<PathRow>, r: PathRow, widths: seq<int>)
    requires WidthsOf(rows, widths) && (Hashed(r) ==> 1 <= r.hashBytes <= 3)
    ensures WidthsOf(rows + [r], if Hashed(r) then widths[r.hashBytes - 1 := widths[r.hashBytes - 1] + r.receptions]
            else widths)
  {
    RowSumSnoc(rows, r, Width(1));
    RowSumSnoc(rows, r, Width(2));
    RowSumSnoc(rows, r, Width(3));
  }

  /** Where a total row's receptions go among the length bins. */
  function Bin(r: PathRow): Option<int> {
    if Hashed(r) then Some(r.entries) else if Empty(r) then Some(0) else None
  }

  lemma LengthsSnoc(rows: seq<PathRow>, r: PathRow, lengths: seq<int>)
    requires LengthsOf(rows, lengths) && (Bin(r).Some? ==> 0 <= Bin(r).value < 64)
    ensures LengthsOf(rows + [r], if Bin(r).Some? then lengths[Bin(r).value := lengths[Bin(r).value] + r.receptions]
            else lengths)
  {
    forall e | 0 <= e < 64 ensures RowSum(rows + [r], Length(e)) == RowSum(rows, Length(e)) + if Bin(r)
        == Some(e) then r.receptions else 0 {
      RowSumSnoc(rows, r, Length(e));
    }
  }

  function Lists(lengths: seq<int>, upTo: nat): seq<(int, int)>
    requires upTo <= |lengths|
  {
    if upTo == 0 then []
    else Lists(lengths, upTo - 1) + if lengths[upTo - 1] > 0 then [(upTo - 1, lengths[upTo - 1])] else []
  }

  /** The response while the loop runs, with lengths standing for its length bins. */
  ghost predicate TotalsSoFar(rows: seq<PathRow>, s: PathStats, lengths: seq<int>) {
    && TotalsOf(rows, s.receptions, s.hashed, s.empty, s.trace, s.unclassified)
    && WidthsOf(rows, s.hashWidths) && Sum(s.hashWidths) == s.hashed
    && LengthsOf(rows, lengths) && Sum(lengths) == s.hashed + s.empty
  }

  ghost predicate HoursSoFar(rows: seq<PathRow>, hourly: seq<PathHour>) {
    Ascending(hourly) && PointsOf(hourly, rows) && SameHours(hourly, rows) && SumHours(hourly) == RowSum(rows, IsHourly)
  }

  /** What the response says about the query rows. */
  ghost predicate Summarises(s: PathStats, rows: seq<PathRow>) {
    && (exists lengths :: TotalsSoFar(rows, s, lengths) && s.pathLengths == Lists(lengths, 64))
    && HoursSoFar(rows, s.hourly)
  }

  function WidthsWith(widths: seq<int>, r: PathRow): seq<int>
    requires |widths| == 3 && !Invalid(r)
  {
    if Hashed(r) then widths[r.hashBytes - 1 := widths[r.hashBytes - 1] + r.receptions] else widths
  }

  function BinsWith(lengths: seq<int>, r: PathRow): seq<int>
    requires |lengths| == 64 && !Invalid(r)
  {
    if Bin(r).Some? then lengths[Bin(r).value := lengths[Bin(r).value] + r.receptions] else lengths
  }

  function TotalWith(s: PathStats, r: PathRow): PathStats
    requires |s.hashWidths| == 3 && !Invalid(r)
  {
    s.(receptions := s.receptions + r.receptions, hashed := s.hashed + (if Hashed(r) then r.receptions else 0),
       empty := s.empty + (if Empty(r) then r.receptions else 0), trace :=
           s.trace + (if Traced(r) then r.receptions else 0),
       unclassified := s.unclassified + (if Unclassified(r) then r.receptions else 0), hashWidths :=
           WidthsWith(s.hashWidths, r))
  }

  lemma WidthsKept(rows: seq<PathRow>, widths: seq<int>, r: PathRow)
    requires WidthsOf(rows, widths) && !Invalid(r)
    ensures WidthsOf(rows + [r], WidthsWith(widths, r))
            && Sum(WidthsWith(widths, r)) == Sum(widths) + if Hashed(r) then r.receptions else 0
  {
    WidthsSnoc(rows, r, widths);
    if Hashed(r) { SumUpdate(widths, r.hashBytes - 1, r.receptions); }
  }

  lemma BinsKept(rows: seq<PathRow>, lengths: seq<int>, r: PathRow)
    requires LengthsOf(rows, lengths) && !Invalid(r)
    ensures LengthsOf(rows + [r], BinsWith(lengths, r))
    ensures Sum(BinsWith(lengths, r)) == Sum(lengths) + if Hashed(r) || Empty(r) then r.receptions else 0
  {
    LengthsSnoc(rows, r, lengths);
    if Bin(r).Some? { SumUpdate(lengths, Bin(r).value, r.receptions); }
  }

  lemma TotalKept(rows: seq<PathRow>, s: PathStats, lengths: seq<int>, r: PathRow)
    requires TotalsSoFar(rows, s, lengths) && !r.isHourly && !Invalid(r)
    ensures TotalsSoFar(rows + [r], TotalWith(s, r), BinsWith(lengths, r))
  {
    TotalsSnoc(rows, r);
    WidthsKept(rows, s.hashWidths, r);
    BinsKept(rows, lengths, r);
  }

  /** A total row: into the totals, its width and its length bin. */
  method FoldTotal(s: PathStats, lengths: array<int>, r: PathRow, ghost rows: seq<PathRow>) returns (after: PathStats)
    requires lengths.Length == 64 && !r.isHourly && !Invalid(r) && TotalsSoFar(rows, s, lengths[..])
    modifies lengths
    ensures TotalsSoFar(rows + [r], after, lengths[..]) && after.hourly == s.hourly
  {
    after := s.(receptions := s.receptions + r.receptions);
    if r.category == 0 {
      after := after.(hashed := s.hashed + r.receptions,
                      hashWidths := s.hashWidths[r.hashBytes - 1 := s.hashWidths[r.hashBytes - 1] + r.receptions]);
    } else if r.category == 1 {
      after := after.(empty := s.empty + r.receptions);
    } else if r.category == 2 {
      after := after.(trace := s.trace + r.receptions);
    } else if r.category == 3 {
      after := after.(unclassified := s.unclassified + r.receptions);
    }
    assert after == TotalWith(s, r);
    ghost var bins := lengths[..];
    AddToBin(lengths, r);
    TotalKept(rows, s, bins, r);
  }

  method AddToBin(lengths: array<int>, r: PathRow)
    requires lengths.Length == 64 && !r.isHourly && !Invalid(r)
    modifies lengths
    ensures lengths[..] == BinsWith(old(lengths[..]), r)
  {
    if r.category == 0 {
      lengths[r.entries] := lengths[r.entries] + r.receptions;
    } else if r.category == 1 {
      lengths[0] := lengths[0] + r.receptions;
    }
  }

  /** An hourly row: into the last point, or a new one. */
  method FoldHour(hourly: seq<PathHour>, r: PathRow, ghost rows: seq<PathRow>) returns (after: seq<PathHour>)
    requires HoursSoFar(rows, hourly) && r.isHourly && r.maxEntries >= 0
    requires forall q :: q in rows ==> q.maxEntries >= 0 && InOrder(q, r)
    ensures HoursSoFar(rows + [r], after)
  {
    WithRowPoints(hourly, rows, r);
    WithRowHours(hourly, rows, r);
    WithRowSum(hourly, r);
    RowSumSnoc(rows, r, IsHourly);
    after := IntoHour(hourly, r);
  }

  method IntoHour(hourly: seq<PathHour>, r: PathRow) returns (after: seq<PathHour>)
    ensures after == WithRow(hourly, r)
  {
    if |hourly| == 0 || hourly[|hourly| - 1].hour != r.hour {
      after := hourly + [Folded(NewHour(r.hour), r)];
    } else {
      after := hourly[..|hourly| - 1] + [Folded(hourly[|hourly| - 1], r)];
    }
  }

  lemma HourlyRowKeepsTotals(rows: seq<PathRow>, r: PathRow, s: PathStats, lengths: seq<int>)
    requires r.isHourly && TotalsSoFar(rows, s, lengths)
    ensures TotalsSoFar(rows + [r], s, lengths)
  {
    TotalsSnoc(rows, r);
    WidthsSnoc(rows, r, s.hashWidths);
    LengthsSnoc(rows, r, lengths);
  }

  lemma TotalRowKeepsHours(rows: seq<PathRow>, r: PathRow, hourly: seq<PathHour>)
    requires HoursSoFar(rows, hourly) && !r.isHourly && r.maxEntries >= 0
    ensures HoursSoFar(rows + [r], hourly)
  {
    RowSumSnoc(rows, r, IsHourly);
    forall k | 0 <= k < |hourly| ensures hourly[k] == HourPoint(rows + [r], hourly[k].hour) {
      HourPointSnoc(rows, r, hourly[k].hour);
    }
    forall h ensures ListsHour(rows + [r], h) <==> ListsHour(rows, h) {
      ListsHourSnoc(rows, r, h);
    }
  }

  lemma RowsBefore(rows: seq<PathRow>, i: nat)
    requires i < |rows| && Ordered(rows, InOrder) && forall r :: r in rows ==> r.maxEntries >= 0
    ensures forall q :: q in rows[..i] ==> q.maxEntries >= 0 && InOrder(q, rows[i])
  {
    forall q | q in rows[..i] ensures q.maxEntries >= 0 && InOrder(q, rows[i]) {
      var j :| 0 <= j < i && rows[j] == q;
    }
  }

  method FoldRow(s: PathStats, lengths: array<int>, r: PathRow, ghost rows: seq<PathRow>) returns (after: PathStats)
    requires lengths.Length == 64 && !Invalid(r) && r.maxEntries >= 0
    requires TotalsSoFar(rows, s, lengths[..]) && HoursSoFar(rows, s.hourly)
    requires forall q :: q in rows ==> q.maxEntries >= 0 && InOrder(q, r)
    modifies lengths
    ensures TotalsSoFar(rows + [r], after, lengths[..]) && HoursSoFar(rows + [r], after.hourly)
  {
    if r.isHourly {
      HourlyRowKeepsTotals(rows, r, s, lengths[..]);
      var hourly := FoldHour(s.hourly, r, rows);
      after := s.(hourly := hourly);
    } else {
      TotalRowKeepsHours(rows, r, s.hourly);
      after := FoldTotal(s, lengths, r, rows);
    }
  }

  method ListBins(lengths: array<int>) returns (listed: seq<(int, int)>)
    requires lengths.Length == 64
    ensures listed == Lists(lengths[..], 64)
  {
    listed := [];
    for entries := 0 to 64
      invariant listed == Lists(lengths[..], entries)
    {
      if lengths[entries] > 0 {
        listed := listed + [(entries, lengths[entries])];
      }
    }
  }

  /** GetPathStats over the rows of its query: an error exactly when a routed row is out of range. */
  method FoldRows(rows: seq<PathRow>) returns (stats: Option<PathStats>)
    requires Ordered(rows, InOrder) && forall r :: r in rows ==> r.maxEntries >= 0
    ensures stats.None? <==> exists r :: r in rows && Invalid(r)
    ensures stats.Some? ==> Summarises(stats.value, rows)
  {
    var start := PathStats(0, 0, 0, 0, 0, [0, 0, 0], [], []);
    var lengths := new int[64](_ => 0);
    SumZeros(lengths[..]);
    SumZeros(start.hashWidths);
    stats := FoldEach(rows, start, lengths);
    if stats.Some? {
      var pathLengths := ListBins(lengths);
      stats := Some(stats.value.(pathLengths := pathLengths));
      assert TotalsSoFar(rows, stats.value, lengths[..]);
    }
  }

  /** The loop: lengths and the response grow with every row, until one is out of range. */
  method FoldEach(rows: seq<PathRow>, start: PathStats, lengths: array<int>) returns (stats: Option<PathStats>)
    requires Ordered(rows, InOrder) && forall r :: r in rows ==> r.maxEntries >= 0
    requires lengths.Length == 64 && TotalsSoFar([], start, lengths[..]) && HoursSoFar([], start.hourly)
    modifies lengths
    ensures stats.None? <==> exists r :: r in rows && Invalid(r)
    ensures stats.Some? ==> TotalsSoFar(rows, stats.value, lengths[..]) && HoursSoFar(rows, stats.value.hourly)
  {
    var s := start;
    ghost var seen: seq<PathRow> := [];
    for i := 0 to |rows|
      invariant seen == rows[..i]
      invariant forall r :: r in seen ==> !Invalid(r)
      invariant TotalsSoFar(seen, s, lengths[..]) && HoursSoFar(seen, s.hourly)
    {
      var r := rows[i];
      assert r in rows;
      if Invalid(r) {
        return None;
      }
      RowsBefore(rows, i);
      s := FoldRow(s, lengths, r, seen);
      seen := seen + [r];
    }
    assert seen == rows;
    stats := Some(s);
  }
}
