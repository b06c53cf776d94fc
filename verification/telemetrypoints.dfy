/** What the bucketed telemetry says of the raw rows: every point, total, average and maximum. */
module TelemetryPoints {
  import opened Base
  import opened Grouping
  import opened Runs
  import C = CounterFilter
  import opened TelemetryBuckets

  // ---- the rows that count ----

  /** The uptime fell, but the device cannot have been up that long since the row before. */
  ghost predicate IsReplay(before: Point, p: Point) {
    && p.uptime.Some? && before.uptime.Some? && p.uptime.value < before.uptime.value
    && 1000 * p.uptime.value > 2 * (p.t - before.t)
  }

  /** The rows that are no replay of the last one before them that is none. */
  ghost function Kept(points: seq<Point>): seq<Point> {
    if points == [] then []
    else
      var front, p := Kept(points[..|points| - 1]), points[|points| - 1];
      if front != [] && IsReplay(front[|front| - 1], p) then front else front + [p]
  }

  /** The bucket with this start: a stretch of one size from a multiple of it, counted from Go's zero time. */
  ghost predicate InBin(size: int, start: int, t: int) {
    if size <= 0 then t == start else start <= t < start + size && (start + ZERO_MILLIS) % size == 0
  }

  /** The kept rows of one bucket; those before since are baselines only. */
  ghost function Landed(kept: seq<Point>, size: int, since: int, start: int): seq<Point> {
    if kept == [] then []
    else
      var front, p := Landed(kept[..|kept| - 1], size, since, start), kept[|kept| - 1];
      if p.t >= since && InBin(size, start, p.t) then front + [p] else front
  }

  ghost function TxOf(): Point -> Option<real> { (p: Point) => p.tx }
  ghost function RxOf(): Point -> Option<real> { (p: Point) => p.rx }
  ghost function ErrsOf(): Point -> Option<real> {
    (p: Point) => if p.errs.Some? then Some(p.errs.value as real) else None
  }

  ghost function NoiseOf(): Point -> Option<real> { (p: Point) => p.noise }

  ghost function BatteryOf(): Point -> Option<real> {
    (p: Point) => if p.battery.Some? then Some(p.battery.value as real) else None
  }

  ghost function QueueOf(): Point -> Option<real> {
    (p: Point) => if p.queue.Some? then Some(p.queue.value as real) else None
  }

  // ---- what the counters are given ----

  ghost function ReadingAt(kept: seq<Point>, i: nat, column: Point -> Option<real>): C.Reading
    requires i < |kept|
  {
    C.Reading(column(kept[i]), kept[i].t,
              i > 0 && kept[i].uptime.Some? && kept[i - 1].uptime.Some?
              && kept[i].uptime.value < kept[i - 1].uptime.value)
  }

  /** A counter is read at every kept row, as rebooted where the uptime fell. */
  ghost function Readings(kept: seq<Point>, column: Point -> Option<real>): seq<C.Reading> {
    seq(|kept|, i requires 0 <= i < |kept| => ReadingAt(kept, i, column))
  }

  /** The increments of a counter at the rows of one bucket. */
  ghost function Grown(kept: seq<Point>, column: Point -> Option<real>, c: C.Config, since: int, start: int): real {
    if kept == [] then 0.0
    else
      var front, last := kept[..|kept| - 1], kept[|kept| - 1];
      Grown(front, column, c, since, start)
      + if last.t >= since && InBin(c.maxGap, start, last.t)
        then C.Increment(c, C.After(c, C.UNSEEDED, Readings(front, column)), ReadingAt(kept, |front|, column)) else 0.0
  }

  // ---- what a point says ----

  ghost predicate Reported(rows: seq<Point>, column: Point -> Option<real>) {
    exists p :: p in rows && column(p).Some?
  }

  ghost function SumOf(rows: seq<Point>, column: Point -> Option<real>): real {
    if rows == [] then 0.0
    else
      var v := column(rows[|rows| - 1]);
      SumOf(rows[..|rows| - 1], column) + if v.Some? then v.value else 0.0
  }

  ghost function CountOf(rows: seq<Point>, column: Point -> Option<real>): nat {
    if rows == [] then 0
    else CountOf(rows[..|rows| - 1], column) + if column(rows[|rows| - 1]).Some? then 1 else 0
  }

  /** The average of the reported values: times their number it is their sum. */
  ghost predicate IsAverage(average: real, rows: seq<Point>, column: Point -> Option<real>) {
    average * (CountOf(rows, column) as real) == SumOf(rows, column)
  }

  /** The nearest integer, and of two the one further from zero. */
  ghost predicate IsNearest(n: int, x: real) {
    && x - 0.5 <= n as real <= x + 0.5
    && (x >= 0.0 ==> n as real > x - 0.5) && (x < 0.0 ==> n as real < x + 0.5)
  }

  ghost predicate IsRounded(n: int, rows: seq<Point>, column: Point -> Option<real>) {
    exists average: real :: IsAverage(average, rows, column) && IsNearest(n, average)
  }

  ghost predicate IsLongest(uptime: Option<int>, rows: seq<Point>) {
    && (forall p :: p in rows && p.uptime.Some? ==> uptime.Some? && p.uptime.value <= uptime.value)
    && (uptime.Some? ==> exists p :: p in rows && p.uptime == uptime)
  }

  /** A point, by the kept rows: counters grow by the believed increments of their own column, at one second of airtime
      and ten errors a second; a receive count is whole. */
  ghost predicate PointSays(out: Point, kept: seq<Point>, size: int, since: int) {
    var rows := Landed(kept, size, since, out.t);
    && rows != []
    && (out.tx.Some? <==> Reported(rows, TxOf()))
    && (out.tx.Some? ==> out.tx.value == Grown(kept, TxOf(), C.Config(1.0, size), since, out.t))
    && (out.rx.Some? <==> Reported(rows, RxOf()))
    && (out.rx.Some? ==> out.rx.value == Grown(kept, RxOf(), C.Config(1.0, size), since, out.t))
    && (out.errs.Some? <==> Reported(rows, ErrsOf()))
    && (out.errs.Some? ==>
          var grown := Grown(kept, ErrsOf(), C.Config(10.0, size), since, out.t);
          out.errs.value as real <= grown < out.errs.value as real + 1.0)
    && (out.noise.Some? <==> Reported(rows, NoiseOf()))
    && (out.noise.Some? ==> IsAverage(out.noise.value, rows, NoiseOf()))
    && (out.battery.Some? <==> Reported(rows, BatteryOf()))
    && (out.battery.Some? ==> IsRounded(out.battery.value, rows, BatteryOf()))
    && (out.queue.Some? <==> Reported(rows, QueueOf()))
    && (out.queue.Some? ==> IsRounded(out.queue.value, rows, QueueOf()))
    && IsLongest(out.uptime, rows)
  }

  /** The answer: one point for every bucket that some kept row from since on lands in, oldest first. */
  ghost predicate AnswerSays(out: seq<Point>, points: seq<Point>, size: int, since: int) {
    && (forall k :: 0 <= k < |out| ==> PointSays(out[k], Kept(points), size, since))
    && (forall i, j :: 0 <= i < j < |out| ==> out[i].t < out[j].t)
    && (forall p :: p in Kept(points) && p.t >= since ==>
          exists k :: 0 <= k < |out| && InBin(size, out[k].t, p.t))
  }

  // ---- the trace is the kept rows ----

  lemma QuotAbove(up: int, gap: int)
    requires gap >= 0
    ensures up > Quot(2 * gap, 1000) <==> 1000 * up > 2 * gap
  {
  }

  lemma {:induction false} KeptRises(points: seq<Point>)
    requires Ascending(points)
    ensures Ascending(Kept(points))
    ensures points != [] ==> Kept(points) != [] && Kept(points)[|Kept(points)| - 1].t <= points[|points| - 1].t
  {
    if points != [] {
      var front, p := points[..|points| - 1], points[|points| - 1];
      KeptRises(front);
      if front != [] { assert front[|front| - 1].t <= p.t; }
    }
  }

  ghost predicate Follows(tr: Trace, kept: seq<Point>, size: int) {
    && tr.last == (if kept == [] then None else Some(kept[|kept| - 1]))
    && tr.tx == C.After(C.Config(1.0, size), C.UNSEEDED, Readings(kept, TxOf()))
    && tr.rx == C.After(C.Config(1.0, size), C.UNSEEDED, Readings(kept, RxOf()))
    && tr.errs == C.After(C.Config(10.0, size), C.UNSEEDED, Readings(kept, ErrsOf()))
  }

  lemma ReadingsSnoc(front: seq<Point>, p: Point, column: Point -> Option<real>, c: C.Config)
    ensures Readings(front + [p], column)[..|front|] == Readings(front, column)
    ensures C.After(c, C.UNSEEDED, Readings(front + [p], column))
         == C.Next(c, C.After(c, C.UNSEEDED, Readings(front, column)), ReadingAt(front + [p], |front|, column))
  {
    var before, after := Readings(front, column), Readings(front + [p], column);
    assert after[..|front|] == before;
  }

  lemma SameReplay(tr: Trace, kept: seq<Point>, size: int, p: Point)
    requires Follows(tr, kept, size) && (kept != [] ==> kept[|kept| - 1].t <= p.t)
    ensures Replayed(tr.last, p) <==> kept != [] && IsReplay(kept[|kept| - 1], p)
  {
    if kept != [] && p.uptime.Some? { QuotAbove(p.uptime.value, p.t - kept[|kept| - 1].t); }
  }

  lemma FollowsStep(tr: Trace, kept: seq<Point>, size: int, p: Point)
    requires Follows(tr, kept, size) && !Replayed(tr.last, p)
    ensures Follows(Advance(size, tr, p), kept + [p], size)
  {
    ReadingsSnoc(kept, p, TxOf(), C.Config(1.0, size));
    ReadingsSnoc(kept, p, RxOf(), C.Config(1.0, size));
    ReadingsSnoc(kept, p, ErrsOf(), C.Config(10.0, size));
  }

  lemma {:induction false} TraceFollows(size: int, points: seq<Point>)
    requires Ascending(points)
    ensures Follows(TraceAfter(size, points), Kept(points), size)
  {
    if points != [] {
      var front, p := points[..|points| - 1], points[|points| - 1];
      TraceFollows(size, front);
      KeptRises(front);
      var tr := TraceAfter(size, front);
      SameReplay(tr, Kept(front), size, p);
      if !Replayed(tr.last, p) { FollowsStep(tr, Kept(front), size, p); }
    }
  }

  // ---- a bucket is its rows ----

  ghost predicate MeanIs(m: Mean, rows: seq<Point>, column: Point -> Option<real>) {
    m.n == CountOf(rows, column) && m.sum == SumOf(rows, column)
  }

  ghost predicate CountersAre(b: Bucket, kept: seq<Point>, size: int, since: int, start: int) {
    && b.tx == Grown(kept, TxOf(), C.Config(1.0, size), since, start)
    && b.rx == Grown(kept, RxOf(), C.Config(1.0, size), since, start)
    && b.errs == Grown(kept, ErrsOf(), C.Config(10.0, size), since, start)
  }

  ghost predicate RowsAre(b: Bucket, rows: seq<Point>) {
    && (b.hasTx <==> Reported(rows, TxOf())) && (b.hasRx <==> Reported(rows, RxOf()))
    && (b.hasErr <==> Reported(rows, ErrsOf()))
    && MeanIs(b.noise, rows, NoiseOf()) && MeanIs(b.battery, rows, BatteryOf()) && MeanIs(b.queue, rows, QueueOf())
    && IsLongest(b.uptime, rows)
  }

  lemma BinIsTruncate(size: int, start: int, t: int)
    ensures InBin(size, start, t) <==> Truncate(t, size) == start
  {
    if size > 0 {
      TruncateGrows(t, t, size);
      if InBin(size, start, t) {
        var x := t + ZERO_MILLIS;
        var q := (start + ZERO_MILLIS) / size;
        assert x == q * size + (t - start);
        DivUnique(x, size, q, t - start);
      }
    }
  }

  lemma ReportedSnoc(rows: seq<Point>, p: Point, column: Point -> Option<real>)
    ensures Reported(rows + [p], column) <==> Reported(rows, column) || column(p).Some?
  {
    if Reported(rows, column) {
      var q :| q in rows && column(q).Some?;
      assert q in rows + [p];
    }
    assert p in rows + [p];
  }

  lemma MeanSnoc(m: Mean, rows: seq<Point>, p: Point, column: Point -> Option<real>)
    requires MeanIs(m, rows, column)
    ensures MeanIs(PlusMean(m, MeanOf(column(p))), rows + [p], column)
  {
    assert (rows + [p])[..|rows|] == rows;
  }

  lemma LongestSnoc(up: Option<int>, rows: seq<Point>, p: Point)
    requires IsLongest(up, rows)
    ensures IsLongest(Later(up, p.uptime), rows + [p])
  {
    var later := Later(up, p.uptime);
    if later.Some? {
      if later == p.uptime {
        assert p in rows + [p];
      } else {
        var q :| q in rows && q.uptime == up;
        assert q in rows + [p];
      }
    }
  }

  lemma RowsSnoc(b: Bucket, rows: seq<Point>, p: Point, dTx: real, dRx: real, dErr: real)
    requires RowsAre(b, rows)
    ensures RowsAre(PlusBucket(b, Sample(p, dTx, dRx, dErr)), rows + [p])
  {
    ReportedSnoc(rows, p, TxOf());
    ReportedSnoc(rows, p, RxOf());
    ReportedSnoc(rows, p, ErrsOf());
    MeanSnoc(b.noise, rows, p, NoiseOf());
    MeanSnoc(b.battery, rows, p, BatteryOf());
    MeanSnoc(b.queue, rows, p, QueueOf());
    LongestSnoc(b.uptime, rows, p);
  }

  lemma GrownSnoc(front: seq<Point>, p: Point, column: Point -> Option<real>, c: C.Config, since: int, start: int)
    ensures Grown(front + [p], column, c, since, start) == Grown(front, column, c, since, start)
              + if p.t >= since && InBin(c.maxGap, start, p.t)
                then C.Increment(c, C.After(c, C.UNSEEDED, Readings(front, column)),
                                 ReadingAt(front + [p], |front|, column)) else 0.0
  {
    assert (front + [p])[..|front|] == front;
  }

  ghost function BucketAt(size: int, since: int, points: seq<Point>, start: int): Bucket {
    Total(Items(size, since, points), Equals(start), PlusBucket, EMPTY)
  }

  lemma BucketAtSnoc(size: int, since: int, front: seq<Point>, p: Point, start: int)
    ensures var item := Item(size, since, TraceAfter(size, front), p);
            BucketAt(size, since, front + [p], start)
            == if item.Some? && item.value.0 == start then PlusBucket(BucketAt(size, since, front, start), item.value.1)
               else BucketAt(size, since, front, start)
  {
    assert (front + [p])[..|front|] == front;
    var items := Items(size, since, front + [p]);
    if Item(size, since, TraceAfter(size, front), p).Some? {
      assert items[..|items| - 1] == Items(size, since, front);
    }
  }

  lemma CountersStep(b: Bucket, tr: Trace, kept: seq<Point>, size: int, since: int, start: int, p: Point)
    requires Follows(tr, kept, size) && CountersAre(b, kept, size, since, start) && !Replayed(tr.last, p)
    ensures var item := Item(size, since, tr, p);
            CountersAre(if item.Some? && item.value.0 == start then PlusBucket(b, item.value.1) else b,
                        kept + [p], size, since, start)
  {
    BinIsTruncate(size, start, p.t);
    GrownSnoc(kept, p, TxOf(), C.Config(1.0, size), since, start);
    GrownSnoc(kept, p, RxOf(), C.Config(1.0, size), since, start);
    GrownSnoc(kept, p, ErrsOf(), C.Config(10.0, size), since, start);
  }

  lemma LandedSnoc(kept: seq<Point>, size: int, since: int, start: int, p: Point)
    ensures Landed(kept + [p], size, since, start) == Landed(kept, size, since, start)
              + if p.t >= since && Truncate(p.t, size) == start then [p] else []
  {
    assert (kept + [p])[..|kept|] == kept;
    BinIsTruncate(size, start, p.t);
  }

  lemma RowsStep(b: Bucket, rows: seq<Point>, tr: Trace, size: int, since: int, start: int, p: Point)
    requires RowsAre(b, rows) && !Replayed(tr.last, p)
    ensures var item := Item(size, since, tr, p);
            RowsAre(if item.Some? && item.value.0 == start then PlusBucket(b, item.value.1) else b,
                    rows + if p.t >= since && Truncate(p.t, size) == start then [p] else [])
  {
    var item := Item(size, since, tr, p);
    if item.Some? && item.value.0 == start {
      var s := item.value.1;
      RowsSnoc(b, rows, p, s.tx, s.rx, s.errs);
    } else {
      assert rows + [] == rows;
    }
  }

  ghost predicate BucketHolds(b: Bucket, kept: seq<Point>, size: int, since: int, start: int) {
    CountersAre(b, kept, size, since, start) && RowsAre(b, Landed(kept, size, since, start))
  }

  lemma BucketStep(b: Bucket, tr: Trace, kept: seq<Point>, size: int, since: int, start: int, p: Point)
    requires Follows(tr, kept, size) && BucketHolds(b, kept, size, since, start) && !Replayed(tr.last, p)
    ensures var item := Item(size, since, tr, p);
            BucketHolds(if item.Some? && item.value.0 == start then PlusBucket(b, item.value.1) else b,
                        kept + [p], size, since, start)
  {
    CountersStep(b, tr, kept, size, since, start, p);
    LandedSnoc(kept, size, since, start, p);
    RowsStep(b, Landed(kept, size, since, start), tr, size, since, start, p);
  }

  lemma {:induction false} BucketIsItsRows(size: int, since: int, points: seq<Point>, start: int)
    requires Ascending(points)
    ensures BucketHolds(BucketAt(size, since, points, start), Kept(points), size, since, start)
  {
    if points != [] {
      var front, p := points[..|points| - 1], points[|points| - 1];
      assert points == front + [p];
      BucketIsItsRows(size, since, front, start);
      TraceFollows(size, front);
      KeptSnoc(size, front, p);
      var tr, b := TraceAfter(size, front), BucketAt(size, since, front, start);
      BucketAtSnoc(size, since, front, p, start);
      if !Replayed(tr.last, p) { BucketStep(b, tr, Kept(front), size, since, start, p); }
    } else {
      assert BucketHolds(EMPTY, [], size, since, start);
    }
  }

  // ---- from bucket to point ----

  lemma RoundIsNearest(x: real)
    ensures IsNearest(Round(x), x)
  {
  }

  lemma IntIsBelow(x: real)
    requires x >= 0.0
    ensures Int(x) as real <= x < Int(x) as real + 1.0
  {
  }

  lemma {:induction false} CountedIsReported(rows: seq<Point>, column: Point -> Option<real>)
    ensures CountOf(rows, column) > 0 <==> Reported(rows, column)
  {
    if rows != [] {
      var front, p := rows[..|rows| - 1], rows[|rows| - 1];
      assert rows == front + [p];
      CountedIsReported(front, column);
      ReportedSnoc(front, p, column);
    }
  }

  lemma AverageIs(m: Mean, rows: seq<Point>, column: Point -> Option<real>)
    requires MeanIs(m, rows, column)
    ensures Average(m).Some? <==> Reported(rows, column)
    ensures Average(m).Some? ==> IsAverage(Average(m).value, rows, column)
  {
    CountedIsReported(rows, column);
    if m.n > 0 { Divides(m.sum, m.n as real); }
  }

  lemma Divides(sum: real, n: real)
    requires n != 0.0
    ensures sum / n * n == sum
  {
  }

  lemma RoundedIs(m: Mean, rows: seq<Point>, column: Point -> Option<real>)
    requires MeanIs(m, rows, column)
    ensures Rounded(Average(m)).Some? <==> Reported(rows, column)
    ensures Rounded(Average(m)).Some? ==> IsRounded(Rounded(Average(m)).value, rows, column)
  {
    AverageIs(m, rows, column);
    if Average(m).Some? { RoundIsNearest(Average(m).value); }
  }

  lemma {:induction false} GrownIsPositive(kept: seq<Point>, column: Point -> Option<real>, c: C.Config, since: int,
                                           start: int)
    ensures Grown(kept, column, c, since, start) >= 0.0
  {
    if kept != [] {
      var front := kept[..|kept| - 1];
      GrownIsPositive(front, column, c, since, start);
      C.IncrementBound(c, C.After(c, C.UNSEEDED, Readings(front, column)), ReadingAt(kept, |front|, column));
    }
  }

  lemma OutPointSays(b: (int, Bucket), kept: seq<Point>, size: int, since: int)
    requires CountersAre(b.1, kept, size, since, b.0) && RowsAre(b.1, Landed(kept, size, since, b.0))
    requires Landed(kept, size, since, b.0) != []
    ensures PointSays(OutPoint(b), kept, size, since)
  {
    var rows := Landed(kept, size, since, b.0);
    GrownIsPositive(kept, ErrsOf(), C.Config(10.0, size), since, b.0);
    IntIsBelow(b.1.errs);
    AverageIs(b.1.noise, rows, NoiseOf());
    RoundedIs(b.1.battery, rows, BatteryOf());
    RoundedIs(b.1.queue, rows, QueueOf());
  }

  lemma ItemKeys(size: int, since: int, front: seq<Point>, p: Point)
    ensures var item := Item(size, since, TraceAfter(size, front), p);
            Keys(Items(size, since, front + [p]))
            == Keys(Items(size, since, front)) + if item.Some? then {item.value.0} else {}
  {
    assert (front + [p])[..|front|] == front;
    var items := Items(size, since, front + [p]);
    if Item(size, since, TraceAfter(size, front), p).Some? {
      KeysSnoc(items);
      assert items[..|items| - 1] == Items(size, since, front);
    }
  }

  lemma KeptSnoc(size: int, front: seq<Point>, p: Point)
    requires Ascending(front + [p])
    ensures Kept(front + [p]) == if Replayed(TraceAfter(size, front).last, p) then Kept(front) else Kept(front) + [p]
  {
    assert (front + [p])[..|front|] == front;
    if front != [] { assert (front + [p])[|front| - 1].t <= (front + [p])[|front|].t; }
    Shorter(front, p);
    TraceFollows(size, front);
    KeptRises(front);
    SameReplay(TraceAfter(size, front), Kept(front), size, p);
  }

  lemma Shorter(front: seq<Point>, p: Point)
    requires Ascending(front + [p])
    ensures Ascending(front)
  {
    forall i, j | 0 <= i < j < |front| ensures front[i].t <= front[j].t {
      assert (front + [p])[i].t <= (front + [p])[j].t;
    }
  }

  lemma StartsStep(size: int, since: int, front: seq<Point>, p: Point, start: int)
    requires Ascending(front + [p])
    requires start in Keys(Items(size, since, front)) <==> Landed(Kept(front), size, since, start) != []
    ensures start in Keys(Items(size, since, front + [p]))
       <==> Landed(Kept(front + [p]), size, since, start) != []
  {
    ItemKeys(size, since, front, p);
    KeptSnoc(size, front, p);
    LandedSnoc(Kept(front), size, since, start, p);
  }

  /** Starts of items are the bins that some kept row lands in. */
  lemma {:induction false} StartsAreBins(size: int, since: int, points: seq<Point>, start: int)
    requires Ascending(points)
    ensures start in Keys(Items(size, since, points)) <==> Landed(Kept(points), size, since, start) != []
  {
    if points != [] {
      var front, p := points[..|points| - 1], points[|points| - 1];
      assert points == front + [p];
      Shorter(front, p);
      StartsAreBins(size, since, front, start);
      StartsStep(size, since, front, p, start);
    }
  }

  lemma {:induction false} LandsSomewhere(kept: seq<Point>, size: int, since: int, p: Point)
    requires p in kept && p.t >= since
    ensures Landed(kept, size, since, Truncate(p.t, size)) != []
  {
    BinIsTruncate(size, Truncate(p.t, size), p.t);
    if p != kept[|kept| - 1] {
      LandsSomewhere(kept[..|kept| - 1], size, since, p);
    }
  }

  lemma PointOfBucket(size: int, since: int, points: seq<Point>, k: nat)
    requires Ascending(points) && k < |BucketsOf(size, since, points)|
    ensures PointSays(OutPoint(BucketsOf(size, since, points)[k]), Kept(points), size, since)
  {
    var b := BucketsOf(size, since, points)[k];
    BucketsPartition(size, since, points, TelemetryBuckets.Any);
    BucketIsItsRows(size, since, points, b.0);
    assert b.0 in Keys(BucketsOf(size, since, points));
    StartsAreBins(size, since, points, b.0);
    OutPointSays(b, Kept(points), size, since);
  }

  /** The whole answer, by the rows it was made from. */
  lemma TelemetryIsExact(size: int, since: int, points: seq<Point>, out: seq<Point>)
    requires Ascending(points) && |out| == |BucketsOf(size, since, points)|
    requires forall k :: 0 <= k < |out| ==> out[k] == OutPoint(BucketsOf(size, since, points)[k])
    ensures AnswerSays(out, points, size, since)
  {
    var buckets := BucketsOf(size, since, points);
    forall k | 0 <= k < |out| ensures PointSays(out[k], Kept(points), size, since) {
      PointOfBucket(size, since, points, k);
    }
    BucketsPartition(size, since, points, TelemetryBuckets.Any);
    forall p | p in Kept(points) && p.t >= since ensures exists k :: 0 <= k < |out| && InBin(size, out[k].t, p.t) {
      var start := Truncate(p.t, size);
      LandsSomewhere(Kept(points), size, since, p);
      StartsAreBins(size, since, points, start);
      var k :| 0 <= k < |buckets| && buckets[k].0 == start;
      BinIsTruncate(size, start, p.t);
      assert InBin(size, out[k].t, p.t);
    }
  }

  /** BucketTelemetry on ascending rows, as it is called. */
  method ServeTelemetry(points: seq<Point>, since: int, size: int) returns (out: seq<Point>)
    requires Ascending(points)
    ensures AnswerSays(out, points, size, since)
  {
    out := BucketTelemetry(points, since, size);
    TelemetryIsExact(size, since, points, out);
  }
}
