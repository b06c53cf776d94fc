/** BucketTelemetry: raw telemetry rows folded into fixed UTC buckets. Times are milliseconds here. */
module TelemetryBuckets {
  import opened Base
  import opened Grouping
  import opened Runs
  import C = CounterFilter

  const AIRTIME_RATE: real := 1.0
  const ERROR_RATE: real := 10.0

  datatype Point = Point(t: int, tx: Option<real>, rx: Option<real>, errs: Option<int>, battery: Option<int>,
                         noise: Option<real>,
                         queue: Option<int>, uptime: Option<int>)

  function Truncate(t: int, size: int): int {
    TruncateUnits(t, size, 1)
  }

  /** Integer division of Go, which truncates toward zero. */
  function Quot(a: int, b: int): int
    requires b > 0
  {
    if a >= 0 then a / b else -(-a / b)
  }

  // ---- what one bucket accumulates ----

  datatype Mean = Mean(sum: real, n: int)

  function PlusMean(a: Mean, b: Mean): Mean {
    Mean(a.sum + b.sum, a.n + b.n)
  }

  datatype Bucket = Bucket(tx: real, rx: real, errs: real, hasTx: bool, hasRx: bool, hasErr: bool,
                           battery: Mean, noise: Mean, queue: Mean, uptime: Option<int>)

  const NO_MEAN: Mean := Mean(0.0, 0)
  const EMPTY: Bucket := Bucket(0.0, 0.0, 0.0, false, false, false, NO_MEAN, NO_MEAN, NO_MEAN, None)

  function Later(a: Option<int>, b: Option<int>): Option<int> {
    if b.Some? && (a.None? || b.value > a.value) then b else a
  }

  function PlusBucket(a: Bucket, b: Bucket): Bucket {
    Bucket(a.tx + b.tx, a.rx + b.rx, a.errs + b.errs, a.hasTx || b.hasTx, a.hasRx || b.hasRx, a.hasErr || b.hasErr,
           PlusMean(a.battery, b.battery), PlusMean(a.noise, b.noise), PlusMean(a.queue, b.queue),
               Later(a.uptime, b.uptime))
  }

  lemma BucketMonoid()
    ensures CommutativeMonoid(PlusBucket, EMPTY)
  {
    forall a: Bucket, b: Bucket, c: Bucket ensures PlusBucket(PlusBucket(a, b), c) == PlusBucket(a, PlusBucket(b, c)) {}
  }

  function MeanOf(v: Option<real>): Mean {
    if v.Some? then Mean(v.value, 1) else NO_MEAN
  }

  function Real(v: Option<int>): Option<real> {
    if v.Some? then Some(v.value as real) else None
  }

  /** What a row adds to its bucket, given its counter increments. */
  function Sample(p: Point, dTx: real, dRx: real, dErr: real): Bucket {
    Bucket(dTx, dRx, dErr, p.tx.Some?, p.rx.Some?, p.errs.Some?, MeanOf(Real(p.battery)), MeanOf(p.noise),
           MeanOf(Real(p.queue)), p.uptime)
  }

  // ---- the row-by-row state ----

  /** The last row that was not a replay, and the three counters. */
  datatype Trace = Trace(last: Option<Point>, tx: C.State, rx: C.State, errs: C.State)

  const START: Trace := Trace(None, C.UNSEEDED, C.UNSEEDED, C.UNSEEDED)

  predicate UptimeFell(last: Option<Point>, p: Point) {
    last.Some? && p.uptime.Some? && last.value.uptime.Some? && p.uptime.value < last.value.uptime.value
  }

  /** An old snapshot replayed: the device cannot have been up that long since the last row. */
  predicate Replayed(last: Option<Point>, p: Point) {
    UptimeFell(last, p) && p.uptime.value > Quot(2 * (p.t - last.value.t), 1000)
  }

  function AirtimeConfig(size: int): C.Config {
    C.Config(AIRTIME_RATE, size)
  }

  function ErrorConfig(size: int): C.Config {
    C.Config(ERROR_RATE, size)
  }

  function Tx(last: Option<Point>, p: Point): C.Reading {
    C.Reading(p.tx, p.t, UptimeFell(last, p))
  }

  function Rx(last: Option<Point>, p: Point): C.Reading {
    C.Reading(p.rx, p.t, UptimeFell(last, p))
  }

  function Errs(last: Option<Point>, p: Point): C.Reading {
    C.Reading(Real(p.errs), p.t, UptimeFell(last, p))
  }

  function Advance(size: int, tr: Trace, p: Point): Trace {
    if Replayed(tr.last, p) then tr
    else Trace(Some(p), C.Next(AirtimeConfig(size), tr.tx, Tx(tr.last, p)),
               C.Next(AirtimeConfig(size), tr.rx, Rx(tr.last, p)),
               C.Next(ErrorConfig(size), tr.errs, Errs(tr.last, p)))
  }

  function TraceAfter(size: int, points: seq<Point>): Trace {
    if points == [] then START else Advance(size, TraceAfter(size, points[..|points| - 1]), points[|points| - 1])
  }

  /** The row's contribution, unless it is a replay or lies before since and serves as a baseline only. */
  function Item(size: int, since: int, tr: Trace, p: Point): Option<(int, Bucket)> {
    if Replayed(tr.last, p) || p.t < since then None
    else Some((Truncate(p.t, size),
               Sample(p, C.Increment(AirtimeConfig(size), tr.tx, Tx(tr.last, p)),
                      C.Increment(AirtimeConfig(size), tr.rx, Rx(tr.last, p)),
                      C.Increment(ErrorConfig(size), tr.errs, Errs(tr.last, p)))))
  }

  function Items(size: int, since: int, points: seq<Point>): seq<(int, Bucket)> {
    if points == [] then []
    else
      var front, p := points[..|points| - 1], points[|points| - 1];
      var item := Item(size, since, TraceAfter(size, front), p);
      if item.Some? then Items(size, since, front) + [item.value] else Items(size, since, front)
  }

  function BucketsOf(size: int, since: int, points: seq<Point>): seq<(int, Bucket)> {
    RunsOf(Items(size, since, points), PlusBucket)
  }

  ghost predicate Ascending(points: seq<Point>) {
    forall i, j :: 0 <= i < j < |points| ==> points[i].t <= points[j].t
  }

  // ---- buckets partition the rows ----

  lemma TruncateGrows(a: int, b: int, size: int)
    requires a <= b
    ensures Truncate(a, size) <= Truncate(b, size)
    ensures Truncate(a, size) <= a && (size > 0 ==>
            a < Truncate(a, size) + size && (Truncate(a, size) + ZERO_MILLIS) % size == 0)
  {
    if size > 0 {
      var x, y := a + ZERO_MILLIS, b + ZERO_MILLIS;
      var q, r := x / size, y / size;
      assert x == q * size + x % size && y == r * size + y % size;
      assert Truncate(a, size) == q * size - ZERO_MILLIS && Truncate(b, size) == r * size - ZERO_MILLIS;
      NonzeroMultiple(r - q, size);
      assert (r - q) * size == r * size - q * size;
      DivUnique(q * size, size, q, 0);
    }
  }

  lemma {:induction false} ItemStarts(size: int, since: int, points: seq<Point>)
    requires Ascending(points)
    ensures KeysRise(Items(size, since, points))
    ensures points != [] ==> forall i :: 0 <= i < |Items(size, since, points)| ==>
              Items(size, since, points)[i].0 <= Truncate(points[|points| - 1].t, size)
  {
    if points != [] {
      var front, p := points[..|points| - 1], points[|points| - 1];
      ItemStarts(size, since, front);
      if front != [] { TruncateGrows(front[|front| - 1].t, p.t, size); }
    }
  }

  lemma BucketTotal(items: seq<(int, Bucket)>, sel: int -> bool)
    ensures Total(RunsOf(items, PlusBucket), sel, PlusBucket, EMPTY) == Total(items, sel, PlusBucket, EMPTY)
  {
    BucketMonoid();
    TotalOfRuns(items, sel, PlusBucket, EMPTY);
  }

  lemma BucketValue(groups: seq<(int, Bucket)>, k: nat)
    requires KeysStrictlyRise(groups) && k < |groups|
    ensures Total(groups, Equals(groups[k].0), PlusBucket, EMPTY) == groups[k].1
  {
    BucketMonoid();
    TotalOfOne(groups, k, PlusBucket, EMPTY);
  }

  /** Bucketing is a partition: starts strictly rise and are aligned, each bucket is the fold of exactly the rows that
      start there, and any choice of buckets adds up to the rows that fall into them. */
  lemma BucketsPartition(size: int, since: int, points: seq<Point>, sel: int -> bool)
    requires Ascending(points)
    ensures var items, buckets := Items(size, since, points), BucketsOf(size, since, points);
            && KeysStrictlyRise(buckets) && Keys(buckets) == Keys(items)
            && (forall k :: 0 <= k < |buckets| ==>
                buckets[k].1 == Total(items, Equals(buckets[k].0), PlusBucket, EMPTY))
            && Total(buckets, sel, PlusBucket, EMPTY) == Total(items, sel, PlusBucket, EMPTY)
  {
    var items, buckets := Items(size, since, points), BucketsOf(size, since, points);
    ItemStarts(size, since, points);
    RunKeys(items, PlusBucket);
    BucketTotal(items, sel);
    forall k | 0 <= k < |buckets| ensures buckets[k].1 == Total(items, Equals(buckets[k].0), PlusBucket, EMPTY) {
      BucketTotal(items, Equals(buckets[k].0));
      BucketValue(buckets, k);
    }
  }

  /** Every bucket starts on a multiple of the size. */
  lemma {:induction false} ItemsAligned(size: int, since: int, points: seq<Point>)
    requires size > 0
    ensures forall k :: k in Keys(Items(size, since, points)) ==> (k + ZERO_MILLIS) % size == 0
  {
    if points != [] {
      var front, p := points[..|points| - 1], points[|points| - 1];
      ItemsAligned(size, since, front);
      TruncateGrows(p.t, p.t, size);
      if Item(size, since, TraceAfter(size, front), p).Some? { KeysSnoc(Items(size, since, points)); }
    }
  }

  /** A row that is not a replay and not before since lands in the bucket of its time, and only there. */
  lemma RowLands(size: int, since: int, points: seq<Point>, p: Point)
    ensures var tr := TraceAfter(size, points);
            var before, after := Items(size, since, points), Items(size, since, points + [p]);
            if Replayed(tr.last, p) then after == before && TraceAfter(size, points + [p]) == tr
            else if p.t < since then after == before
            else |after| == |before| + 1 && after[..|before|] == before && after[|before|].0 == Truncate(p.t, size)
  {
    assert (points + [p])[..|points|] == points;
  }

  // ---- bounds ----

  lemma {:induction false} TraceTimes(size: int, points: seq<Point>, t: int)
    requires Ascending(points) && (points != [] ==> points[|points| - 1].t <= t)
    ensures TraceAfter(size, points).tx.seeded ==> TraceAfter(size, points).tx.lastT <= t
    ensures TraceAfter(size, points).rx.seeded ==> TraceAfter(size, points).rx.lastT <= t
    ensures TraceAfter(size, points).errs.seeded ==> TraceAfter(size, points).errs.lastT <= t
  {
    if points != [] {
      TraceTimes(size, points[..|points| - 1], points[|points| - 1].t);
    }
  }

  /** The three counters of a bucket, by the configuration and the projections that read them. */
  datatype Channel = TxChannel | RxChannel | ErrChannel

  function ConfigOf(ch: Channel, size: int): C.Config {
    if ch == ErrChannel then ErrorConfig(size) else AirtimeConfig(size)
  }

  function StateOf(ch: Channel, tr: Trace): C.State {
    match ch
    case TxChannel => tr.tx
    case RxChannel => tr.rx
    case ErrChannel => tr.errs
  }

  function SumIn(ch: Channel, b: Bucket): real {
    match ch
    case TxChannel => b.tx
    case RxChannel => b.rx
    case ErrChannel => b.errs
  }

  function ReadingOf(ch: Channel, last: Option<Point>, p: Point): C.Reading {
    match ch
    case TxChannel => Tx(last, p)
    case RxChannel => Rx(last, p)
    case ErrChannel => Errs(last, p)
  }

  function InBucket(ch: Channel, size: int, since: int, points: seq<Point>, start: int): real {
    SumIn(ch, Total(Items(size, since, points), Equals(start), PlusBucket, EMPTY))
  }

  lemma InBucketSnoc(ch: Channel, size: int, since: int, points: seq<Point>, start: int)
    requires points != []
    ensures var front, p := points[..|points| - 1], points[|points| - 1];
            var tr := TraceAfter(size, front);
            InBucket(ch, size, since, points, start) == InBucket(ch, size, since, front, start)
              + if Replayed(tr.last, p) || p.t < since || Truncate(p.t, size) != start then 0.0
                else C.Increment(ConfigOf(ch, size), StateOf(ch, tr), ReadingOf(ch, tr.last, p))
  {
    var front, p := points[..|points| - 1], points[|points| - 1];
    var items := Items(size, since, points);
    if Item(size, since, TraceAfter(size, front), p).Some? {
      assert items[..|items| - 1] == Items(size, since, front);
    }
  }

  ghost predicate Spanned(c: C.Config, s: C.State, sum: real, start: int) {
    && sum >= 0.0
    && (sum > 0.0 ==> s.seeded && start <= s.lastT
                      && sum <= C.Limit(c.rate, Min(s.lastT, start + c.maxGap - 1) - (start - c.maxGap)))
  }

  /** Up to the last accepted reading, a bucket's sum fits in the limit of the time since one gap before its start. */
  lemma {:induction false} BucketSpan(ch: Channel, size: int, since: int, points: seq<Point>, start: int)
    requires size > 0 && Ascending(points)
    ensures Spanned(ConfigOf(ch, size), StateOf(ch, TraceAfter(size, points)),
                    InBucket(ch, size, since, points, start), start)
  {
    if points != [] {
      var front, p := points[..|points| - 1], points[|points| - 1];
      BucketSpan(ch, size, since, front, start);
      InBucketSnoc(ch, size, since, points, start);
      TraceTimes(size, front, p.t);
      var tr := TraceAfter(size, front);
      if !Replayed(tr.last, p) {
        TruncateGrows(p.t, p.t, size);
        StateAdvances(ch, size, tr, p);
        SpanStep(ConfigOf(ch, size), StateOf(ch, tr), ReadingOf(ch, tr.last, p),
                 InBucket(ch, size, since, front, start), start,
                 p.t >= since && Truncate(p.t, size) == start);
      }
    }
  }

  lemma StateAdvances(ch: Channel, size: int, tr: Trace, p: Point)
    ensures StateOf(ch, Advance(size, tr, p))
         == if Replayed(tr.last, p) then StateOf(ch, tr)
             else C.Next(ConfigOf(ch, size), StateOf(ch, tr), ReadingOf(ch, tr.last, p))
    ensures ReadingOf(ch, tr.last, p).t == p.t && ConfigOf(ch, size).maxGap == size && ConfigOf(ch, size).rate >= 0.0
  {
  }

  lemma SpanStep(c: C.Config, s: C.State, r: C.Reading, sum: real, start: int, here: bool)
    requires c.rate >= 0.0 && c.maxGap > 0 && Spanned(c, s, sum, start) && (s.seeded ==> s.lastT <= r.t)
    requires here ==> start <= r.t < start + c.maxGap
    ensures Spanned(c, C.Next(c, s, r), sum + if here then C.Increment(c, s, r) else 0.0, start)
  {
    C.IncrementBound(c, s, r);
    var d := C.Increment(c, s, r);
    var from, s' := start - c.maxGap, C.Next(c, s, r);
    if here && d > 0.0 {
      C.LimitAdds(c.rate, s.lastT - from, r.t - s.lastT);
      C.LimitGrows(c.rate, 0, s.lastT - from);
      assert C.Limit(c.rate, 0) == 0.0;
    } else if sum > 0.0 {
      C.LimitGrows(c.rate, Min(s.lastT, start + c.maxGap - 1) - from, Min(s'.lastT, start + c.maxGap - 1) - from);
    }
  }

  /** No bucket total reaches four times the honest growth of the bucket, whatever the readings. */
  lemma BucketBound(ch: Channel, size: int, since: int, points: seq<Point>, k: nat)
    requires size > 0 && Ascending(points) && k < |BucketsOf(size, since, points)|
    ensures 0.0 <= SumIn(ch, BucketsOf(size, since, points)[k].1) < ConfigOf(ch,
                                                                             size).rate * 4.0 * (size as real) / 1000.0
  {
    var start := BucketsOf(size, since, points)[k].0;
    BucketsPartition(size, since, points, Equals(start));
    BucketSpan(ch, size, since, points, start);
    var rate, s := ConfigOf(ch, size).rate, StateOf(ch, TraceAfter(size, points));
    if SumIn(ch, BucketsOf(size, since, points)[k].1) > 0.0 {
      C.LimitGrows(rate, Min(s.lastT, start + size - 1) - (start - size), 2 * size - 1);
    }
    assert (2 * size - 1) as real < 2.0 * (size as real);
  }

  // ---- means and uptime ----

  /** Bounds of one averaged quantity over the rows of a bucket. */
  ghost predicate Within(m: Mean, lo: real, hi: real) {
    m.n >= 0 && (m.n as real) * lo <= m.sum <= (m.n as real) * hi
  }

  lemma WithinPlus(a: Mean, b: Mean, lo: real, hi: real)
    requires Within(a, lo, hi) && Within(b, lo, hi)
    ensures Within(PlusMean(a, b), lo, hi)
  {
    assert ((a.n + b.n) as real) * lo == (a.n as real) * lo + (b.n as real) * lo;
    assert ((a.n + b.n) as real) * hi == (a.n as real) * hi + (b.n as real) * hi;
  }

  function Noise(b: Bucket): Mean { b.noise }
  function Battery(b: Bucket): Mean { b.battery }
  function Queue(b: Bucket): Mean { b.queue }

  /** Which mean of the bucket a lemma is about. */
  ghost predicate IsMeanOf(m: Bucket -> Mean) {
    m(EMPTY) == NO_MEAN && forall a: Bucket, b: Bucket :: m(PlusBucket(a, b)) == PlusMean(m(a), m(b))
  }

  lemma {:induction false} MeanWithin(items: seq<(int, Bucket)>, start: int, m: Bucket -> Mean, lo: real, hi: real)
    requires IsMeanOf(m)
    requires forall i :: 0 <= i < |items| && items[i].0 == start ==> Within(m(items[i].1), lo, hi)
    ensures Within(m(Total(items, Equals(start), PlusBucket, EMPTY)), lo, hi)
  {
    if items != [] {
      var front, last := items[..|items| - 1], items[|items| - 1];
      forall i | 0 <= i < |front| && front[i].0 == start ensures Within(m(front[i].1), lo, hi) {
        assert front[i] == items[i];
      }
      MeanWithin(front, start, m, lo, hi);
      if last.0 == start {
        WithinPlus(m(Total(front, Equals(start), PlusBucket, EMPTY)), m(last.1), lo, hi);
      }
    }
  }

  /** Each mean lies between any bounds its bucket's samples respect, so between their minimum and maximum. */
  lemma BucketMeanWithin(size: int, since: int, points: seq<Point>, k: nat, m: Bucket -> Mean, lo: real, hi: real)
    requires Ascending(points) && k < |BucketsOf(size, since, points)| && IsMeanOf(m)
    requires var items, start := Items(size, since, points), BucketsOf(size, since, points)[k].0;
             forall i :: 0 <= i < |items| && items[i].0 == start ==> Within(m(items[i].1), lo, hi)
    ensures var mean := m(BucketsOf(size, since, points)[k].1);
            mean.n > 0 ==> lo <= mean.sum / (mean.n as real) <= hi
  {
    BucketSumWithin(size, since, points, k, m, lo, hi);
    Quotient(m(BucketsOf(size, since, points)[k].1), lo, hi);
  }

  lemma BucketSumWithin(size: int, since: int, points: seq<Point>, k: nat, m: Bucket -> Mean, lo: real, hi: real)
    requires Ascending(points) && k < |BucketsOf(size, since, points)| && IsMeanOf(m)
    requires var items, start := Items(size, since, points), BucketsOf(size, since, points)[k].0;
             forall i :: 0 <= i < |items| && items[i].0 == start ==> Within(m(items[i].1), lo, hi)
    ensures Within(m(BucketsOf(size, since, points)[k].1), lo, hi)
  {
    BucketsPartition(size, since, points, Any);
    MeanWithin(Items(size, since, points), BucketsOf(size, since, points)[k].0, m, lo, hi);
  }

  predicate Any(start: int) { true }

  lemma Quotient(m: Mean, lo: real, hi: real)
    requires Within(m, lo, hi)
    ensures m.n > 0 ==> lo <= m.sum / (m.n as real) <= hi
  {
    if m.n > 0 {
      var n := m.n as real;
      var q := m.sum / n;
      assert (q - lo) * n == m.sum - n * lo && (hi - q) * n == n * hi - m.sum;
      SignOfProduct(q - lo, n);
      SignOfProduct(hi - q, n);
    }
  }

  lemma {:induction false} UptimeIsMax(items: seq<(int, Bucket)>, start: int)
    ensures var up := Total(items, Equals(start), PlusBucket, EMPTY).uptime;
            && (forall i :: 0 <= i < |items| && items[i].0 == start && items[i].1.uptime.Some? ==>
                 up.Some? && items[i].1.uptime.value <= up.value)
            && (up.Some? ==> exists i :: 0 <= i < |items| && items[i].0 == start && items[i].1.uptime == up)
  {
    if items != [] {
      var front, last := items[..|items| - 1], items[|items| - 1];
      UptimeIsMax(front, start);
      var before, up := Total(front, Equals(start), PlusBucket, EMPTY).uptime,
          Total(items, Equals(start), PlusBucket, EMPTY).uptime;
      forall i | 0 <= i < |items| && items[i].0 == start && items[i].1.uptime.Some?
        ensures up.Some? && items[i].1.uptime.value <= up.value
      {
        if i < |front| { assert front[i] == items[i]; }
      }
      if up.Some? {
        if last.0 == start && up == last.1.uptime {
          assert items[|items| - 1].1.uptime == up;
        } else {
          var i :| 0 <= i < |front| && front[i].0 == start && front[i].1.uptime == before;
          assert items[i] == front[i];
        }
      }
    }
  }

  /** The uptime of a bucket is the largest one reported in it. */
  lemma BucketUptime(size: int, since: int, points: seq<Point>, k: nat)
    requires Ascending(points) && k < |BucketsOf(size, since, points)|
    ensures var items, b := Items(size, since, points), BucketsOf(size, since, points)[k];
            && (forall i :: 0 <= i < |items| && items[i].0 == b.0 && items[i].1.uptime.Some? ==>
                 b.1.uptime.Some? && items[i].1.uptime.value <= b.1.uptime.value)
            && (b.1.uptime.Some? ==> exists i ::
                0 <= i < |items| && items[i].0 == b.0 && items[i].1.uptime == b.1.uptime)
  {
    var start := BucketsOf(size, since, points)[k].0;
    BucketsPartition(size, since, points, Equals(start));
    UptimeIsMax(Items(size, since, points), start);
  }

  // ---- the method ----

  /** math.Round: to the nearest integer, halves away from zero. */
  function Round(x: real): int {
    if x >= 0.0 then (x + 0.5).Floor else -(-x + 0.5).Floor
  }

  /** int32(x) of a float truncates toward zero. */
  function Int(x: real): int {
    if x >= 0.0 then x.Floor else -(-x).Floor
  }

  function Average(m: Mean): Option<real> {
    if m.n > 0 then Some(m.sum / (m.n as real)) else None
  }

  function Rounded(x: Option<real>): Option<int> {
    if x.Some? then Some(Round(x.value)) else None
  }

  function OutPoint(b: (int, Bucket)): Point {
    Point(b.0, if b.1.hasTx then Some(b.1.tx) else None, if b.1.hasRx then Some(b.1.rx) else None,
          if b.1.hasErr then Some(Int(b.1.errs)) else None, Rounded(Average(b.1.battery)), Average(b.1.noise),
          Rounded(Average(b.1.queue)), b.1.uptime)
  }

  lemma BucketsSnoc(size: int, since: int, front: seq<Point>, p: Point)
    ensures var item := Item(size, since, TraceAfter(size, front), p);
            BucketsOf(size, since, front + [p])
            == if item.Some? then Extend(BucketsOf(size, since, front), item.value.0, item.value.1, PlusBucket)
                else BucketsOf(size, since, front)
    ensures TraceAfter(size, front + [p]) == Advance(size, TraceAfter(size, front), p)
  {
    assert (front + [p])[..|front|] == front;
    var items := Items(size, since, front + [p]);
    if Item(size, since, TraceAfter(size, front), p).Some? { assert items[..|items| - 1] == Items(size, since, front); }
  }

  method BucketTelemetry(points: seq<Point>, since: int, size: int) returns (out: seq<Point>)
    ensures |out| == |BucketsOf(size, since, points)|
    ensures forall k :: 0 <= k < |out| ==> out[k] == OutPoint(BucketsOf(size, since, points)[k])
  {
    var tx := new C.Counter(AIRTIME_RATE, size);
    var rx := new C.Counter(AIRTIME_RATE, size);
    var errs := new C.Counter(ERROR_RATE, size);
    var last: Option<Point> := None;
    var buckets: seq<(int, Bucket)> := [];
    for i := 0 to |points|
      invariant tx != rx && rx != errs && tx != errs && fresh(tx) && fresh(rx) && fresh(errs)
      invariant tx.rate == AIRTIME_RATE && rx.rate == AIRTIME_RATE && errs.rate == ERROR_RATE
      invariant tx.maxGap == size && rx.maxGap == size && errs.maxGap == size
      invariant Trace(last, tx.View(), rx.View(), errs.View()) == TraceAfter(size, points[..i])
      invariant buckets == BucketsOf(size, since, points[..i])
    {
      var p := points[i];
      ghost var front := points[..i];
      assert points[..i + 1] == front + [p] && (front + [p])[..i] == front;
      BucketsSnoc(size, since, front, p);
      var rebooted := UptimeFell(last, p);
      if rebooted && p.uptime.value > Quot(2 * (p.t - last.value.t), 1000) {
        continue;
      }
      var dTx := tx.Add(p.tx, p.t, rebooted);
      var dRx := rx.Add(p.rx, p.t, rebooted);
      var dErr := errs.Add(Real(p.errs), p.t, rebooted);
      last := Some(p);
      if p.t < since {
        continue;
      }
      buckets := IntoBucket(buckets, Truncate(p.t, size), Sample(p, dTx, dRx, dErr));
    }
    assert points[..|points|] == points;
    out := Emit(buckets);
  }

  /** A row's sample goes into the last bucket, or opens a new one. */
  method IntoBucket(buckets: seq<(int, Bucket)>, start: int, sample: Bucket) returns (after: seq<(int, Bucket)>)
    ensures after == Extend(buckets, start, sample, PlusBucket)
  {
    if |buckets| == 0 || buckets[|buckets| - 1].0 != start {
      after := buckets + [(start, sample)];
    } else {
      after := buckets[..|buckets| - 1] + [(start, PlusBucket(buckets[|buckets| - 1].1, sample))];
    }
  }

  method Emit(buckets: seq<(int, Bucket)>) returns (out: seq<Point>)
    ensures |out| == |buckets|
    ensures forall k :: 0 <= k < |out| ==> out[k] == OutPoint(buckets[k])
  {
    out := [];
    for k := 0 to |buckets|
      invariant |out| == k && forall j :: 0 <= j < k ==> out[j] == OutPoint(buckets[j])
    {
      out := out + [OutPoint(buckets[k])];
    }
  }
}
