/** Observer activity: hourly rollups stitched to a raw tail, against one pass over everything ever heard. */
module ObserverActivityRead {
  import opened Base
  import opened Grouping
  import opened Families
  import opened World
  import opened RawRows
  import opened Protocol
  import opened RunTheorems
  import opened HourFold
  import opened Sorting

  const ZERO_MICROS: int := ZERO_MILLIS * 1000
  const RAW_TAIL: int := 24 * HOUR

  function Truncate(t: int, d: int): int {
    TruncateUnits(t, d, 1000)
  }

  /** date_bin(width, t, 'epoch'). */
  function DateBin(width: int, t: int): int
    requires width > 0
  {
    t - t % width
  }

  // ---- the reference: one pass over rows ----

  function InWindow(observer: nat, lo: int, hi: int): Row -> Option<(int, Activity)> {
    (r: Row) => if r.observer == observer && lo <= r.heardAt < hi then Some((r.heardAt, ActivityOf(r))) else None
  }

  /** One observation's part in the raw aggregate of the instants sel picks in [lo, hi). */
  function Share(observer: nat, lo: int, hi: int, sel: int -> bool): Row -> Activity {
    (r: Row) => if r.observer == observer && lo <= r.heardAt < hi && sel(r.heardAt) then ActivityOf(r) else NO_ACTIVITY
  }

  ghost function Heard(rows: seq<Row>, observer: nat, lo: int, hi: int, sel: int -> bool): Activity {
    Pass(rows, Share(observer, lo, hi, sel), PlusActivity, NO_ACTIVITY)
  }

  function InBucket(interval: int, bucket: int): int -> bool
    requires interval > 0
  {
    (t: int) => DateBin(interval, t) == bucket
  }

  lemma NothingAdded(a: Activity)
    ensures PlusActivity(a, NO_ACTIVITY) == a && PlusActivity(NO_ACTIVITY, a) == a
  {
  }

  lemma ShareSplit(r: Row, observer: nat, lo: int, mid: int, hi: int, sel: int -> bool)
    requires lo <= mid <= hi
    ensures Share(observer, lo, hi, sel)(r) == PlusActivity(Share(observer, lo, mid, sel)(r),
                                                            Share(observer, mid, hi, sel)(r))
  {
    NothingAdded(Share(observer, lo, mid, sel)(r));
    NothingAdded(Share(observer, mid, hi, sel)(r));
  }

  lemma ActivitySplit(rows: seq<Row>, share: Row -> Activity, s: Row -> Activity, s': Row -> Activity)
    requires forall r :: r in rows ==> share(r) == PlusActivity(s(r), s'(r))
    ensures Pass(rows, share, PlusActivity, NO_ACTIVITY)
         == PlusActivity(Pass(rows, s, PlusActivity, NO_ACTIVITY), Pass(rows, s', PlusActivity, NO_ACTIVITY))
  {
    ActivityMonoid();
    PassSplit(rows, share, s, s', PlusActivity, NO_ACTIVITY);
  }

  lemma ActivityGroups<K>(items: seq<(K, Activity)>, sel: K -> bool)
    ensures Total(GroupBy(items, PlusActivity), sel, PlusActivity, NO_ACTIVITY)
            == Total(items, sel, PlusActivity, NO_ACTIVITY)
  {
    ActivityMonoid();
    TotalOfGroups(items, sel, PlusActivity, NO_ACTIVITY);
  }

  lemma ActivityConcat<K>(a: seq<(K, Activity)>, b: seq<(K, Activity)>, sel: K -> bool)
    ensures Total(a + b, sel, PlusActivity, NO_ACTIVITY)
         == PlusActivity(Total(a, sel, PlusActivity, NO_ACTIVITY), Total(b, sel, PlusActivity, NO_ACTIVITY))
  {
    ActivityMonoid();
    TotalConcat(a, b, sel, PlusActivity, NO_ACTIVITY);
  }

  lemma HeardSplit(rows: seq<Row>, observer: nat, lo: int, mid: int, hi: int, sel: int -> bool)
    requires lo <= mid <= hi
    ensures Heard(rows, observer, lo, hi, sel) == PlusActivity(Heard(rows, observer, lo, mid, sel),
                                                               Heard(rows, observer, mid, hi, sel))
  {
    forall r | r in rows
      ensures Share(observer, lo, hi, sel)(r) == PlusActivity(Share(observer, lo, mid, sel)(r),
                                                              Share(observer, mid, hi, sel)(r))
    {
      ShareSplit(r, observer, lo, mid, hi, sel);
    }
    ActivitySplit(rows, Share(observer, lo, hi, sel), Share(observer, lo, mid, sel), Share(observer, mid, hi, sel));
  }

  lemma HeardNothing(rows: seq<Row>, observer: nat, lo: int, hi: int, sel: int -> bool)
    requires forall t :: lo <= t < hi ==> !sel(t)
    ensures Heard(rows, observer, lo, hi, sel) == NO_ACTIVITY
  {
    ActivityMonoid();
    PassNothing(rows, Share(observer, lo, hi, sel), PlusActivity, NO_ACTIVITY);
  }

  lemma {:induction false} PassOfHour<A(!new)>(rows: seq<Row>, h: int, share: Row -> A, op: (A, A) -> A, unit: A)
    requires CommutativeMonoid(op, unit)
    requires forall r: Row :: !InHour(r.heardAt, h) ==> share(r) == unit
    ensures Pass(RowsIn(rows, h), share, op, unit) == Pass(rows, share, op, unit)
  {
    if rows != [] {
      var front, kept := rows[..|rows| - 1], RowsIn(rows, h);
      PassOfHour(front, h, share, op, unit);
      if InHour(rows[|rows| - 1].heardAt, h) {
        assert kept[..|kept| - 1] == RowsIn(front, h);
      } else {
        var p := Pass(front, share, op, unit);
        assert op(unit, p) == op(p, unit) == p;
      }
    }
  }

  /** Inside one hour only that hour's rows matter. */
  lemma HeardOfHour(rows: seq<Row>, observer: nat, h: int, lo: int, hi: int, sel: int -> bool)
    requires h <= lo && hi <= h + HOUR
    ensures Heard(RowsIn(rows, h), observer, lo, hi, sel) == Heard(rows, observer, lo, hi, sel)
  {
    ActivityMonoid();
    PassOfHour(rows, h, Share(observer, lo, hi, sel), PlusActivity, NO_ACTIVITY);
  }

  // ---- the rolled side ----

  function OfObserver(observer: nat): ActivityKey -> bool {
    (k: ActivityKey) => k.observer == observer
  }

  /** One hour's rollup rows of the observer, dated at the hour. */
  function RolledItems(rows: seq<(ActivityKey, Activity)>, observer: nat, h: int): seq<(int, Activity)> {
    if rows == [] then []
    else
      var front, last := RolledItems(rows[..|rows| - 1], observer, h), rows[|rows| - 1];
      if last.0.observer == observer then front + [(h, last.1)] else front
  }

  lemma {:induction false} RolledItemsTotal(rows: seq<(ActivityKey, Activity)>, observer: nat, h: int, sel: int -> bool)
    ensures Total(RolledItems(rows, observer, h), sel, PlusActivity, NO_ACTIVITY)
         == if sel(h) then Total(rows, OfObserver(observer), PlusActivity, NO_ACTIVITY) else NO_ACTIVITY
  {
    if rows != [] {
      var front, items := rows[..|rows| - 1], RolledItems(rows, observer, h);
      RolledItemsTotal(front, observer, h, sel);
      if rows[|rows| - 1].0.observer == observer {
        assert items[..|items| - 1] == RolledItems(front, observer, h);
      }
    }
  }

  lemma ActivityTotal<K>(rows: seq<Row>, f: Row -> Option<(K, Activity)>, sel: K -> bool, share: Row -> Activity)
    requires forall r :: r in rows ==> ShareOf(f, sel, NO_ACTIVITY)(r) == share(r)
    ensures Total(Collect(rows, f), sel, PlusActivity, NO_ACTIVITY) == Pass(rows, share, PlusActivity, NO_ACTIVITY)
  {
    ActivityMonoid();
    TotalIsPass(rows, f, sel, PlusActivity, NO_ACTIVITY);
    PassAgree(rows, ShareOf(f, sel, NO_ACTIVITY), share, PlusActivity, NO_ACTIVITY);
  }

  lemma ObserverTotal(rows: seq<Row>, observer: nat, h: int, sel: int -> bool)
    requires forall r :: r in rows ==> InHour(r.heardAt, h)
    requires forall t :: InHour(t, h) ==> sel(t)
    ensures Total(Collect(rows, ActivityItem), OfObserver(observer), PlusActivity, NO_ACTIVITY)
            == Heard(rows, observer, h, h + HOUR, sel)
  {
    forall r | r in rows
      ensures ShareOf(ActivityItem, OfObserver(observer), NO_ACTIVITY)(r) == Share(observer, h, h + HOUR, sel)(r)
    {
      assert InHour(r.heardAt, h) && sel(r.heardAt);
      assert ActivityItem(r).value.0.observer == r.observer;
    }
    ActivityTotal(rows, ActivityItem, OfObserver(observer), Share(observer, h, h + HOUR, sel));
  }

  lemma {:induction false} RowsInHour(rows: seq<Row>, h: int)
    ensures forall r :: r in RowsIn(rows, h) ==> InHour(r.heardAt, h)
  {
    if rows != [] {
      RowsInHour(rows[..|rows| - 1], h);
    }
  }

  /** An hour never straddles two buckets of whole hours. */
  lemma HourInOneBucket(interval: int, h: int, t: int)
    requires interval > 0 && interval % HOUR == 0 && h % HOUR == 0 && InHour(t, h)
    ensures DateBin(interval, t) == DateBin(interval, h)
  {
    var b, n, m := DateBin(interval, h), interval / HOUR, h / HOUR;
    assert interval == n * HOUR && h == m * HOUR;
    assert b == (h / interval) * interval;
    var q := h / interval;
    assert b == q * interval == (q * n) * HOUR;
    assert (m - q * n) * HOUR == h - b < interval == n * HOUR;
    assert m - q * n <= n - 1;
    assert (m - q * n) * HOUR <= (n - 1) * HOUR;
    assert b <= t < b + interval;
    assert t / interval == q by {
      assert t == q * interval + (t - b) && 0 <= t - b < interval;
      DivUnique(t, interval, q, t - b);
    }
  }

  /** One exact hour of the rollup carries what a raw scan of the hour would. */
  lemma RolledHour(content: Content, ever: seq<Row>, observer: nat, h: int, interval: int, bucket: int)
    requires Exact(content, RowsIn(ever, h)) && h % HOUR == 0 && interval > 0 && interval % HOUR == 0
    ensures ObserverActivity in content && content[ObserverActivity].ActivityRows?
    ensures Total(RolledItems(content[ObserverActivity].activity, observer, h), InBucket(interval, bucket),
                  PlusActivity, NO_ACTIVITY)
         == Heard(ever, observer, h, h + HOUR, InBucket(interval, bucket))
  {
    var rows, sel := RowsIn(ever, h), InBucket(interval, bucket);
    ExactFamily(content, rows, ObserverActivity);
    var items := Collect(rows, ActivityItem);
    ActivityGroups(items, OfObserver(observer));
    RolledItemsTotal(GroupBy(items, PlusActivity), observer, h, sel);
    forall t | InHour(t, h) ensures sel(t) == sel(h) { HourInOneBucket(interval, h, t); }
    if sel(h) {
      RowsInHour(ever, h);
      ObserverTotal(rows, observer, h, sel);
      HeardOfHour(ever, observer, h, h, h + HOUR, sel);
    } else {
      HeardNothing(ever, observer, h, h + HOUR, sel);
    }
  }

  /** analytics_hourly_observer_activity for the hours in [from, to), as (hour, sums) rows. */
  function RolledSource(content: map<int, Content>, observer: nat, from: int, to: int): seq<(int, Activity)>
    decreases Max(to - from, 0)
  {
    if from >= to then []
    else
      RolledAt(content, observer, from) + RolledSource(content, observer, from + HOUR, to)
  }

  ghost function HourHeard(rows: seq<Row>, observer: nat, sel: int -> bool): int -> Activity {
    (h: int) => Heard(rows, observer, h, h + HOUR, sel)
  }

  ghost function HeardUntil(rows: seq<Row>, observer: nat, to: int, sel: int -> bool): int -> Activity {
    (h: int) => Heard(rows, observer, h, to, sel)
  }

  /** The raw aggregate of the complete hours in [from, to). */
  ghost function HeardInComplete(w: World, observer: nat, from: int, to: int, sel: int -> bool): Activity {
    OverComplete(w.tables, HourHeard(w.ever, observer, sel), from, to, PlusActivity, NO_ACTIVITY)
  }

  function RolledAt(content: map<int, Content>, observer: nat, h: int): seq<(int, Activity)> {
    if h in content && ObserverActivity in content[h] && content[h][ObserverActivity].ActivityRows?
    then RolledItems(content[h][ObserverActivity].activity, observer, h) else []
  }

  lemma RolledAtTotal(w: World, observer: nat, h: int, interval: int, bucket: int)
    requires Inv(w) && h % HOUR == 0 && interval > 0 && interval % HOUR == 0
    ensures Total(RolledAt(w.tables.content, observer, h), InBucket(interval, bucket), PlusActivity, NO_ACTIVITY)
         == if IsComplete(w.tables, h) then HourHeard(w.ever, observer, InBucket(interval, bucket))(h) else NO_ACTIVITY
  {
    if IsComplete(w.tables, h) {
      RolledHour(w.tables.content[h], w.ever, observer, h, interval, bucket);
    }
  }

  lemma {:induction false} RolledSourceTotal(w: World, observer: nat, from: int, to: int, interval: int, bucket: int)
    requires Inv(w) && from % HOUR == 0 && interval > 0 && interval % HOUR == 0
    ensures Total(RolledSource(w.tables.content, observer, from, to), InBucket(interval, bucket), PlusActivity,
                  NO_ACTIVITY)
         == HeardInComplete(w, observer, from, to, InBucket(interval, bucket))
    decreases Max(to - from, 0)
  {
    if from < to {
      var sel, content := InBucket(interval, bucket), w.tables.content;
      RolledSourceTotal(w, observer, from + HOUR, to, interval, bucket);
      RolledAtTotal(w, observer, from, interval, bucket);
      ActivityConcat(RolledAt(content, observer, from), RolledSource(content, observer, from + HOUR, to), sel);
    }
  }

  lemma HourStep(rows: seq<Row>, observer: nat, sel: int -> bool, h: int, to: int)
    requires h + HOUR <= to
    ensures HourByHour(HourHeard(rows, observer, sel), HeardUntil(rows, observer, to, sel), h, PlusActivity)
  {
    HeardSplit(rows, observer, h, h + HOUR, to, sel);
    HeardAt(rows, observer, to, sel, h);
    HeardAt(rows, observer, to, sel, h + HOUR);
    ByHours(HourHeard(rows, observer, sel), HeardUntil(rows, observer, to, sel), h,
            Heard(rows, observer, h, h + HOUR, sel),
            Heard(rows, observer, h + HOUR, to, sel), Heard(rows, observer, h, to, sel));
  }

  lemma HeardAt(rows: seq<Row>, observer: nat, to: int, sel: int -> bool, h: int)
    ensures HourHeard(rows, observer, sel)(h) == Heard(rows, observer, h, h + HOUR, sel)
    ensures HeardUntil(rows, observer, to, sel)(h) == Heard(rows, observer, h, to, sel)
  {
  }

  lemma ByHours(part: int -> Activity, rest: int -> Activity, h: int, here: Activity, later: Activity, all: Activity)
    requires part(h) == here && rest(h + HOUR) == later && rest(h) == all && all == PlusActivity(here, later)
    ensures HourByHour(part, rest, h, PlusActivity)
  {
  }

  lemma AllComplete(w: World, observer: nat, from: int, to: int, sel: int -> bool)
    requires from % HOUR == 0 && to % HOUR == 0 && from <= to
    requires forall h :: from <= h < to && h % HOUR == 0 ==> IsComplete(w.tables, h)
    ensures HeardInComplete(w, observer, from, to, sel) == Heard(w.ever, observer, from, to, sel)
  {
    var part, rest := HourHeard(w.ever, observer, sel), HeardUntil(w.ever, observer, to, sel);
    HeardNothing(w.ever, observer, to, to, sel);
    forall h | from <= h < to && h % HOUR == 0 ensures HourByHour(part, rest, h, PlusActivity) {
      AlignedGap(h, to);
      HourStep(w.ever, observer, sel, h, to);
    }
    NoHourMissing(w.tables, part, rest, from, to, PlusActivity, NO_ACTIVITY);
  }

  // ---- the raw side ----

  /** The raw half of the query, grouped or not, is one pass. */
  lemma HeardIsTotal(rows: seq<Row>, observer: nat, lo: int, hi: int, sel: int -> bool)
    ensures Total(Collect(rows, InWindow(observer, lo, hi)), sel, PlusActivity, NO_ACTIVITY)
            == Heard(rows, observer, lo, hi, sel)
  {
    ActivityTotal(rows, InWindow(observer, lo, hi), sel, Share(observer, lo, hi, sel));
  }

  function StoredRows(observations: seq<Observation>, packets: map<Hash, Packet>): seq<Row> {
    if observations == [] then []
    else
      var front, o := StoredRows(observations[..|observations| - 1], packets), observations[|observations| - 1];
      if o.packet in packets then front + [Join(o, packets[o.packet])] else front
  }

  lemma {:induction false} StoredHour(observations: seq<Observation>, packets: map<Hash, Packet>, h: int)
    ensures RowsIn(StoredRows(observations, packets), h) == RollupObs(observations, packets, h)
  {
    if observations != [] {
      var front, rows := observations[..|observations| - 1], StoredRows(observations, packets);
      StoredHour(front, packets, h);
      if observations[|observations| - 1].packet in packets {
        assert rows[..|rows| - 1] == StoredRows(front, packets);
      }
    }
  }

  /** From an intact hour on, the stored rows are everything ever heard. */
  lemma {:induction false} StoredTail(w: World, observer: nat, lo: int, hi: int, sel: int -> bool)
    requires Inv(w) && Intact(w.tables, TruncHour(lo))
    ensures Heard(StoredRows(w.tables.observations, w.tables.packets), observer, lo, hi, sel)
            == Heard(w.ever, observer, lo, hi, sel)
    decreases hi - lo
  {
    var stored, h := StoredRows(w.tables.observations, w.tables.packets), TruncHour(lo);
    if lo >= hi {
      HeardNothing(stored, observer, lo, hi, sel);
      HeardNothing(w.ever, observer, lo, hi, sel);
    } else {
      var mid := Min(hi, h + HOUR);
      StoredHour(w.tables.observations, w.tables.packets, h);
      HeardOfHour(stored, observer, h, lo, mid, sel);
      HeardOfHour(w.ever, observer, h, lo, mid, sel);
      assert TruncHour(mid) >= h by {
        if TruncHour(mid) < h { HourOfInstant(mid, TruncHour(mid)); }
      }
      StoredTail(w, observer, mid, hi, sel);
      HeardSplit(stored, observer, lo, mid, hi, sel);
      HeardSplit(w.ever, observer, lo, mid, hi, sel);
    }
  }

  // ---- the request ----

  /** The aligned window [since, until) of a request; no until means now. */
  datatype Window = Window(since: int, until: int)

  function WindowOf(window: int, interval: int, until: Option<int>, now: int): Window {
    var end := if until.None? then now else Truncate(until.value, interval);
    var start := end - window;
    Window(if start == Truncate(start, interval) then start else Truncate(start, interval) + interval, end)
  }

  /** Rolled up to the latest complete hour, raw from there on, but raw reaches back a day at most. */
  function TailStart(watermark: Option<int>, until: int): int {
    if watermark.Some? && watermark.value + HOUR > until - RAW_TAIL then watermark.value + HOUR else until - RAW_TAIL
  }

  ghost predicate IsWatermark(t: Tables, watermark: Option<int>) {
    match watermark
    case None => forall h :: h in t.hours ==> !IsComplete(t, h)
    case Some(m) => IsComplete(t, m) && forall h :: IsComplete(t, h) ==> h <= m
  }

  /** The rows GetObserverActivityHourly groups: rollup rows below the tail, observations from it on. */
  function Source(t: Tables, observer: nat, win: Window, tail: int): seq<(int, Activity)> {
    RolledSource(t.content, observer, CeilHour(win.since), Min(win.until, tail))
    + Collect(StoredRows(t.observations, t.packets), InWindow(observer, Max(win.since, tail), win.until))
  }

  function Binned(items: seq<(int, Activity)>, interval: int): seq<(int, Activity)>
    requires interval > 0
  {
    seq(|items|, i requires 0 <= i < |items| => (DateBin(interval, items[i].0), items[i].1))
  }

  predicate EarlierBucket(a: (int, Activity), b: (int, Activity)) {
    a.0 <= b.0
  }

  /** GROUP BY 1 ORDER BY 1. */
  function Buckets(items: seq<(int, Activity)>, interval: int): seq<(int, Activity)>
    requires interval > 0
  {
    Sort(GroupBy(Binned(items, interval), PlusActivity), EarlierBucket)
  }

  function HourlyRows(t: Tables, observer: nat, win: Window, tail: int, interval: int): seq<(int, Activity)>
    requires interval > 0
  {
    Buckets(Source(t, observer, win, tail), interval)
  }

  /** GetObserverActivityRaw: observations alone, for buckets finer than an hour. */
  function FineRows(t: Tables, observer: nat, win: Window, interval: int): seq<(int, Activity)>
    requires interval > 0
  {
    Buckets(Collect(StoredRows(t.observations, t.packets), InWindow(observer, win.since, win.until)), interval)
  }

  function Is(bucket: int): int -> bool {
    (t: int) => t == bucket
  }

  ghost function BucketOf(rows: seq<(int, Activity)>, bucket: int): Activity {
    Total(rows, Is(bucket), PlusActivity, NO_ACTIVITY)
  }

  lemma {:induction false} BinnedTotal(items: seq<(int, Activity)>, interval: int, bucket: int)
    requires interval > 0
    ensures BucketOf(Binned(items, interval), bucket)
            == Total(items, InBucket(interval, bucket), PlusActivity, NO_ACTIVITY)
  {
    if items != [] {
      var binned := Binned(items, interval);
      assert binned[..|binned| - 1] == Binned(items[..|items| - 1], interval);
      BinnedTotal(items[..|items| - 1], interval, bucket);
    }
  }

  function Selected(sel: int -> bool): ((int, Activity)) -> Activity {
    (row: (int, Activity)) => if sel(row.0) then row.1 else NO_ACTIVITY
  }

  lemma {:induction false} TotalAsPass(rows: seq<(int, Activity)>, sel: int -> bool)
    ensures Total(rows, sel, PlusActivity, NO_ACTIVITY) == Pass(rows, Selected(sel), PlusActivity, NO_ACTIVITY)
  {
    if rows != [] {
      TotalAsPass(rows[..|rows| - 1], sel);
      NothingAdded(Total(rows[..|rows| - 1], sel, PlusActivity, NO_ACTIVITY));
    }
  }

  lemma SortedTotal(rows: seq<(int, Activity)>, sel: int -> bool)
    ensures Total(Sort(rows, EarlierBucket), sel, PlusActivity, NO_ACTIVITY)
            == Total(rows, sel, PlusActivity, NO_ACTIVITY)
  {
    ActivityMonoid();
    TotalAsPass(rows, sel);
    TotalAsPass(Sort(rows, EarlierBucket), sel);
    PassSort(rows, EarlierBucket, Selected(sel), PlusActivity, NO_ACTIVITY);
  }

  lemma BucketsTotal(items: seq<(int, Activity)>, interval: int, bucket: int)
    requires interval > 0
    ensures BucketOf(Buckets(items, interval), bucket)
            == Total(items, InBucket(interval, bucket), PlusActivity, NO_ACTIVITY)
  {
    SortedTotal(GroupBy(Binned(items, interval), PlusActivity), Is(bucket));
    ActivityGroups(Binned(items, interval), Is(bucket));
    BinnedTotal(items, interval, bucket);
  }

  /** Every bucket once, in ascending order. */
  lemma BucketsAscend(items: seq<(int, Activity)>, interval: int)
    requires interval > 0
    ensures forall i, j :: 0 <= i < j < |Buckets(items, interval)|
                           ==> Buckets(items, interval)[i].0 < Buckets(items, interval)[j].0
  {
    var groups := GroupBy(Binned(items, interval), PlusActivity);
    GroupKeys(Binned(items, interval), PlusActivity);
    SortOrders(groups, EarlierBucket);
    SortKeepsKeysApart(groups);
  }

  lemma {:induction false} SortKeepsKeysApart(groups: seq<(int, Activity)>)
    requires DistinctKeys(groups)
    ensures DistinctKeys(Sort(groups, EarlierBucket))
    ensures forall row :: row in Sort(groups, EarlierBucket) <==> row in groups
  {
    if groups != [] {
      var front, last := groups[..|groups| - 1], groups[|groups| - 1];
      assert groups == front + [last];
      SortKeepsKeysApart(front);
      forall row | row in Sort(front, EarlierBucket) ensures row.0 != last.0 {
        var i :| 0 <= i < |front| && front[i] == row;
        assert groups[i] == row;
      }
      InsertKeepsKeysApart(last, Sort(front, EarlierBucket));
    }
  }

  lemma {:induction false} InsertKeepsKeysApart(x: (int, Activity), sorted: seq<(int, Activity)>)
    requires DistinctKeys(sorted) && forall row :: row in sorted ==> row.0 != x.0
    ensures DistinctKeys(Insert(x, sorted, EarlierBucket))
    ensures forall row :: row in Insert(x, sorted, EarlierBucket) <==> row in sorted || row == x
  {
    if sorted != [] {
      var front, last := sorted[..|sorted| - 1], sorted[|sorted| - 1];
      assert sorted == front + [last];
      if !EarlierBucket(last, x) {
        InsertKeepsKeysApart(x, front);
        var inserted := Insert(x, front, EarlierBucket);
        forall i | 0 <= i < |inserted| ensures inserted[i].0 != last.0 {
          assert inserted[i] in inserted;
          if inserted[i] in front {
            var j :| 0 <= j < |front| && front[j] == inserted[i];
            assert sorted[j] == front[j];
          } else {
            assert last in sorted;
          }
        }
      }
    }
  }

  lemma GroupedTotal(rolled: seq<(int, Activity)>, raw: seq<(int, Activity)>, interval: int, bucket: int)
    requires interval > 0
    ensures BucketOf(Buckets(rolled + raw, interval), bucket)
         == PlusActivity(Total(rolled, InBucket(interval, bucket), PlusActivity, NO_ACTIVITY),
                         Total(raw, InBucket(interval, bucket), PlusActivity, NO_ACTIVITY))
  {
    BucketsTotal(rolled + raw, interval, bucket);
    ActivityConcat(rolled, raw, InBucket(interval, bucket));
  }

  lemma SourceTotal(t: Tables, observer: nat, win: Window, tail: int, interval: int, bucket: int)
    requires interval > 0
    ensures BucketOf(HourlyRows(t, observer, win, tail, interval), bucket)
         == PlusActivity(Total(RolledSource(t.content, observer, CeilHour(win.since), Min(win.until, tail)),
                               InBucket(interval, bucket),
                               PlusActivity, NO_ACTIVITY),
                         Heard(StoredRows(t.observations, t.packets), observer, Max(win.since, tail), win.until,
                               InBucket(interval, bucket)))
  {
    var stored := StoredRows(t.observations, t.packets);
    GroupedTotal(RolledSource(t.content, observer, CeilHour(win.since), Min(win.until, tail)),
                 Collect(stored, InWindow(observer, Max(win.since, tail), win.until)), interval, bucket);
    HeardIsTotal(stored, observer, Max(win.since, tail), win.until, InBucket(interval, bucket));
  }

  /** What a response bucket adds up, for any tail start, with or without gaps in the rollup: the complete hours that
      start below the tail, and what is stored from the tail on. */
  lemma StitchedBucket(w: World, observer: nat, win: Window, tail: int, interval: int, bucket: int)
    requires Inv(w) && interval > 0 && interval % HOUR == 0
    ensures BucketOf(HourlyRows(w.tables, observer, win, tail, interval), bucket)
         == PlusActivity(HeardInComplete(w, observer, CeilHour(win.since), Min(win.until, tail),
                                         InBucket(interval, bucket)),
                         Heard(StoredRows(w.tables.observations, w.tables.packets), observer, Max(win.since, tail),
                               win.until,
                               InBucket(interval, bucket)))
  {
    SourceTotal(w.tables, observer, win, tail, interval, bucket);
    RolledSourceTotal(w, observer, CeilHour(win.since), Min(win.until, tail), interval, bucket);
  }

  /** No instant is on both sides, whatever the tail: a complete hour that starts below it also ends below it,
      and inside the window when the window ends on the hour or now. */
  lemma SourcesAreDisjoint(w: World, win: Window, watermark: Option<int>, h: int, t: int)
    requires Inv(w) && IsWatermark(w.tables, watermark) && (win.until % HOUR == 0 || win.until == w.now)
    requires IsComplete(w.tables, h) && win.since <= h < Min(win.until, TailStart(watermark, win.until)) && InHour(t, h)
    ensures win.since <= t < TailStart(watermark, win.until) && t < win.until
  {
    if win.until % HOUR == 0 && win.until < h + HOUR {
      HourOfInstant(win.until, h);
      HourOfInstant(win.until, win.until);
    }
  }

  lemma TruncateHours(t: int, interval: int)
    requires interval > 0 && interval % HOUR == 0
    ensures Truncate(t, interval) % HOUR == 0
  {
    var x := t + ZERO_MICROS;
    var n, q := interval / HOUR, x / interval;
    assert ZERO_MICROS % HOUR == 0;
    assert Truncate(t, interval) == q * interval - ZERO_MICROS;
    assert q * interval == (q * n) * HOUR;
    DivUnique(q * interval - ZERO_MICROS, HOUR, q * n - ZERO_MICROS / HOUR, 0);
  }

  /** Finer buckets read stored rows only: each bucket is one pass over them, and over everything ever heard when
      cleanup has not reached the window. */
  lemma RawBucketIsExact(w: World, observer: nat, win: Window, interval: int, bucket: int)
    requires Inv(w) && interval > 0
    ensures BucketOf(FineRows(w.tables, observer, win, interval), bucket)
         == Heard(StoredRows(w.tables.observations, w.tables.packets), observer, win.since, win.until,
                  InBucket(interval, bucket))
    ensures Intact(w.tables, TruncHour(win.since)) ==>
              BucketOf(FineRows(w.tables, observer, win, interval), bucket)
              == Heard(w.ever, observer, win.since, win.until, InBucket(interval, bucket))
  {
    var stored := StoredRows(w.tables.observations, w.tables.packets);
    BucketsTotal(Collect(stored, InWindow(observer, win.since, win.until)), interval, bucket);
    HeardIsTotal(stored, observer, win.since, win.until, InBucket(interval, bucket));
    if Intact(w.tables, TruncHour(win.since)) {
      StoredTail(w, observer, win.since, win.until, InBucket(interval, bucket));
    }
  }

  /** When every hour of the window below the tail is complete and cleanup has not reached the tail, each bucket is the
      pure raw aggregate of everything ever heard in it. */
  lemma ActivityIsExact(w: World, observer: nat, window: int, interval: int, until: Option<int>,
                        watermark: Option<int>, bucket: int)
    requires Inv(w) && interval > 0 && interval % HOUR == 0 && window > 0 && IsWatermark(w.tables, watermark)
    requires var win := WindowOf(window, interval, until, w.now);
             var tail := TailStart(watermark, win.until);
             && (forall h :: h % HOUR == 0 && win.since <= h < Min(win.until, tail) ==> IsComplete(w.tables, h))
             && Intact(w.tables, TruncHour(Max(win.since, tail)))
             && win.since <= win.until
    ensures var win := WindowOf(window, interval, until, w.now);
            BucketOf(HourlyRows(w.tables, observer, win, TailStart(watermark, win.until), interval), bucket)
            == Heard(w.ever, observer, win.since, win.until, InBucket(interval, bucket))
  {
    AlignedWindow(window, interval, until, w.now);
    ExactForWindow(w, observer, WindowOf(window, interval, until, w.now), interval, watermark, bucket);
  }

  lemma AlignedSum(a: int, b: int)
    requires a % HOUR == 0 && b % HOUR == 0
    ensures (a + b) % HOUR == 0
  {
    DivUnique(a + b, HOUR, a / HOUR + b / HOUR, 0);
  }

  lemma AlignedWindow(window: int, interval: int, until: Option<int>, now: int)
    requires interval > 0 && interval % HOUR == 0
    ensures var win := WindowOf(window, interval, until, now);
            win.since % HOUR == 0 && (win.until % HOUR == 0 || win.until == now)
  {
    var start := WindowOf(window, interval, until, now).until - window;
    TruncateHours(start, interval);
    AlignedSum(Truncate(start, interval), interval);
    if until.Some? { TruncateHours(until.value, interval); }
  }

  lemma ExactForWindow(w: World, observer: nat, win: Window, interval: int, watermark: Option<int>, bucket: int)
    requires Inv(w) && interval > 0 && interval % HOUR == 0 && IsWatermark(w.tables, watermark)
             && win.since <= win.until
    requires win.since % HOUR == 0 && (win.until % HOUR == 0 || win.until == w.now)
    requires forall h :: h % HOUR == 0 && win.since <= h < Min(win.until, TailStart(watermark, win.until))
                         ==> IsComplete(w.tables, h)
    requires Intact(w.tables, TruncHour(Max(win.since, TailStart(watermark, win.until))))
    ensures BucketOf(HourlyRows(w.tables, observer, win, TailStart(watermark, win.until), interval), bucket)
            == Heard(w.ever, observer, win.since, win.until, InBucket(interval, bucket))
  {
    StitchedBucket(w, observer, win, TailStart(watermark, win.until), interval, bucket);
    StitchedIsAll(w, observer, win, watermark, InBucket(interval, bucket));
  }

  lemma StitchedIsAll(w: World, observer: nat, win: Window, watermark: Option<int>, sel: int -> bool)
    requires Inv(w) && IsWatermark(w.tables, watermark) && win.since % HOUR == 0
             && (win.until % HOUR == 0 || win.until == w.now)
    requires forall h :: h % HOUR == 0 && win.since <= h < Min(win.until, TailStart(watermark, win.until))
                         ==> IsComplete(w.tables, h)
    requires Intact(w.tables, TruncHour(Max(win.since, TailStart(watermark, win.until)))) && win.since <= win.until
    ensures var tail := TailStart(watermark, win.until);
            PlusActivity(HeardInComplete(w, observer, win.since, Min(win.until, tail), sel),
                         Heard(StoredRows(w.tables.observations, w.tables.packets), observer, Max(win.since, tail),
                               win.until, sel))
            == Heard(w.ever, observer, win.since, win.until, sel)
  {
    var tail := TailStart(watermark, win.until);
    var to := Min(win.until, tail);
    StoredTail(w, observer, Max(win.since, tail), win.until, sel);
    RolledPart(w, observer, win, watermark, sel);
    Assemble(w.ever, observer, win, tail, sel, HeardInComplete(w, observer, win.since, to, sel),
             Heard(StoredRows(w.tables.observations, w.tables.packets), observer, Max(win.since, tail), win.until,
                   sel));
  }

  lemma Assemble(rows: seq<Row>, observer: nat, win: Window, tail: int, sel: int -> bool, rolled: Activity,
                 raw: Activity)
    requires win.since <= win.until
    requires rolled == if win.since < Min(win.until, tail)
             then Heard(rows, observer, win.since, Min(win.until, tail), sel) else NO_ACTIVITY
    requires raw == Heard(rows, observer, Max(win.since, tail), win.until, sel)
    ensures PlusActivity(rolled, raw) == Heard(rows, observer, win.since, win.until, sel)
  {
    if win.since < Min(win.until, tail) {
      TwoParts(rows, observer, win.since, tail, win.until, sel);
    } else if win.since < tail {
      HeardNothing(rows, observer, win.since, win.until, sel);
      HeardNothing(rows, observer, tail, win.until, sel);
    } else {
      NothingAdded(raw);
    }
  }

  lemma RolledPart(w: World, observer: nat, win: Window, watermark: Option<int>, sel: int -> bool)
    requires Inv(w) && IsWatermark(w.tables, watermark) && win.since % HOUR == 0
             && (win.until % HOUR == 0 || win.until == w.now)
    requires forall h :: h % HOUR == 0 && win.since <= h < Min(win.until, TailStart(watermark, win.until))
                         ==> IsComplete(w.tables, h)
    ensures var to := Min(win.until, TailStart(watermark, win.until));
            HeardInComplete(w, observer, win.since, to, sel)
            == if win.since < to then Heard(w.ever, observer, win.since, to, sel) else NO_ACTIVITY
  {
    var to := Min(win.until, TailStart(watermark, win.until));
    if win.since < to {
      TailOnTheHour(w, win, watermark);
      AllComplete(w, observer, win.since, to, sel);
    }
  }

  lemma TwoParts(rows: seq<Row>, observer: nat, since: int, tail: int, until: int, sel: int -> bool)
    requires since <= Min(until, tail)
    ensures PlusActivity(Heard(rows, observer, since, Min(until, tail), sel), Heard(rows, observer, tail, until, sel))
         == Heard(rows, observer, since, until, sel)
  {
    if tail >= until {
      HeardNothing(rows, observer, tail, until, sel);
      NothingAdded(Heard(rows, observer, since, until, sel));
    } else {
      HeardSplit(rows, observer, since, tail, until, sel);
    }
  }

  lemma TailOnTheHour(w: World, win: Window, watermark: Option<int>)
    requires Inv(w) && IsWatermark(w.tables, watermark) && win.since % HOUR == 0
    requires win.until % HOUR == 0 || win.until == w.now
    requires var tail := TailStart(watermark, win.until);
             && win.since < Min(win.until, tail)
             && forall h :: h % HOUR == 0 && win.since <= h < Min(win.until, tail) ==> IsComplete(w.tables, h)
    ensures Min(win.until, TailStart(watermark, win.until)) % HOUR == 0
  {
    var tail := TailStart(watermark, win.until);
    var to := Min(win.until, tail);
    var last := TruncHour(to - 1);
    assert win.since <= last by {
      if last < win.since { HourOfInstant(win.since, last); HourOfInstant(win.since, win.since); }
    }
    assert IsComplete(w.tables, last);
  }

  // ---- the response ----

  datatype Point = Point(t: int, observations: int, airtimeMs: Option<real>, snrAvg: Option<real>,
                         snrMin: Option<real>, rssiAvg: Option<real>)

  function PointOf(row: (int, Activity)): Point {
    var a := row.1;
    Point(row.0, a.observations, if a.airtimeN > 0 then Some(a.airtimeMs) else None,
          if a.snrN > 0 then Some(a.snrSum / (a.snrN as real)) else None,
          if a.snrN > 0 then Some(if a.snrMin.Some? then a.snrMin.value else 0.0) else None,
          if a.rssiN > 0 then Some(a.rssiSum as real / (a.rssiN as real)) else None)
  }

  function Every(t: int): bool {
    true
  }

  /** The points of the grouped rows, and the summary that counts them. */
  method Points(rows: seq<(int, Activity)>) returns (points: seq<Point>, recorded: int)
    ensures |points| == |rows| && forall i :: 0 <= i < |rows| ==> points[i] == PointOf(rows[i])
    ensures recorded == Total(rows, Every, PlusActivity, NO_ACTIVITY).observations
  {
    points, recorded := [], 0;
    for i := 0 to |rows|
      invariant |points| == i && forall j :: 0 <= j < i ==> points[j] == PointOf(rows[j])
      invariant recorded == Total(rows[..i], Every, PlusActivity, NO_ACTIVITY).observations
    {
      assert rows[..i + 1][..i] == rows[..i];
      points := points + [PointOf(rows[i])];
      recorded := recorded + rows[i].1.observations;
    }
    assert rows[..|rows|] == rows;
  }

  datatype ActivityResponse = ActivityResponse(windowStart: int, windowEnd: int, hourly: bool, rawFrom: Option<int>,
                                               rolledUntil: Option<int>,
                                               points: seq<Point>, recorded: int)

  /** GetLatestCompleteRollupHour. */
  method LatestComplete(t: Tables) returns (watermark: Option<int>)
    ensures IsWatermark(t, watermark)
  {
    var todo := set h | h in t.hours && IsComplete(t, h);
    watermark := None;
    while todo != {}
      invariant forall h :: IsComplete(t, h) ==> h in todo || (watermark.Some? && h <= watermark.value)
      invariant todo <= t.hours.Keys && forall h :: h in todo ==> IsComplete(t, h)
      invariant watermark.Some? ==> IsComplete(t, watermark.value)
      decreases todo
    {
      var h: int :| h in todo;
      if watermark.None? || watermark.value < h {
        watermark := Some(h);
      }
      todo := todo - {h};
    }
  }

  /** What a response says of the rows it was built from. */
  ghost predicate Reports(activity: ActivityResponse, rows: seq<(int, Activity)>) {
    && |activity.points| == |rows| && (forall i :: 0 <= i < |rows| ==> activity.points[i] == PointOf(rows[i]))
    && activity.recorded == Total(rows, Every, PlusActivity, NO_ACTIVITY).observations
  }

  ghost predicate ReportsHourly(activity: ActivityResponse, t: Tables, observer: nat, win: Window, interval: int,
                                watermark: Option<int>)
    requires interval > 0
  {
    && Reports(activity, HourlyRows(t, observer, win, TailStart(watermark, win.until), interval))
    && activity.windowStart == win.since && activity.windowEnd == win.until && activity.hourly
    && activity.rawFrom == Some(TailStart(watermark, win.until))
    && activity.rolledUntil == if watermark.None? then None else Some(watermark.value + HOUR)
  }

  ghost predicate ReportsFine(activity: ActivityResponse, t: Tables, observer: nat, win: Window, interval: int)
    requires interval > 0
  {
    && Reports(activity, FineRows(t, observer, win, interval))
    && activity.windowStart == win.since && activity.windowEnd == win.until && !activity.hourly
    && activity.rawFrom == None && activity.rolledUntil == None
  }

  /** The hourly branch: the watermark and the rows are two statements, which may each see a state of their own. */
  method ReadHourly(atWatermark: Tables, atRows: Tables, observer: nat, win: Window, interval: int)
    returns (activity: ActivityResponse)
    requires interval > 0
    ensures exists watermark ::
              IsWatermark(atWatermark, watermark) && ReportsHourly(activity, atRows, observer, win, interval, watermark)
  {
    var latest := LatestComplete(atWatermark);
    var tailStart := win.until - RAW_TAIL;
    var rolledUntil := None;
    if latest.Some? {
      rolledUntil := Some(latest.value + HOUR);
      if rolledUntil.value > tailStart {
        tailStart := rolledUntil.value;
      }
    }
    var points, recorded := Points(HourlyRows(atRows, observer, win, tailStart, interval));
    activity := ActivityResponse(win.since, win.until, true, Some(tailStart), rolledUntil, points, recorded);
    assert ReportsHourly(activity, atRows, observer, win, interval, latest);
  }

  /** The branch for finer buckets. */
  method ReadFine(t: Tables, observer: nat, win: Window, interval: int) returns (activity: ActivityResponse)
    requires interval > 0
    ensures ReportsFine(activity, t, observer, win, interval)
  {
    var points, recorded := Points(FineRows(t, observer, win, interval));
    activity := ActivityResponse(win.since, win.until, false, None, None, points, recorded);
  }

  /** The window of whole intervals inside the one asked for. */
  method AlignWindow(window: int, interval: int, requested: Option<int>, now: int) returns (win: Window)
    ensures win == WindowOf(window, interval, requested, now)
  {
    var until := now;
    if requested.Some? {
      until := Truncate(requested.value, interval);
    }
    var since := until - window;
    if since != Truncate(since, interval) {
      since := Truncate(since, interval) + interval;
    }
    win := Window(since, until);
  }

  /** GetObserverActivity: the aligned window, then rollups with a raw tail or observations alone. now is the clock at
      the start, atWatermark and atRows the tables at the two reads. */
  method GetObserverActivity(atWatermark: Tables, atRows: Tables, observer: nat, window: int, interval: int,
                             requested: Option<int>,
                             now: int)
    returns (activity: ActivityResponse)
    requires interval > 0
    ensures var win := WindowOf(window, interval, requested, now);
            if interval >= HOUR then
              exists watermark ::
                IsWatermark(atWatermark, watermark)
                    && ReportsHourly(activity, atRows, observer, win, interval, watermark)
            else ReportsFine(activity, atRows, observer, win, interval)
  {
    var win := AlignWindow(window, interval, requested, now);
    if interval >= HOUR {
      activity := ReadHourly(atWatermark, atRows, observer, win, interval);
    } else {
      activity := ReadFine(atRows, observer, win, interval);
    }
  }
}
