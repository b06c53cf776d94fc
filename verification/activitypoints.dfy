/** What an activity response says of the observations behind it: every point, average, minimum and total. */
module ActivityPoints {
  import opened Base
  import opened Grouping
  import opened Sorting
  import opened Families
  import opened World
  import opened Protocol
  import opened RunTheorems
  import opened HourFold
  import opened RowColumns
  import opened ObserverActivityRead
  import opened ActivityOnce

  // ---- sums over observations ----

  /** The sum of a column over the rows that report it. */
  ghost function SumOf(rows: seq<Row>, has: Row -> bool, value: Row -> real): real {
    if rows == [] then 0.0
    else
      var last := rows[|rows| - 1];
      SumOf(rows[..|rows| - 1], has, value) + if has(last) then value(last) else 0.0
  }

  ghost function CountOf(rows: seq<Row>, has: Row -> bool): nat {
    |Filter(rows, has)|
  }

  ghost function WithAirtime(): Row -> bool { (r: Row) => r.airtimeMs.Some? }
  ghost function WithSnr(): Row -> bool { (r: Row) => HasSnr(r) }
  ghost function WithRssi(): Row -> bool { (r: Row) => HasRssi(r) }
  ghost function Airtime(): Row -> real { (r: Row) => if r.airtimeMs.Some? then r.airtimeMs.value else 0.0 }
  ghost function Snr(): Row -> real { (r: Row) => if r.snr.Some? then r.snr.value else 0.0 }
  ghost function Rssi(): Row -> real { (r: Row) => if r.rssi.Some? then r.rssi.value as real else 0.0 }

  // ---- what a point says ----

  ghost predicate Reported(rows: seq<Row>, has: Row -> bool) {
    exists r :: r in rows && has(r)
  }

  /** The average of a column over the rows that report it: times their number it is their sum, and two of them
      enclose it. */
  ghost predicate IsAverage(average: Option<real>, rows: seq<Row>, has: Row -> bool, value: Row -> real) {
    && (average.Some? <==> Reported(rows, has))
    && (average.Some? ==>
          && average.value * (CountOf(rows, has) as real) == SumOf(rows, has, value)
          && (exists r :: r in rows && has(r) && value(r) <= average.value)
          && (exists r :: r in rows && has(r) && average.value <= value(r)))
  }

  /** A point, by the observations of its bucket. */
  ghost predicate PointSays(p: Point, rows: seq<Row>) {
    && p.observations == |rows| && rows != []
    && (p.airtimeMs.Some? <==> Reported(rows, WithAirtime()))
    && (p.airtimeMs.Some? ==> p.airtimeMs.value == SumOf(rows, WithAirtime(), Airtime()))
    && IsAverage(p.snrAvg, rows, WithSnr(), Snr())
    && (p.snrMin.Some? <==> Reported(rows, WithSnr()))
    && (p.snrMin.Some? ==>
          && (exists r :: r in rows && HasSnr(r) && r.snr == p.snrMin)
          && (forall r :: r in rows && HasSnr(r) ==> p.snrMin.value <= r.snr.value))
    && IsAverage(p.rssiAvg, rows, WithRssi(), Rssi())
  }

  // ---- what a grouped row sums ----

  /** An aggregate of rows, field by field. */
  ghost predicate Sums(a: Activity, rows: seq<Row>) {
    && a.observations == |rows|
    && a.airtimeN == CountOf(rows, WithAirtime()) && a.airtimeMs == SumOf(rows, WithAirtime(), Airtime())
    && a.snrN == CountOf(rows, WithSnr()) && a.snrSum == SumOf(rows, WithSnr(), Snr())
    && a.rssiN == CountOf(rows, WithRssi()) && a.rssiSum as real == SumOf(rows, WithRssi(), Rssi())
    && (a.snrMin.Some? <==> Reported(rows, WithSnr()))
    && (a.snrMin.Some? ==>
          && (exists r :: r in rows && HasSnr(r) && r.snr == a.snrMin)
          && (forall r :: r in rows && HasSnr(r) ==> a.snrMin.value <= r.snr.value))
  }

  lemma SumsSnoc(a: Activity, rows: seq<Row>, r: Row)
    requires Sums(a, rows)
    ensures Sums(PlusActivity(a, ActivityOf(r)), rows + [r])
  {
    var all := rows + [r];
    assert all[..|all| - 1] == rows;
    SnrOfColumns(r);
    RssiOfColumns(r);
    var b := PlusActivity(a, ActivityOf(r));
    assert r in all;
    if a.snrMin.Some? {
      var s :| s in rows && HasSnr(s) && s.snr == a.snrMin;
      assert s in all;
    }
    if Reported(rows, WithSnr()) {
      var s :| s in rows && WithSnr()(s);
      assert s in all && WithSnr()(s);
    }
    assert WithSnr()(r) == HasSnr(r);
    if Reported(all, WithSnr()) {
      var s :| s in all && WithSnr()(s);
      if s != r { assert s in rows; }
    }
  }

  lemma {:induction false} PassSums(rows: seq<Row>)
    ensures Sums(Pass(rows, ActivityOf, PlusActivity, NO_ACTIVITY), rows)
  {
    if rows != [] {
      var front, last := rows[..|rows| - 1], rows[|rows| - 1];
      PassSums(front);
      SumsSnoc(Pass(front, ActivityOf, PlusActivity, NO_ACTIVITY), front, last);
      assert rows == front + [last];
    }
  }

  function AtInstants(sel: int -> bool): Row -> bool {
    (r: Row) => sel(r.heardAt)
  }

  lemma WantedSums(rows: seq<Row>, sel: int -> bool)
    ensures Sums(Pass(rows, Wanted(sel), PlusActivity, NO_ACTIVITY), Filter(rows, AtInstants(sel)))
  {
    var p := AtInstants(sel);
    forall r | r in rows ensures Wanted(sel)(r) == if p(r) then ActivityOf(r) else NO_ACTIVITY {
      assert Wanted(sel)(r) == If(sel(r.heardAt), ActivityOf(r));
    }
    PassFilter(rows, p, ActivityOf, Wanted(sel));
    PassSums(Filter(rows, p));
  }

  // ---- averages ----

  lemma {:induction false} Least(rows: seq<Row>, has: Row -> bool, value: Row -> real) returns (lo: Row)
    requires Reported(rows, has)
    ensures lo in rows && has(lo) && forall r :: r in rows && has(r) ==> value(lo) <= value(r)
  {
    var front, last := rows[..|rows| - 1], rows[|rows| - 1];
    assert rows == front + [last];
    lo := last;
    if Reported(front, has) {
      lo := Least(front, has, value);
      if has(last) && value(last) < value(lo) { lo := last; }
    } else {
      assert forall r :: r in front ==> !has(r);
    }
  }

  function Negated(value: Row -> real): Row -> real {
    (r: Row) => -value(r)
  }

  lemma Greatest(rows: seq<Row>, has: Row -> bool, value: Row -> real) returns (hi: Row)
    requires Reported(rows, has)
    ensures hi in rows && has(hi) && forall r :: r in rows && has(r) ==> value(r) <= value(hi)
  {
    hi := Least(rows, has, Negated(value));
    forall r | r in rows && has(r) ensures value(r) <= value(hi) {
      assert Negated(value)(hi) <= Negated(value)(r);
    }
  }

  function Times(n: nat, x: real): real {
    if n == 0 then 0.0 else Times(n - 1, x) + x
  }

  lemma {:induction false} TimesIsProduct(n: nat, x: real)
    ensures Times(n, x) == (n as real) * x
  {
    if n > 0 {
      TimesIsProduct(n - 1, x);
      assert n as real == (n - 1) as real + 1.0;
      Distributes((n - 1) as real, x);
    }
  }

  lemma Distributes(k: real, x: real)
    ensures (k + 1.0) * x == k * x + x
  {
  }

  lemma {:induction false} SumBetween(rows: seq<Row>, has: Row -> bool, value: Row -> real, lo: real, hi: real)
    requires forall r :: r in rows && has(r) ==> lo <= value(r) <= hi
    ensures Times(CountOf(rows, has), lo) <= SumOf(rows, has, value) <= Times(CountOf(rows, has), hi)
  {
    if rows != [] {
      assert rows == rows[..|rows| - 1] + [rows[|rows| - 1]];
      SumBetween(rows[..|rows| - 1], has, value, lo, hi);
    }
  }

  lemma {:induction false} CountReported(rows: seq<Row>, has: Row -> bool)
    ensures CountOf(rows, has) > 0 <==> Reported(rows, has)
  {
    if rows != [] {
      var front, last := rows[..|rows| - 1], rows[|rows| - 1];
      assert rows == front + [last];
      CountReported(front, has);
      assert last in rows;
      if r :| r in front && has(r) { assert r in rows; }
    }
  }

  lemma MeanBetween(mean: real, sum: real, n: nat, lo: real, hi: real)
    requires n > 0 && mean * (n as real) == sum && Times(n, lo) <= sum <= Times(n, hi)
    ensures lo <= mean <= hi
  {
    TimesIsProduct(n, lo);
    TimesIsProduct(n, hi);
    var k := n as real;
    assert (mean - lo) * k == sum - k * lo && (hi - mean) * k == k * hi - sum;
    SignOfProduct(mean - lo, k);
    SignOfProduct(hi - mean, k);
  }

  lemma Quotient(sum: real, n: nat)
    requires n > 0
    ensures sum / (n as real) * (n as real) == sum
  {
  }

  lemma AverageOf(average: Option<real>, rows: seq<Row>, has: Row -> bool, value: Row -> real)
    requires average.Some? <==> CountOf(rows, has) > 0
    requires average.Some? ==> average.value * (CountOf(rows, has) as real) == SumOf(rows, has, value)
    ensures IsAverage(average, rows, has, value)
  {
    CountReported(rows, has);
    if Reported(rows, has) {
      var lo := Least(rows, has, value);
      var hi := Greatest(rows, has, value);
      SumBetween(rows, has, value, value(lo), value(hi));
      MeanBetween(average.value, SumOf(rows, has, value), CountOf(rows, has), value(lo), value(hi));
      Enclosed(average, rows, has, value, lo, hi);
    }
  }

  lemma Enclosed(average: Option<real>, rows: seq<Row>, has: Row -> bool, value: Row -> real, lo: Row, hi: Row)
    requires average.Some? && average.value * (CountOf(rows, has) as real) == SumOf(rows, has, value)
    requires lo in rows && hi in rows && has(lo) && has(hi) && value(lo) <= average.value <= value(hi)
    ensures IsAverage(average, rows, has, value)
  {
  }

  lemma MeanOfSum(sum: real, n: int, rows: seq<Row>, has: Row -> bool, value: Row -> real)
    requires n == CountOf(rows, has) && sum == SumOf(rows, has, value)
    ensures IsAverage(if n > 0 then Some(sum / (n as real)) else None, rows, has, value)
  {
    if n > 0 { Quotient(sum, n); }
    AverageOf(if n > 0 then Some(sum / (n as real)) else None, rows, has, value);
  }

  lemma PointOfSums(t: int, a: Activity, rows: seq<Row>)
    requires Sums(a, rows) && a.observations > 0
    ensures PointSays(PointOf((t, a)), rows)
  {
    var p := PointOf((t, a));
    CountReported(rows, WithAirtime());
    CountReported(rows, WithSnr());
    MeanOfSum(a.snrSum, a.snrN, rows, WithSnr(), Snr());
    MeanOfSum(a.rssiSum as real, a.rssiN, rows, WithRssi(), Rssi());
  }

  // ---- the list of points ----

  /** The observations of the bucket that starts at t. */
  ghost function InBin(rows: seq<Row>, interval: int, t: int): seq<Row> {
    Filter(rows, (r: Row) => t <= r.heardAt < t + interval)
  }

  /** Points in ascending order, on multiples of the interval, each for its observations, and one for every
      observation. */
  ghost predicate ListSays(points: seq<Point>, rows: seq<Row>, interval: int) {
    && (forall i, j :: 0 <= i < j < |points| ==> points[i].t < points[j].t)
    && (forall i :: 0 <= i < |points| ==>
          interval != 0 && points[i].t % interval == 0 && PointSays(points[i], InBin(rows, interval, points[i].t)))
    && (forall r :: r in rows ==> exists i :: 0 <= i < |points| && points[i].t <= r.heardAt < points[i].t + interval)
  }

  lemma BinIs(interval: int, t: int, bin: int)
    requires interval > 0
    ensures DateBin(interval, t) == bin <==> bin % interval == 0 && bin <= t < bin + interval
  {
    var q := t / interval;
    assert t == q * interval + t % interval;
    DivUnique(q * interval, interval, q, 0);
    if bin % interval == 0 && bin <= t < bin + interval {
      assert t == bin / interval * interval + (t - bin);
      DivUnique(t, interval, bin / interval, t - bin);
    }
  }

  lemma {:induction false} BucketAbsent(rows: seq<(int, Activity)>, b: int)
    requires forall i :: 0 <= i < |rows| ==> rows[i].0 != b
    ensures BucketOf(rows, b) == NO_ACTIVITY
  {
    if rows != [] { BucketAbsent(rows[..|rows| - 1], b); }
  }

  lemma {:induction false} BucketAt(rows: seq<(int, Activity)>, k: nat)
    requires k < |rows| && forall i, j :: 0 <= i < j < |rows| ==> rows[i].0 < rows[j].0
    ensures BucketOf(rows, rows[k].0) == rows[k].1
  {
    var front, last := rows[..|rows| - 1], rows[|rows| - 1];
    if k == |front| {
      BucketAbsent(front, last.0);
      NothingAdded(last.1);
    } else {
      BucketAt(front, k);
    }
  }

  ghost predicate AllHeard<K>(items: seq<(K, Activity)>) {
    forall i :: 0 <= i < |items| ==> items[i].1.observations > 0
  }

  lemma {:induction false} AddHeard<K>(groups: seq<(K, Activity)>, key: K, value: Activity)
    requires AllHeard(groups) && value.observations > 0
    ensures AllHeard(Add(groups, key, value, PlusActivity))
  {
    if groups != [] {
      var front, last := groups[..|groups| - 1], groups[|groups| - 1];
      if last.0 == key {
        OneCounts(last.1, value);
      } else {
        AddHeard(front, key, value);
      }
    }
  }

  lemma {:induction false} GroupsHeard<K>(items: seq<(K, Activity)>)
    requires AllHeard(items)
    ensures AllHeard(GroupBy(items, PlusActivity))
  {
    if items != [] {
      var front := items[..|items| - 1];
      GroupsHeard(front);
      AddHeard(GroupBy(front, PlusActivity), items[|items| - 1].0, items[|items| - 1].1);
    }
  }

  lemma BucketsHeard(items: seq<(int, Activity)>, interval: int)
    requires interval > 0 && AllHeard(items)
    ensures AllHeard(Buckets(items, interval))
  {
    var groups := GroupBy(Binned(items, interval), PlusActivity);
    GroupsHeard(Binned(items, interval));
    GroupKeys(Binned(items, interval), PlusActivity);
    SortKeepsKeysApart(groups);
    var rows := Buckets(items, interval);
    forall i | 0 <= i < |rows| ensures rows[i].1.observations > 0 {
      assert rows[i] in rows;
      var j :| 0 <= j < |groups| && groups[j] == rows[i];
    }
  }

  /** The rows of the query hold exactly these observations, bucket by bucket. */
  ghost predicate Holds(items: seq<(int, Activity)>, rows: seq<Row>, interval: int)
    requires interval > 0
  {
    && AllHeard(items)
    && forall b ::
         BucketOf(Buckets(items, interval), b) == Pass(rows, Wanted(InBucket(interval, b)), PlusActivity, NO_ACTIVITY)
  }

  lemma BinRows(rows: seq<Row>, interval: int, b: int)
    requires interval > 0 && b % interval == 0
    ensures Filter(rows, AtInstants(InBucket(interval, b))) == InBin(rows, interval, b)
  {
    forall r: Row ensures InBucket(interval, b)(r.heardAt) <==> b <= r.heardAt < b + interval {
      BinIs(interval, r.heardAt, b);
    }
    FilterAgrees(rows, AtInstants(InBucket(interval, b)), (r: Row) => b <= r.heardAt < b + interval);
  }

  lemma RowSays(items: seq<(int, Activity)>, rows: seq<Row>, interval: int, i: nat)
    requires interval > 0 && Holds(items, rows, interval) && i < |Buckets(items, interval)|
    ensures var g := Buckets(items, interval)[i];
            g.0 % interval == 0 && PointSays(PointOf(g), InBin(rows, interval, g.0))
  {
    var g := Buckets(items, interval)[i];
    BucketsAscend(items, interval);
    BucketsHeard(items, interval);
    BucketAt(Buckets(items, interval), i);
    WantedSums(rows, InBucket(interval, g.0));
    var here := Filter(rows, AtInstants(InBucket(interval, g.0)));
    assert |here| > 0;
    FilterMember(rows, AtInstants(InBucket(interval, g.0)), here[0]);
    BinIs(interval, here[0].heardAt, g.0);
    BinRows(rows, interval, g.0);
    PointOfSums(g.0, g.1, here);
  }

  lemma RowIsListed(items: seq<(int, Activity)>, rows: seq<Row>, interval: int, r: Row)
    requires interval > 0 && Holds(items, rows, interval) && r in rows
    ensures exists i ::
              0 <= i < |Buckets(items, interval)| && Buckets(items, interval)[i].0 == DateBin(interval, r.heardAt)
  {
    var b, all := DateBin(interval, r.heardAt), Buckets(items, interval);
    var sel := InBucket(interval, b);
    WantedSums(rows, sel);
    FilterMember(rows, AtInstants(sel), r);
    if forall i :: 0 <= i < |all| ==> all[i].0 != b { BucketAbsent(all, b); }
  }

  lemma ListFromRows(items: seq<(int, Activity)>, rows: seq<Row>, interval: int, points: seq<Point>)
    requires interval > 0 && Holds(items, rows, interval) && |points| == |Buckets(items, interval)|
    requires forall i :: 0 <= i < |points| ==> points[i] == PointOf(Buckets(items, interval)[i])
    ensures ListSays(points, rows, interval)
  {
    BucketsAscend(items, interval);
    forall i | 0 <= i < |points|
      ensures points[i].t % interval == 0 && PointSays(points[i], InBin(rows, interval, points[i].t))
    {
      RowSays(items, rows, interval, i);
    }
    forall r | r in rows ensures exists i :: 0 <= i < |points| && points[i].t <= r.heardAt < points[i].t + interval {
      RowIsListed(items, rows, interval, r);
      var i :| 0 <= i < |points| && points[i].t == DateBin(interval, r.heardAt);
      BinIs(interval, r.heardAt, points[i].t);
    }
  }

  // ---- where the rows of a request come from ----

  lemma {:induction false} RolledItemsHeard(rows: seq<(ActivityKey, Activity)>, observer: nat, h: int)
    requires AllHeard(rows)
    ensures AllHeard(RolledItems(rows, observer, h))
  {
    if rows != [] { RolledItemsHeard(rows[..|rows| - 1], observer, h); }
  }

  lemma {:induction false} CollectHeard<K>(rows: seq<Row>, f: Row -> Option<(K, Activity)>)
    requires forall r: Row :: f(r).Some? ==> f(r).value.1.observations > 0
    ensures AllHeard(Collect(rows, f))
  {
    if rows != [] { CollectHeard(rows[..|rows| - 1], f); }
  }

  lemma RolledAtHeard(w: World, observer: nat, h: int)
    requires Inv(w)
    ensures AllHeard(RolledAt(w.tables.content, observer, h))
  {
    if h in w.tables.content {
      var rows := RowsIn(w.ever, h);
      ExactFamily(w.tables.content[h], rows, ObserverActivity);
      CollectHeard(rows, ActivityItem);
      GroupsHeard(Collect(rows, ActivityItem));
      RolledItemsHeard(w.tables.content[h][ObserverActivity].activity, observer, h);
    }
  }

  lemma {:induction false} RolledSourceHeard(w: World, observer: nat, from: int, to: int)
    requires Inv(w)
    ensures AllHeard(RolledSource(w.tables.content, observer, from, to))
    decreases Max(to - from, 0)
  {
    if from < to {
      RolledAtHeard(w, observer, from);
      RolledSourceHeard(w, observer, from + HOUR, to);
    }
  }

  lemma SourceHolds(w: World, observer: nat, win: Window, tail: int, interval: int)
    requires Inv(w) && interval > 0 && interval % HOUR == 0
    ensures Holds(Source(w.tables, observer, win, tail), Counted(w, observer, win, tail), interval)
  {
    RolledSourceHeard(w, observer, CeilHour(win.since), Min(win.until, tail));
    CollectHeard(Stored(w), InWindow(observer, Max(win.since, tail), win.until));
    forall b
      ensures BucketOf(HourlyRows(w.tables, observer, win, tail, interval), b)
           == Pass(Counted(w, observer, win, tail), Wanted(InBucket(interval, b)), PlusActivity, NO_ACTIVITY)
    {
      StitchedIsCounted(w, observer, win, tail, interval, b);
    }
  }

  /** The stored observations of the observer in a window. */
  ghost function StoredIn(w: World, observer: nat, win: Window): seq<Row> {
    Filter(Stored(w), (r: Row) => r.observer == observer && win.since <= r.heardAt < win.until)
  }

  lemma FineHolds(w: World, observer: nat, win: Window, interval: int)
    requires Inv(w) && interval > 0
    ensures Holds(Collect(Stored(w), InWindow(observer, win.since, win.until)), StoredIn(w, observer, win), interval)
  {
    CollectHeard(Stored(w), InWindow(observer, win.since, win.until));
    FilterAgrees(Stored(w), (r: Row) => r.observer == observer && win.since <= r.heardAt < win.until,
                 InWindowOf(observer, win));
    forall b
      ensures BucketOf(FineRows(w.tables, observer, win, interval), b)
           == Pass(StoredIn(w, observer, win), Wanted(InBucket(interval, b)), PlusActivity, NO_ACTIVITY)
    {
      RawBucketIsExact(w, observer, win, interval, b);
      AllInWindow(Stored(w), observer, win, InBucket(interval, b));
    }
  }

  // ---- the recorded total ----

  lemma {:induction false} BinnedEvery(items: seq<(int, Activity)>, interval: int)
    requires interval > 0
    ensures Total(Binned(items, interval), Every, PlusActivity, NO_ACTIVITY)
         == Total(items, Every, PlusActivity, NO_ACTIVITY)
  {
    if items != [] {
      var binned := Binned(items, interval);
      assert binned[..|binned| - 1] == Binned(items[..|items| - 1], interval);
      BinnedEvery(items[..|items| - 1], interval);
    }
  }

  lemma EveryTotal(items: seq<(int, Activity)>, interval: int)
    requires interval > 0
    ensures Total(ObserverActivityRead.Buckets(items, interval), Every, PlusActivity, NO_ACTIVITY)
         == Total(items, Every, PlusActivity, NO_ACTIVITY)
  {
    SortedTotal(GroupBy(Binned(items, interval), PlusActivity), Every);
    ActivityGroups(Binned(items, interval), Every);
    BinnedEvery(items, interval);
  }

  lemma HourItemsEvery(rows: seq<Row>, observer: nat, h: int)
    requires forall r :: r in rows ==> InHour(r.heardAt, h)
    ensures Total(RolledItems(GroupBy(Collect(rows, ActivityItem), PlusActivity), observer, h), Every, PlusActivity,
                  NO_ACTIVITY)
         == Heard(rows, observer, h, h + HOUR, Every)
  {
    ActivityGroups(Collect(rows, ActivityItem), OfObserver(observer));
    RolledItemsTotal(GroupBy(Collect(rows, ActivityItem), PlusActivity), observer, h, Every);
    ObserverTotal(rows, observer, h, Every);
  }

  lemma RolledAtIs(w: World, observer: nat, h: int)
    requires Inv(w) && IsComplete(w.tables, h)
    ensures RolledAt(w.tables.content, observer, h)
         == RolledItems(GroupBy(Collect(RowsIn(w.ever, h), ActivityItem), PlusActivity), observer, h)
  {
    ExactFamily(w.tables.content[h], RowsIn(w.ever, h), ObserverActivity);
  }

  lemma RolledHourEvery(w: World, observer: nat, h: int)
    requires Inv(w)
    ensures Total(RolledAt(w.tables.content, observer, h), Every, PlusActivity, NO_ACTIVITY)
         == if IsComplete(w.tables, h) then HourHeard(w.ever, observer, Every)(h) else NO_ACTIVITY
  {
    if IsComplete(w.tables, h) {
      RolledAtIs(w, observer, h);
      RowsInHour(w.ever, h);
      HourItemsEvery(RowsIn(w.ever, h), observer, h);
      HeardOfHour(w.ever, observer, h, h, h + HOUR, Every);
    }
  }

  lemma {:induction false} RolledEvery(w: World, observer: nat, from: int, to: int)
    requires Inv(w)
    ensures Total(RolledSource(w.tables.content, observer, from, to), Every, PlusActivity, NO_ACTIVITY)
         == HeardInComplete(w, observer, from, to, Every)
    decreases Max(to - from, 0)
  {
    if from < to {
      RolledEvery(w, observer, from + HOUR, to);
      RolledHourEvery(w, observer, from);
      ActivityConcat(RolledAt(w.tables.content, observer, from),
                     RolledSource(w.tables.content, observer, from + HOUR, to), Every);
    }
  }

  /** The recorded total of an hourly response is the number of observations counted. */
  lemma RecordedIsCounted(w: World, observer: nat, win: Window, tail: int, interval: int)
    requires Inv(w) && interval > 0
    ensures Total(HourlyRows(w.tables, observer, win, tail, interval), Every, PlusActivity, NO_ACTIVITY).observations
         == |Counted(w, observer, win, tail)|
  {
    var rolled := RolledSource(w.tables.content, observer, CeilHour(win.since), Min(win.until, tail));
    var raw := Collect(Stored(w), InWindow(observer, Max(win.since, tail), win.until));
    EveryTotal(rolled + raw, interval);
    ActivityConcat(rolled, raw, Every);
    RolledEvery(w, observer, CeilHour(win.since), Min(win.until, tail));
    HeardIsTotal(Stored(w), observer, Max(win.since, tail), win.until, Every);
    RolledCounted(w, observer, win, tail, Every);
    RawCounted(Stored(w), observer, win, tail, Every);
    var p, q := RolledSide(w.tables, observer, win, tail), RawSide(observer, win, tail);
    PassBoth(Filter(w.ever, p), Filter(Stored(w), q), Wanted(Every));
    EveryIsAll(Counted(w, observer, win, tail));
  }

  lemma EveryIsAll(rows: seq<Row>)
    ensures Pass(rows, Wanted(Every), PlusActivity, NO_ACTIVITY).observations == |rows|
  {
    WantedSums(rows, Every);
    forall r | r in rows ensures Every(r.heardAt) {}
    FilterAll(rows, AtInstants(Every));
  }

  lemma RecordedIsStored(w: World, observer: nat, win: Window, interval: int)
    requires interval > 0
    ensures Total(FineRows(w.tables, observer, win, interval), Every, PlusActivity, NO_ACTIVITY).observations
         == |StoredIn(w, observer, win)|
  {
    EveryTotal(Collect(Stored(w), InWindow(observer, win.since, win.until)), interval);
    HeardIsTotal(Stored(w), observer, win.since, win.until, Every);
    AllInWindow(Stored(w), observer, win, Every);
    FilterAgrees(Stored(w), (r: Row) => r.observer == observer && win.since <= r.heardAt < win.until,
                 InWindowOf(observer, win));
    EveryIsAll(StoredIn(w, observer, win));
  }

  // ---- the request ----

  const ZERO: int := 62_135_596_800_000_000

  /** The window: it ends now, or at the last multiple of the interval (counted from year 1) up to the end asked
      for, and starts at the first multiple no more than the asked length before. */
  lemma WindowIs(window: int, interval: int, until: Option<int>, now: int)
    requires interval > 0
    ensures var win := WindowOf(window, interval, until, now);
            && (until.None? ==> win.until == now)
            && (until.Some? ==> (win.until + ZERO) % interval == 0 && win.until <= until.value < win.until + interval)
            && (win.since + ZERO) % interval == 0 && win.until - window <= win.since < win.until - window + interval
  {
    var end := if until.None? then now else Truncate(until.value, interval);
    if until.Some? { TruncateIs(until.value, interval); }
    TruncateIs(end - window, interval);
    NextMultiple(Truncate(end - window, interval) + ZERO, interval);
  }

  lemma TruncateIs(t: int, d: int)
    requires d > 0
    ensures (Truncate(t, d) + ZERO) % d == 0 && Truncate(t, d) <= t < Truncate(t, d) + d
  {
    var x := t + ZERO;
    assert x == x / d * d + x % d;
    DivUnique(x / d * d, d, x / d, 0);
  }

  lemma NextMultiple(m: int, d: int)
    requires d > 0 && m % d == 0
    ensures (m + d) % d == 0
  {
    DivUnique(m + d, d, m / d + 1, 0);
  }

  /** The tail starts a day before the end of the window, or where the latest complete hour ends if that is later. */
  lemma TailIs(watermark: Option<int>, until: int)
    ensures TailStart(watermark, until)
         == if watermark.Some? && watermark.value + 3_600_000_000 > until - 86_400_000_000
            then watermark.value + 3_600_000_000 else until - 86_400_000_000
  {
  }

  // ---- the response ----

  /** An hourly response over the rows of a state says, point by point, what the selected observations say. */
  lemma HourlyResponseSays(w: World, observer: nat, win: Window, interval: int, watermark: Option<int>,
                           activity: ActivityResponse)
    requires Inv(w) && interval > 0 && interval % HOUR == 0
    requires ReportsHourly(activity, w.tables, observer, win, interval, watermark)
    ensures var counted := Counted(w, observer, win, TailStart(watermark, win.until));
            ListSays(activity.points, counted, interval) && activity.recorded == |counted|
  {
    var tail := TailStart(watermark, win.until);
    SourceHolds(w, observer, win, tail, interval);
    ListFromRows(Source(w.tables, observer, win, tail), Counted(w, observer, win, tail), interval, activity.points);
    RecordedIsCounted(w, observer, win, tail, interval);
  }

  /** And a finer one what the stored observations of its window say. */
  lemma FineResponseSays(w: World, observer: nat, win: Window, interval: int, activity: ActivityResponse)
    requires Inv(w) && interval > 0 && ReportsFine(activity, w.tables, observer, win, interval)
    ensures var stored := StoredIn(w, observer, win);
            ListSays(activity.points, stored, interval) && activity.recorded == |stored|
  {
    FineHolds(w, observer, win, interval);
    ListFromRows(Collect(Stored(w), InWindow(observer, win.since, win.until)), StoredIn(w, observer, win), interval,
                 activity.points);
    RecordedIsStored(w, observer, win, interval);
  }
}
