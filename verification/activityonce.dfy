/** What an hourly activity response counts: one selection from everything ever heard, and exactly when it takes an
    observation twice or from outside the window. */
module ActivityOnce {
  import opened Base
  import opened Grouping
  import opened Sorting
  import opened Families
  import opened World
  import opened RawRows
  import opened Protocol
  import opened HourFold
  import opened ObserverActivityRead

  // ---- what is stored was heard ----

  /** Every stored row is one of the rows ever inserted, each at most as often. */
  ghost predicate OnlyHeard(w: World) {
    multiset(StoredRows(w.tables.observations, w.tables.packets)) <= multiset(w.ever)
  }

  lemma StoredAppend(observations: seq<Observation>, o: Observation, p: map<Hash, Packet>)
    ensures StoredRows(observations + [o], p) == StoredRows(observations, p) + if o.packet in p
            then [Join(o, p[o.packet])] else []
  {
    assert (observations + [o])[..|observations|] == observations;
  }

  lemma {:induction false} StoredAgree(observations: seq<Observation>, p: map<Hash, Packet>, q: map<Hash, Packet>)
    requires forall o :: o in observations ==> o.packet in p && o.packet in q && SameColumns(p[o.packet], q[o.packet])
    ensures StoredRows(observations, p) == StoredRows(observations, q)
  {
    if observations != [] {
      var front := observations[..|observations| - 1];
      assert observations == front + [observations[|observations| - 1]];
      StoredAgree(front, p, q);
    }
  }

  lemma {:induction false} StoredWithout(observations: seq<Observation>, p: map<Hash, Packet>, victims: set<Hash>)
    ensures multiset(StoredRows(Without(observations, victims), p - victims)) <= multiset(StoredRows(observations, p))
  {
    if observations != [] {
      var front, o := observations[..|observations| - 1], observations[|observations| - 1];
      StoredWithout(front, p, victims);
      if o.packet !in victims { StoredAppend(Without(front, victims), o, p - victims); }
    }
  }

  lemma RawStepKeepsOnlyHeard(w: World, s: Step)
    requires Inv(w) && Enabled(w, s) && OnlyHeard(w) && (s.UpsertPacket? || s.TouchPacket? || s.DeleteOldPackets?)
    ensures OnlyHeard(Next(w, s))
  {
    var t, t' := w.tables, Next(w, s).tables;
    if s.DeleteOldPackets? {
      StoredWithout(t.observations, t.packets, s.victims);
    } else {
      StoredAgree(t.observations, t.packets, t'.packets);
    }
  }

  lemma InsertKeepsOnlyHeard(w: World, o: Observation)
    requires OnlyHeard(w)
    ensures OnlyHeard(Inserted(w, o))
  {
    StoredAppend(w.tables.observations, o, w.tables.packets);
  }

  lemma StepKeepsOnlyHeard(w: World, s: Step)
    requires Inv(w) && Enabled(w, s) && OnlyHeard(w)
    ensures OnlyHeard(Next(w, s))
  {
    if s.InsertObservation? {
      InsertKeepsOnlyHeard(w, s.observation);
    } else if s.UpsertPacket? || s.TouchPacket? || s.DeleteOldPackets? {
      RawStepKeepsOnlyHeard(w, s);
    } else {
      OthersKeepRaw(w, s);
    }
  }

  lemma OthersKeepRaw(w: World, s: Step)
    requires Enabled(w, s) && !s.InsertObservation? && !s.UpsertPacket? && !s.TouchPacket? && !s.DeleteOldPackets?
    ensures Next(w, s).tables.observations == w.tables.observations && Next(w, s).tables.packets == w.tables.packets
    ensures Next(w, s).ever == w.ever
  {
  }

  lemma {:induction false} RunKeepsOnlyHeard(w: World, steps: seq<Step>)
    requires Inv(w) && OnlyHeard(w) && IsRun(w, steps)
    ensures OnlyHeard(After(w, steps))
    decreases |steps|
  {
    if steps != [] {
      StepKeepsOnlyHeard(w, steps[0]);
      StepKeepsInv(w, steps[0]);
      RunKeepsOnlyHeard(Next(w, steps[0]), steps[1..]);
    }
  }

  // ---- the selection ----

  function Stored(w: World): seq<Row> {
    StoredRows(w.tables.observations, w.tables.packets)
  }

  /** Rows of complete hours that start inside the window and below the tail. */
  function RolledSide(t: Tables, observer: nat, win: Window, tail: int): Row -> bool {
    (r: Row) =>
      && r.observer == observer && IsComplete(t, TruncHour(r.heardAt))
      && win.since <= TruncHour(r.heardAt) < Min(win.until, tail)
  }

  /** Rows of the window from the tail on. */
  function RawSide(observer: nat, win: Window, tail: int): Row -> bool {
    (r: Row) => r.observer == observer && Max(win.since, tail) <= r.heardAt < win.until
  }

  /** What a response counts: from all ever heard below the tail, from what is stored above it. */
  function Counted(w: World, observer: nat, win: Window, tail: int): seq<Row> {
    Filter(w.ever, RolledSide(w.tables, observer, win, tail)) + Filter(Stored(w), RawSide(observer, win, tail))
  }

  /** No observation is selected twice. */
  ghost predicate CountsOnce(w: World, observer: nat, win: Window, tail: int) {
    multiset(Counted(w, observer, win, tail)) <= multiset(w.ever)
  }

  /** None is selected from outside the window. */
  ghost predicate StaysInside(w: World, observer: nat, win: Window, tail: int) {
    forall r :: r in Counted(w, observer, win, tail) ==> r.observer == observer && win.since <= r.heardAt < win.until
  }

  /** The observer's row lies above the tail, in an hour that starts below it. */
  predicate Shared(observer: nat, win: Window, tail: int, r: Row) {
    && r.observer == observer && win.since <= TruncHour(r.heardAt) < Min(win.until, tail)
    && Max(win.since, tail) <= r.heardAt < win.until
  }

  /** A complete hour straddles the tail, and the observer's rows above the tail are stored too. */
  ghost predicate Twice(w: World, observer: nat, win: Window, tail: int) {
    exists r :: r in Stored(w) && Shared(observer, win, tail, r) && IsComplete(w.tables, TruncHour(r.heardAt))
  }

  /** A complete hour straddles the end of the window, with a row of the observer past it. */
  ghost predicate Outside(w: World, observer: nat, win: Window, tail: int) {
    exists r :: r in w.ever && RolledSide(w.tables, observer, win, tail)(r) && r.heardAt >= win.until
  }

  /** Exactly how often each row is selected. */
  lemma CountedCount(w: World, observer: nat, win: Window, tail: int, r: Row)
    ensures multiset(Counted(w, observer, win, tail))[r]
         == (if RolledSide(w.tables, observer, win, tail)(r) then multiset(w.ever)[r] else 0)
            + (if RawSide(observer, win, tail)(r) then multiset(Stored(w))[r] else 0)
  {
    FilterCount(w.ever, RolledSide(w.tables, observer, win, tail), r);
    FilterCount(Stored(w), RawSide(observer, win, tail), r);
  }

  /** The exact condition in the state whose rows are read. */
  lemma CountsOnceIffNotTwice(w: World, observer: nat, win: Window, tail: int)
    requires OnlyHeard(w)
    ensures CountsOnce(w, observer, win, tail) <==> !Twice(w, observer, win, tail)
  {
    if Twice(w, observer, win, tail) {
      var r :| r in Stored(w) && Shared(observer, win, tail, r) && IsComplete(w.tables, TruncHour(r.heardAt));
      CountedCount(w, observer, win, tail, r);
      assert multiset(Counted(w, observer, win, tail))[r] > multiset(w.ever)[r];
    } else {
      forall r: Row ensures multiset(Counted(w, observer, win, tail))[r] <= multiset(w.ever)[r] {
        CountedCount(w, observer, win, tail, r);
        assert r in Stored(w) ==> !(RolledSide(w.tables, observer, win, tail)(r) && RawSide(observer, win, tail)(r));
      }
    }
  }

  lemma StaysInsideIffNotOutside(w: World, observer: nat, win: Window, tail: int)
    ensures StaysInside(w, observer, win, tail) <==> !Outside(w, observer, win, tail)
  {
    var p, q := RolledSide(w.tables, observer, win, tail), RawSide(observer, win, tail);
    forall r: Row ensures r in Counted(w, observer, win, tail) <==> (r in w.ever && p(r)) || (r in Stored(w) && q(r)) {
      FilterMember(w.ever, p, r);
      FilterMember(Stored(w), q, r);
    }
  }

  /** A tail on the hour is never straddled. */
  lemma AlignedTail(w: World, observer: nat, win: Window, tail: int)
    requires tail % HOUR == 0
    ensures !Twice(w, observer, win, tail)
  {
    forall r: Row ensures !Shared(observer, win, tail, r) {
      if TruncHour(r.heardAt) < tail { AlignedGap(TruncHour(r.heardAt), tail); }
    }
  }

  /** Neither is the end of a window on the hour, or one less than 35 minutes old: no hour that it cuts can be rolled
      yet. */
  lemma RecentEnd(w: World, observer: nat, win: Window, tail: int)
    requires Inv(w) && (win.until % HOUR == 0 || w.now < win.until + ROLLUP_DELAY - HOUR)
    ensures !Outside(w, observer, win, tail)
  {
    forall r: Row | RolledSide(w.tables, observer, win, tail)(r) ensures r.heardAt < win.until {
      if win.until % HOUR == 0 { AlignedGap(TruncHour(r.heardAt), win.until); }
    }
  }

  // ---- the buckets are aggregates of the selection ----

  /** A selected row's part in the buckets that sel picks. */
  function Wanted(sel: int -> bool): Row -> Activity {
    (r: Row) => If(sel(r.heardAt), ActivityOf(r))
  }

  /** The observer's row, in one of the complete hours of [from, to), at a wanted instant. */
  predicate InHours(t: Tables, observer: nat, from: int, to: int, sel: int -> bool, r: Row) {
    r.observer == observer && IsComplete(t, TruncHour(r.heardAt)) && from <= TruncHour(r.heardAt) < to && sel(r.heardAt)
  }

  predicate InOneHour(t: Tables, observer: nat, h: int, sel: int -> bool, r: Row) {
    IsComplete(t, h) && r.observer == observer && h <= r.heardAt < h + HOUR && sel(r.heardAt)
  }

  function If(here: bool, a: Activity): Activity {
    if here then a else NO_ACTIVITY
  }

  function RolledShare(t: Tables, observer: nat, from: int, to: int, sel: int -> bool): Row -> Activity {
    (r: Row) => If(InHours(t, observer, from, to, sel, r), ActivityOf(r))
  }

  function HourShare(t: Tables, observer: nat, h: int, sel: int -> bool): Row -> Activity {
    (r: Row) => If(InOneHour(t, observer, h, sel, r), ActivityOf(r))
  }

  lemma FirstHourOrLater(t: Tables, observer: nat, from: int, to: int, sel: int -> bool, r: Row)
    requires from % HOUR == 0 && from < to
    ensures InHours(t, observer, from, to, sel, r)
            == (InOneHour(t, observer, from, sel, r) || InHours(t, observer, from + HOUR, to, sel, r))
    ensures !(InOneHour(t, observer, from, sel, r) && InHours(t, observer, from + HOUR, to, sel, r))
  {
    HourOfInstant(r.heardAt, from);
    if from < TruncHour(r.heardAt) { AlignedGap(from, TruncHour(r.heardAt)); }
  }

  lemma OneOrOther(here: bool, later: bool, a: Activity)
    requires !(here && later)
    ensures If(here || later, a) == PlusActivity(If(here, a), If(later, a))
  {
    NothingAdded(a);
    NothingAdded(NO_ACTIVITY);
  }

  lemma RolledShareSplits(t: Tables, observer: nat, from: int, to: int, sel: int -> bool, r: Row)
    requires from % HOUR == 0 && from < to
    ensures RolledShare(t, observer, from, to, sel)(r)
         == PlusActivity(HourShare(t, observer, from, sel)(r), RolledShare(t, observer, from + HOUR, to, sel)(r))
  {
    FirstHourOrLater(t, observer, from, to, sel, r);
    OneOrOther(InOneHour(t, observer, from, sel, r), InHours(t, observer, from + HOUR, to, sel, r), ActivityOf(r));
  }

  lemma HourSharePass(w: World, observer: nat, h: int, sel: int -> bool)
    ensures Pass(w.ever, HourShare(w.tables, observer, h, sel), PlusActivity, NO_ACTIVITY)
         == if IsComplete(w.tables, h) then HourHeard(w.ever, observer, sel)(h) else NO_ACTIVITY
  {
    if IsComplete(w.tables, h) {
      forall r | r in w.ever ensures HourShare(w.tables, observer, h, sel)(r) == Share(observer, h, h + HOUR, sel)(r) {}
      assert HourHeard(w.ever, observer, sel)(h) == Heard(w.ever, observer, h, h + HOUR, sel);
      PassAgree(w.ever, HourShare(w.tables, observer, h, sel), Share(observer, h, h + HOUR, sel), PlusActivity,
                NO_ACTIVITY);
    } else {
      NothingPassed(w.ever, HourShare(w.tables, observer, h, sel));
    }
  }

  lemma NothingPassed(rows: seq<Row>, share: Row -> Activity)
    requires forall r :: r in rows ==> share(r) == NO_ACTIVITY
    ensures Pass(rows, share, PlusActivity, NO_ACTIVITY) == NO_ACTIVITY
  {
    ActivityMonoid();
    PassNothing(rows, share, PlusActivity, NO_ACTIVITY);
  }

  /** The hours of the rolled side, as one pass. */
  lemma {:induction false} RolledIsPass(w: World, observer: nat, from: int, to: int, sel: int -> bool)
    requires from % HOUR == 0
    ensures HeardInComplete(w, observer, from, to, sel)
         == Pass(w.ever, RolledShare(w.tables, observer, from, to, sel), PlusActivity, NO_ACTIVITY)
    decreases Max(to - from, 0)
  {
    if from < to {
      RolledIsPass(w, observer, from + HOUR, to, sel);
      HourSharePass(w, observer, from, sel);
      forall r | r in w.ever
        ensures RolledShare(w.tables, observer, from, to, sel)(r)
             == PlusActivity(HourShare(w.tables, observer, from, sel)(r),
                             RolledShare(w.tables, observer, from + HOUR, to, sel)(r))
      {
        RolledShareSplits(w.tables, observer, from, to, sel, r);
      }
      ActivitySplit(w.ever, RolledShare(w.tables, observer, from, to, sel), HourShare(w.tables, observer, from, sel),
                    RolledShare(w.tables, observer, from + HOUR, to, sel));
    } else {
      forall r | r in w.ever ensures RolledShare(w.tables, observer, from, to, sel)(r) == NO_ACTIVITY {
        assert !InHours(w.tables, observer, from, to, sel, r);
      }
      NothingPassed(w.ever, RolledShare(w.tables, observer, from, to, sel));
    }
  }

  lemma {:induction false} PassFilter(rows: seq<Row>, p: Row -> bool, share: Row -> Activity, whole: Row -> Activity)
    requires forall r :: r in rows ==> whole(r) == if p(r) then share(r) else NO_ACTIVITY
    ensures Pass(Filter(rows, p), share, PlusActivity, NO_ACTIVITY) == Pass(rows, whole, PlusActivity, NO_ACTIVITY)
  {
    if rows != [] {
      var front, last, kept := rows[..|rows| - 1], rows[|rows| - 1], Filter(rows, p);
      assert rows == front + [last];
      PassFilter(front, p, share, whole);
      if p(last) {
        assert kept[..|kept| - 1] == Filter(front, p);
      } else {
        NothingAdded(Pass(front, whole, PlusActivity, NO_ACTIVITY));
      }
    }
  }

  lemma {:induction false} PassBoth(a: seq<Row>, b: seq<Row>, share: Row -> Activity)
    ensures Pass(a + b, share, PlusActivity, NO_ACTIVITY)
         == PlusActivity(Pass(a, share, PlusActivity, NO_ACTIVITY), Pass(b, share, PlusActivity, NO_ACTIVITY))
  {
    if b == [] {
      assert a + b == a;
      NothingAdded(Pass(a, share, PlusActivity, NO_ACTIVITY));
    } else {
      var front := b[..|b| - 1];
      assert (a + b)[..|a + b| - 1] == a + front;
      PassBoth(a, front, share);
      PlusAssociates(Pass(a, share, PlusActivity, NO_ACTIVITY), Pass(front, share, PlusActivity, NO_ACTIVITY),
                     share(b[|b| - 1]));
    }
  }

  lemma PlusAssociates(a: Activity, b: Activity, c: Activity)
    ensures PlusActivity(PlusActivity(a, b), c) == PlusActivity(a, PlusActivity(b, c))
  {
  }

  lemma RolledCounted(w: World, observer: nat, win: Window, tail: int, sel: int -> bool)
    ensures HeardInComplete(w, observer, CeilHour(win.since), Min(win.until, tail), sel)
         == Pass(Filter(w.ever, RolledSide(w.tables, observer, win, tail)), Wanted(sel), PlusActivity, NO_ACTIVITY)
  {
    var p, to := RolledSide(w.tables, observer, win, tail), Min(win.until, tail);
    var whole := RolledShare(w.tables, observer, CeilHour(win.since), to, sel);
    RolledIsPass(w, observer, CeilHour(win.since), to, sel);
    forall r | r in w.ever ensures whole(r) == if p(r) then Wanted(sel)(r) else NO_ACTIVITY {
      HourFrom(win.since, TruncHour(r.heardAt));
      assert InHours(w.tables, observer, CeilHour(win.since), to, sel, r) == (p(r) && sel(r.heardAt));
    }
    PassFilter(w.ever, p, Wanted(sel), whole);
  }

  lemma HourFrom(since: int, h: int)
    requires h % HOUR == 0
    ensures since <= h <==> CeilHour(since) <= h
  {
    if h < CeilHour(since) { AlignedGap(h, CeilHour(since)); }
  }

  lemma RawCounted(stored: seq<Row>, observer: nat, win: Window, tail: int, sel: int -> bool)
    ensures Heard(stored, observer, Max(win.since, tail), win.until, sel)
         == Pass(Filter(stored, RawSide(observer, win, tail)), Wanted(sel), PlusActivity, NO_ACTIVITY)
  {
    var p, whole := RawSide(observer, win, tail), Share(observer, Max(win.since, tail), win.until, sel);
    forall r | r in stored ensures whole(r) == if p(r) then Wanted(sel)(r) else NO_ACTIVITY {
      ShareIsWanted(observer, Max(win.since, tail), win.until, sel, r);
    }
    PassFilter(stored, p, Wanted(sel), whole);
  }

  lemma ShareIsWanted(observer: nat, lo: int, hi: int, sel: int -> bool, r: Row)
    ensures Share(observer, lo, hi, sel)(r) == if r.observer == observer
            && lo <= r.heardAt < hi then Wanted(sel)(r) else NO_ACTIVITY
  {
    assert Wanted(sel)(r) == If(sel(r.heardAt), ActivityOf(r));
  }

  /** For any tail and with any gaps in the rollup, every bucket is the aggregate of the selection. */
  lemma StitchedIsCounted(w: World, observer: nat, win: Window, tail: int, interval: int, bucket: int)
    requires Inv(w) && interval > 0 && interval % HOUR == 0
    ensures BucketOf(HourlyRows(w.tables, observer, win, tail, interval), bucket)
         == Pass(Counted(w, observer, win, tail), Wanted(InBucket(interval, bucket)), PlusActivity, NO_ACTIVITY)
  {
    var sel := InBucket(interval, bucket);
    StitchedBucket(w, observer, win, tail, interval, bucket);
    RolledCounted(w, observer, win, tail, sel);
    RawCounted(Stored(w), observer, win, tail, sel);
    PassBoth(Filter(w.ever, RolledSide(w.tables, observer, win, tail)), Filter(Stored(w), RawSide(observer, win, tail)),
             Wanted(sel));
  }

  /** A selection inside the window is aggregated as everything ever heard in the window would be. */
  lemma InsideHeard(w: World, observer: nat, win: Window, tail: int, sel: int -> bool)
    requires StaysInside(w, observer, win, tail)
    ensures Pass(Counted(w, observer, win, tail), Wanted(sel), PlusActivity, NO_ACTIVITY)
         == Heard(Counted(w, observer, win, tail), observer, win.since, win.until, sel)
  {
    var counted, share := Counted(w, observer, win, tail), Share(observer, win.since, win.until, sel);
    forall r | r in counted ensures Wanted(sel)(r) == share(r) {
      ShareIsWanted(observer, win.since, win.until, sel, r);
    }
    PassAgree(counted, Wanted(sel), share, PlusActivity, NO_ACTIVITY);
  }

  // ---- and so no count exceeds the truth ----

  function CountsAt(observer: nat, lo: int, hi: int, sel: int -> bool): Row -> bool {
    (r: Row) => r.observer == observer && lo <= r.heardAt < hi && sel(r.heardAt)
  }

  lemma {:induction false} CountIsLength(rows: seq<Row>, observer: nat, lo: int, hi: int, sel: int -> bool)
    ensures Heard(rows, observer, lo, hi, sel).observations == |Filter(rows, CountsAt(observer, lo, hi, sel))|
  {
    if rows != [] {
      var front, last := rows[..|rows| - 1], rows[|rows| - 1];
      CountIsLength(front, observer, lo, hi, sel);
      OneCounts(Heard(front, observer, lo, hi, sel), Share(observer, lo, hi, sel)(last));
      assert Share(observer, lo, hi, sel)(last) == if CountsAt(observer, lo, hi, sel)(last) then ActivityOf(last)
          else NO_ACTIVITY;
    }
  }

  lemma OneCounts(a: Activity, b: Activity)
    ensures PlusActivity(a, b).observations == a.observations + b.observations
  {
  }

  lemma FewerCountLess(a: seq<Row>, b: seq<Row>, observer: nat, lo: int, hi: int, sel: int -> bool)
    requires multiset(a) <= multiset(b)
    ensures Heard(a, observer, lo, hi, sel).observations <= Heard(b, observer, lo, hi, sel).observations
  {
    var p := CountsAt(observer, lo, hi, sel);
    CountIsLength(a, observer, lo, hi, sel);
    CountIsLength(b, observer, lo, hi, sel);
    var few, many := multiset(Filter(a, p)), multiset(Filter(b, p));
    forall r: Row ensures few[r] <= many[r] {
      FilterCount(a, p, r);
      FilterCount(b, p, r);
    }
    assert many == few + (many - few);
  }

  /** What holds of one bucket whose rows are read in w with this tail, wherever window and tail come from. */
  ghost predicate Faithful(w: World, observer: nat, win: Window, tail: int, interval: int, bucket: int)
    requires interval > 0
  {
    var sel, counted := InBucket(interval, bucket), Counted(w, observer, win, tail);
    var shown := BucketOf(HourlyRows(w.tables, observer, win, tail, interval), bucket);
    var once, inside := CountsOnce(w, observer, win, tail), StaysInside(w, observer, win, tail);
    && shown == Pass(counted, Wanted(sel), PlusActivity, NO_ACTIVITY)
    && (once <==> !Twice(w, observer, win, tail))
    && (inside <==> !Outside(w, observer, win, tail))
    && (tail % HOUR == 0 ==> once)
    && (win.until % HOUR == 0 || w.now < win.until + ROLLUP_DELAY - HOUR ==> inside)
    && (inside ==> shown == Heard(counted, observer, win.since, win.until, sel))
    && (once && inside ==> shown.observations <= Heard(w.ever, observer, win.since, win.until, sel).observations)
  }

  lemma ReadIsFaithful(w: World, observer: nat, win: Window, tail: int, interval: int, bucket: int)
    requires Inv(w) && OnlyHeard(w) && interval > 0 && interval % HOUR == 0
    ensures Faithful(w, observer, win, tail, interval, bucket)
  {
    var sel := InBucket(interval, bucket);
    StitchedIsCounted(w, observer, win, tail, interval, bucket);
    CountsOnceIffNotTwice(w, observer, win, tail);
    StaysInsideIffNotOutside(w, observer, win, tail);
    if tail % HOUR == 0 { AlignedTail(w, observer, win, tail); }
    if win.until % HOUR == 0 || w.now < win.until + ROLLUP_DELAY - HOUR { RecentEnd(w, observer, win, tail); }
    if StaysInside(w, observer, win, tail) {
      InsideHeard(w, observer, win, tail, sel);
      if CountsOnce(w, observer, win, tail) {
        FewerCountLess(Counted(w, observer, win, tail), w.ever, observer, win.since, win.until, sel);
      }
    }
  }

  /** The clock, the watermark and the rows are read at three moments, with any steps in between. In every
      reachable state, with any gaps in the rollup, every bucket is the aggregate of one selection from
      everything ever heard. It takes an observation twice exactly when a complete hour straddles the tail with
      stored rows of the observer above it, which a tail on the hour rules out, and one outside the window
      exactly when a complete hour straddles its end. */
  lemma EachObservationOnce(now: int, before: seq<Step>, between: seq<Step>, asked: int, observer: nat, window: int,
                            interval: int, until: Option<int>, watermark: Option<int>, bucket: int)
    requires IsRun(Start(now), before) && IsRun(After(Start(now), before), between)
    requires interval > 0 && interval % HOUR == 0 && IsWatermark(After(Start(now), before).tables, watermark)
    ensures var win := WindowOf(window, interval, until, asked);
            Faithful(After(After(Start(now), before), between), observer, win, TailStart(watermark, win.until),
                     interval, bucket)
  {
    RunKeepsInv(Start(now), before);
    RunKeepsOnlyHeard(Start(now), before);
    var first := After(Start(now), before);
    RunKeepsInv(first, between);
    RunKeepsOnlyHeard(first, between);
    var win := WindowOf(window, interval, until, asked);
    ReadIsFaithful(After(first, between), observer, win, TailStart(watermark, win.until), interval, bucket);
  }

  /** Read at one moment, a response counts every observation at most once and none outside the window. */
  lemma OneMomentCountsOnce(now: int, steps: seq<Step>, observer: nat, window: int, interval: int, until: Option<int>,
                            watermark: Option<int>)
    requires IsRun(Start(now), steps) && interval > 0 && interval % HOUR == 0
    requires IsWatermark(After(Start(now), steps).tables, watermark)
    ensures var w := After(Start(now), steps);
            var win := WindowOf(window, interval, until, w.now);
            var tail := TailStart(watermark, win.until);
            CountsOnce(w, observer, win, tail) && StaysInside(w, observer, win, tail)
  {
    RunKeepsInv(Start(now), steps);
    RunKeepsOnlyHeard(Start(now), steps);
    var w := After(Start(now), steps);
    var win := WindowOf(window, interval, until, w.now);
    var tail := TailStart(watermark, win.until);
    AlignedWindow(window, interval, until, w.now);
    forall r: Row | RolledSide(w.tables, observer, win, tail)(r) ensures r.heardAt < tail && r.heardAt < win.until {
      SourcesAreDisjoint(w, win, watermark, TruncHour(r.heardAt), r.heardAt);
    }
    CountsOnceIffNotTwice(w, observer, win, tail);
    StaysInsideIffNotOutside(w, observer, win, tail);
  }

  // ---- exactness at two moments ----

  function InWindowOf(observer: nat, win: Window): Row -> bool {
    (r: Row) => r.observer == observer && win.since <= r.heardAt < win.until
  }

  lemma {:induction false} RowsInCount(rows: seq<Row>, h: int, r: Row)
    ensures multiset(RowsIn(rows, h))[r] == if InHour(r.heardAt, h) then multiset(rows)[r] else 0
  {
    if rows != [] {
      assert rows == rows[..|rows| - 1] + [rows[|rows| - 1]];
      RowsInCount(rows[..|rows| - 1], h, r);
    }
  }

  /** In an intact hour a row is stored as often as it was heard. */
  lemma StoredAsHeard(w: World, r: Row)
    requires Inv(w) && Intact(w.tables, TruncHour(r.heardAt))
    ensures multiset(Stored(w))[r] == multiset(w.ever)[r]
  {
    var h := TruncHour(r.heardAt);
    StoredHour(w.tables.observations, w.tables.packets, h);
    RowsInCount(Stored(w), h, r);
    RowsInCount(w.ever, h, r);
  }

  /** Every hour below the tail is complete, and cleanup has not reached the tail. */
  ghost predicate NothingMissing(w: World, win: Window, tail: int) {
    && (forall h :: h % HOUR == 0 && win.since <= h < Min(win.until, tail) ==> IsComplete(w.tables, h))
    && Intact(w.tables, TruncHour(Max(win.since, tail)))
  }

  /** With nothing missing where the rows are read, the selection is everything heard in the window if and only if no
      complete hour straddles the tail or the end of the window. */
  lemma SelectionIsExactIff(w: World, observer: nat, win: Window, tail: int)
    requires Inv(w) && OnlyHeard(w) && win.since % HOUR == 0 && NothingMissing(w, win, tail)
    ensures multiset(Counted(w, observer, win, tail)) == multiset(Filter(w.ever, InWindowOf(observer, win)))
            <==> !Twice(w, observer, win, tail) && !Outside(w, observer, win, tail)
  {
    CountsOnceIffNotTwice(w, observer, win, tail);
    StaysInsideIffNotOutside(w, observer, win, tail);
    var counted, all := Counted(w, observer, win, tail), Filter(w.ever, InWindowOf(observer, win));
    if multiset(counted) == multiset(all) {
      forall r: Row ensures multiset(counted)[r] <= multiset(w.ever)[r] {
        FilterCount(w.ever, InWindowOf(observer, win), r);
      }
      forall r | r in counted ensures r.observer == observer && win.since <= r.heardAt < win.until {
        assert r in multiset(all);
        FilterMember(w.ever, InWindowOf(observer, win), r);
      }
    }
    if CountsOnce(w, observer, win, tail) && StaysInside(w, observer, win, tail) {
      forall r: Row ensures multiset(counted)[r] == multiset(all)[r] { SelectedAsHeard(w, observer, win, tail, r); }
      assert multiset(counted) == multiset(all);
    }
  }

  lemma SelectedAsHeard(w: World, observer: nat, win: Window, tail: int, r: Row)
    requires Inv(w) && OnlyHeard(w) && win.since % HOUR == 0 && NothingMissing(w, win, tail)
    requires !Twice(w, observer, win, tail) && !Outside(w, observer, win, tail)
    ensures multiset(Counted(w, observer, win, tail))[r] == multiset(Filter(w.ever, InWindowOf(observer, win)))[r]
  {
    var h, p, q := TruncHour(r.heardAt), RolledSide(w.tables, observer, win, tail), RawSide(observer, win, tail);
    CountedCount(w, observer, win, tail, r);
    FilterCount(w.ever, InWindowOf(observer, win), r);
    HourOfLater(win.since, r.heardAt);
    if q(r) {
      HourOfLater(TruncHour(Max(win.since, tail)), r.heardAt);
      StoredAsHeard(w, r);
    }
  }

  /** An instant from an aligned one on lies in an hour from it on. */
  lemma HourOfLater(hour: int, at: int)
    requires hour % HOUR == 0
    ensures hour <= at <==> hour <= TruncHour(at)
  {
    if TruncHour(at) < hour { AlignedGap(TruncHour(at), hour); }
  }

  lemma {:induction false} PassSwap(rows: seq<Row>, i: nat, share: Row -> Activity)
    requires i < |rows|
    ensures Pass(rows, share, PlusActivity, NO_ACTIVITY)
         == PlusActivity(Pass(rows[..i] + rows[i + 1..], share, PlusActivity, NO_ACTIVITY), share(rows[i]))
  {
    var n := |rows| - 1;
    if i == n {
      assert rows[..i] + rows[i + 1..] == rows[..n];
    } else {
      var front, rest := rows[..n], rows[..i] + rows[i + 1..];
      PassSwap(front, i, share);
      assert rest[..n - 1] == front[..i] + front[i + 1..] && rest[n - 1] == rows[n];
      PlusSwaps(Pass(rest[..n - 1], share, PlusActivity, NO_ACTIVITY), share(rows[i]), share(rows[n]));
    }
  }

  lemma PlusSwaps(a: Activity, b: Activity, c: Activity)
    ensures PlusActivity(PlusActivity(a, b), c) == PlusActivity(PlusActivity(a, c), b)
  {
  }

  lemma OneLess(rows: seq<Row>, i: nat)
    requires i < |rows|
    ensures multiset(rows[..i] + rows[i + 1..]) == multiset(rows) - multiset{rows[i]}
  {
    assert rows == rows[..i] + ([rows[i]] + rows[i + 1..]);
  }

  /** An aggregate sees only how often each row occurs. */
  lemma {:induction false} PassOfMultiset(a: seq<Row>, b: seq<Row>, share: Row -> Activity)
    requires multiset(a) == multiset(b)
    ensures Pass(a, share, PlusActivity, NO_ACTIVITY) == Pass(b, share, PlusActivity, NO_ACTIVITY)
    decreases |a|
  {
    if a == [] {
      assert |multiset(b)| == 0;
    } else {
      var front, last := a[..|a| - 1], a[|a| - 1];
      assert a == front + [last];
      assert last in multiset(b);
      var i :| 0 <= i < |b| && b[i] == last;
      OneLess(a, |front|);
      OneLess(b, i);
      assert front + a[|front| + 1..] == front;
      PassOfMultiset(front, b[..i] + b[i + 1..], share);
      PassSwap(b, i, share);
    }
  }

  /** Exactness across the moments: with nothing missing where the rows are read, and neither the tail nor the end of
      the window straddled, each bucket is the pure raw aggregate of everything ever heard in it. */
  lemma ExactAcrossMoments(now: int, before: seq<Step>, between: seq<Step>, asked: int, observer: nat, window: int,
                           interval: int, until: Option<int>, watermark: Option<int>, bucket: int)
    requires IsRun(Start(now), before) && IsRun(After(Start(now), before), between)
    requires interval > 0 && interval % HOUR == 0 && IsWatermark(After(Start(now), before).tables, watermark)
    requires var w, win := After(After(Start(now), before), between), WindowOf(window, interval, until, asked);
             var tail := TailStart(watermark, win.until);
             NothingMissing(w, win, tail) && !Twice(w, observer, win, tail) && !Outside(w, observer, win, tail)
    ensures var w, win := After(After(Start(now), before), between), WindowOf(window, interval, until, asked);
            BucketOf(HourlyRows(w.tables, observer, win, TailStart(watermark, win.until), interval), bucket)
            == Heard(w.ever, observer, win.since, win.until, InBucket(interval, bucket))
  {
    RunKeepsInv(Start(now), before);
    RunKeepsOnlyHeard(Start(now), before);
    var first := After(Start(now), before);
    RunKeepsInv(first, between);
    RunKeepsOnlyHeard(first, between);
    AlignedWindow(window, interval, until, asked);
    var win := WindowOf(window, interval, until, asked);
    ExactRead(After(first, between), observer, win, TailStart(watermark, win.until), interval, bucket);
  }

  lemma ExactRead(w: World, observer: nat, win: Window, tail: int, interval: int, bucket: int)
    requires Inv(w) && OnlyHeard(w) && win.since % HOUR == 0 && interval > 0 && interval % HOUR == 0
    requires NothingMissing(w, win, tail) && !Twice(w, observer, win, tail) && !Outside(w, observer, win, tail)
    ensures BucketOf(HourlyRows(w.tables, observer, win, tail, interval), bucket)
         == Heard(w.ever, observer, win.since, win.until, InBucket(interval, bucket))
  {
    var sel, p := InBucket(interval, bucket), InWindowOf(observer, win);
    StitchedIsCounted(w, observer, win, tail, interval, bucket);
    SelectionIsExactIff(w, observer, win, tail);
    PassOfMultiset(Counted(w, observer, win, tail), Filter(w.ever, p), Wanted(sel));
    AllInWindow(w.ever, observer, win, sel);
  }

  lemma AllInWindow(rows: seq<Row>, observer: nat, win: Window, sel: int -> bool)
    ensures Pass(Filter(rows, InWindowOf(observer, win)), Wanted(sel), PlusActivity, NO_ACTIVITY)
         == Heard(rows, observer, win.since, win.until, sel)
  {
    var p, whole := InWindowOf(observer, win), Share(observer, win.since, win.until, sel);
    forall r | r in rows ensures whole(r) == if p(r) then Wanted(sel)(r) else NO_ACTIVITY {
      ShareIsWanted(observer, win.since, win.until, sel, r);
    }
    PassFilter(rows, p, Wanted(sel), whole);
  }
}
