/** A roll between the two statements of an activity request: exactly which requests risk counting an observation
    twice, and a run in which one does. */
module ActivityRace {
  import opened Base
  import opened Grouping
  import opened Sorting
  import opened Families
  import opened World
  import opened RawRows
  import opened Protocol
  import opened RunTheorems
  import opened Freshness
  import opened ObserverActivityRead
  import opened ActivityOnce

  // ---- which hours can still become complete ----

  /** Raw deletion has not reached the hour, or a roll that will commit holds it. */
  predicate CanComplete(w: World, h: int) {
    Intact(w.tables, h) || (w.roll.Some? && w.roll.value.hour == h && !Conflict(w.tables, w.roll.value))
  }

  lemma StepKeepsIncomplete(w: World, s: Step, h: int)
    requires Inv(w) && Enabled(w, s) && !IsComplete(w.tables, h) && !CanComplete(w, h)
    ensures !IsComplete(Next(w, s).tables, h) && !CanComplete(Next(w, s), h)
  {
  }

  /** An hour that can no longer become complete never does. */
  lemma {:induction false} NeverCompletes(w: World, steps: seq<Step>, h: int)
    requires Inv(w) && IsRun(w, steps) && !IsComplete(w.tables, h) && !CanComplete(w, h)
    ensures !IsComplete(After(w, steps).tables, h)
    decreases |steps|
  {
    if steps != [] {
      StepKeepsIncomplete(w, steps[0], h);
      StepKeepsInv(w, steps[0]);
      NeverCompletes(Next(w, steps[0]), steps[1..], h);
    }
  }

  // ---- rows of a closed hour are only ever deleted ----

  lemma {:induction false} StoredMember(observations: seq<Observation>, p: map<Hash, Packet>, r: Row)
    ensures r in StoredRows(observations, p) <==> exists o ::
            o in observations && o.packet in p && Join(o, p[o.packet]) == r
  {
    if observations != [] {
      var front, last := observations[..|observations| - 1], observations[|observations| - 1];
      assert observations == front + [last];
      StoredMember(front, p, r);
      assert last in observations;
      if o :| o in front && o.packet in p && Join(o, p[o.packet]) == r { assert o in observations; }
    }
  }

  lemma StepStoresNothingOld(w: World, s: Step, r: Row)
    requires Inv(w) && Enabled(w, s) && TruncHour(r.heardAt) + ROLLUP_DELAY <= w.now && r in Stored(Next(w, s))
    ensures r in Stored(w) && TruncHour(r.heardAt) + ROLLUP_DELAY <= Next(w, s).now
  {
    var t, t' := w.tables, Next(w, s).tables;
    if s.InsertObservation? {
      StoredAppend(t.observations, s.observation, t.packets);
    } else if s.UpsertPacket? || s.TouchPacket? {
      StoredAgree(t.observations, t.packets, t'.packets);
    } else if s.DeleteOldPackets? {
      StoredWithout(t.observations, t.packets, s.victims);
      assert r in multiset(Stored(Next(w, s)));
    } else {
      OthersKeepRaw(w, s);
    }
  }

  lemma {:induction false} NothingOldIsStored(w: World, steps: seq<Step>, r: Row)
    requires Inv(w) && IsRun(w, steps) && TruncHour(r.heardAt) + ROLLUP_DELAY <= w.now && r in Stored(After(w, steps))
    ensures r in Stored(w)
    decreases |steps|
  {
    if steps != [] {
      StepKeepsInv(w, steps[0]);
      var w' := Next(w, steps[0]);
      if TruncHour(r.heardAt) + ROLLUP_DELAY <= w'.now { NothingOldIsStored(w', steps[1..], r); }
      StepStoresNothingOld(w, steps[0], r);
    }
  }

  // ---- partial hours are lost hours ----

  ghost predicate PartialIsLost(w: World) {
    forall h :: h in w.tables.hours && w.tables.hours[h].status == Partial ==> !Intact(w.tables, h)
  }

  lemma StepKeepsPartialLost(w: World, s: Step)
    requires Inv(w) && Enabled(w, s) && PartialIsLost(w)
    ensures PartialIsLost(Next(w, s))
  {
  }

  lemma {:induction false} RunKeepsPartialLost(w: World, steps: seq<Step>)
    requires Inv(w) && PartialIsLost(w) && IsRun(w, steps)
    ensures PartialIsLost(After(w, steps))
    decreases |steps|
  {
    if steps != [] {
      StepKeepsPartialLost(w, steps[0]);
      StepKeepsInv(w, steps[0]);
      RunKeepsPartialLost(Next(w, steps[0]), steps[1..]);
    }
  }

  // ---- the risk, before the rows are read ----

  /** A stored row of the observer above the tail, in an hour that starts below it and is, or can still become,
      complete. */
  ghost predicate AtRisk(w: World, observer: nat, win: Window, tail: int) {
    exists r :: r in Stored(w) && Shared(observer, win, tail, r)
                && (IsComplete(w.tables, TruncHour(r.heardAt)) || CanComplete(w, TruncHour(r.heardAt)))
  }

  ghost predicate OnceAfter(w: World, steps: seq<Step>, observer: nat, win: Window, tail: int) {
    IsRun(w, steps) ==> CountsOnce(After(w, steps), observer, win, tail)
  }

  /** The steps after which hour h is complete. */
  function CompletingSteps(w: World, h: int): seq<Step> {
    if IsComplete(w.tables, h) then []
    else if w.roll.Some? && w.roll.value.hour == h && !Conflict(w.tables, w.roll.value) then [EndRoll(false)]
    else (if w.roll.Some? then [EndRoll(true)] else []) + [RegisterHours(h)] + [BeginRoll(h), EndRoll(false)]
  }

  lemma Registers(w: World, r: Row)
    requires Inv(w) && w.roll.None? && r in Stored(w) && TruncHour(r.heardAt) + ROLLUP_DELAY <= w.now
    ensures TruncHour(r.heardAt) in Next(w, RegisterHours(TruncHour(r.heardAt))).tables.hours
  {
    var t, h := w.tables, TruncHour(r.heardAt);
    StoredMember(t.observations, t.packets, r);
    var o :| o in t.observations && o.packet in t.packets && Join(o, t.packets[o.packet]) == r;
    MinHeardLeast(t.observations, o);
    var first := Max(MinHeard(t.observations), h);
    HourOfInstant(first, h);
    HourOfLater(h, w.now - ROLLUP_DELAY);
    assert h in EligibleHours(t, w.now, h);
  }

  lemma {:induction false} MinHeardLeast(observations: seq<Observation>, o: Observation)
    requires o in observations
    ensures MinHeard(observations) <= o.heardAt
  {
    var front, last := observations[..|observations| - 1], observations[|observations| - 1];
    assert observations == front + [last];
    if o in front { MinHeardLeast(front, o); }
  }

  /** From a state without a roll, registration and one undisturbed roll make an intact closed hour complete. */
  lemma RollsThrough(w: World, r: Row)
    requires Inv(w) && PartialIsLost(w) && w.roll.None? && r in Stored(w)
    requires TruncHour(r.heardAt) + ROLLUP_DELAY <= w.now && Intact(w.tables, TruncHour(r.heardAt))
    ensures var h := TruncHour(r.heardAt);
            var steps := [RegisterHours(h)] + [BeginRoll(h), EndRoll(false)];
            && IsRun(w, steps) && IsComplete(After(w, steps).tables, h)
            && Stored(After(w, steps)) == Stored(w) && After(w, steps).ever == w.ever
  {
    var h := TruncHour(r.heardAt);
    Registers(w, r);
    StepKeepsPartialLost(w, RegisterHours(h));
    RunSnoc(w, [], RegisterHours(h));
    assert [] + [RegisterHours(h)] == [RegisterHours(h)];
    var w1 := Next(w, RegisterHours(h));
    OneRoll(w1, h);
    RunsCompose(w, [RegisterHours(h)], [BeginRoll(h), EndRoll(false)]);
  }

  lemma OneStep(w: World, s: Step)
    requires Enabled(w, s)
    ensures IsRun(w, [s]) && After(w, [s]) == Next(w, s)
  {
    RunSnoc(w, [], s);
    assert [] + [s] == [s];
  }

  lemma CanBeCompleted(w: World, r: Row)
    requires Inv(w) && PartialIsLost(w) && r in Stored(w) && TruncHour(r.heardAt) + ROLLUP_DELAY <= w.now
    requires IsComplete(w.tables, TruncHour(r.heardAt)) || CanComplete(w, TruncHour(r.heardAt))
    ensures var steps := CompletingSteps(w, TruncHour(r.heardAt));
            && IsRun(w, steps) && IsComplete(After(w, steps).tables, TruncHour(r.heardAt))
            && Stored(After(w, steps)) == Stored(w)
  {
    var h := TruncHour(r.heardAt);
    if IsComplete(w.tables, h) {
    } else if w.roll.Some? && w.roll.value.hour == h && !Conflict(w.tables, w.roll.value) {
      OneStep(w, EndRoll(false));
    } else if w.roll.Some? {
      OneStep(w, EndRoll(true));
      StepKeepsInv(w, EndRoll(true));
      var w1 := Next(w, EndRoll(true));
      RollsThrough(w1, r);
      var rest := [RegisterHours(h)] + [BeginRoll(h), EndRoll(false)];
      RunsCompose(w, [EndRoll(true)], rest);
      assert [EndRoll(true)] + rest == CompletingSteps(w, h);
    } else {
      RollsThrough(w, r);
      assert [] + [RegisterHours(h)] + [BeginRoll(h), EndRoll(false)]
          == [RegisterHours(h)] + [BeginRoll(h), EndRoll(false)];
    }
  }

  /** A tail on the hour, or one whose hour has closed. */
  predicate Settled(w: World, tail: int) {
    tail % HOUR == 0 || tail + ROLLUP_DELAY <= w.now
  }

  /** The exact condition, in the state of the watermark read. For a window that does not end in the future: whatever
      happens before the rows are read, every observation is counted once, if and only if no row is at risk. */
  lemma CountsOnceIff(now: int, before: seq<Step>, asked: int, observer: nat, window: int, interval: int,
                      until: Option<int>,
                      watermark: Option<int>)
    requires IsRun(Start(now), before) && IsWatermark(After(Start(now), before).tables, watermark)
    requires WindowOf(window, interval, until, asked).until <= After(Start(now), before).now
    ensures var w, win := After(Start(now), before), WindowOf(window, interval, until, asked);
            var tail := TailStart(watermark, win.until);
            (forall steps :: OnceAfter(w, steps, observer, win, tail)) <==> !AtRisk(w, observer, win, tail)
  {
    var w, win := After(Start(now), before), WindowOf(window, interval, until, asked);
    var tail := TailStart(watermark, win.until);
    RunKeepsInv(Start(now), before);
    RunKeepsOnlyHeard(Start(now), before);
    RunKeepsPartialLost(Start(now), before);
    TailIsSettled(w, win, watermark);
    if AtRisk(w, observer, win, tail) {
      RiskIsReal(w, observer, win, tail);
    } else {
      forall steps ensures OnceAfter(w, steps, observer, win, tail) {
        if IsRun(w, steps) { SafeStaysSafe(w, steps, observer, win, tail); }
      }
    }
  }

  lemma TailIsSettled(w: World, win: Window, watermark: Option<int>)
    requires Inv(w) && IsWatermark(w.tables, watermark) && win.until <= w.now
    ensures Settled(w, TailStart(watermark, win.until))
  {
  }

  /** A row above a tail in an hour below it has been closed to ingest. */
  lemma SharedIsClosed(w: World, observer: nat, win: Window, tail: int, r: Row)
    requires Settled(w, tail) && Shared(observer, win, tail, r)
    ensures TruncHour(r.heardAt) + ROLLUP_DELAY <= w.now
  {
    if tail % HOUR == 0 { AlignedGap(TruncHour(r.heardAt), tail); }
  }

  lemma RiskIsReal(w: World, observer: nat, win: Window, tail: int)
    requires Inv(w) && OnlyHeard(w) && PartialIsLost(w) && Settled(w, tail) && AtRisk(w, observer, win, tail)
    ensures exists steps :: !OnceAfter(w, steps, observer, win, tail)
  {
    var r :| r in Stored(w) && Shared(observer, win, tail, r)
             && (IsComplete(w.tables, TruncHour(r.heardAt)) || CanComplete(w, TruncHour(r.heardAt)));
    var steps := CompletingSteps(w, TruncHour(r.heardAt));
    SharedIsClosed(w, observer, win, tail, r);
    CanBeCompleted(w, r);
    RunKeepsOnlyHeard(w, steps);
    CountsOnceIffNotTwice(After(w, steps), observer, win, tail);
    assert !OnceAfter(w, steps, observer, win, tail);
  }

  lemma SafeStaysSafe(w: World, steps: seq<Step>, observer: nat, win: Window, tail: int)
    requires Inv(w) && OnlyHeard(w) && Settled(w, tail) && !AtRisk(w, observer, win, tail) && IsRun(w, steps)
    ensures CountsOnce(After(w, steps), observer, win, tail)
  {
    var w' := After(w, steps);
    RunKeepsOnlyHeard(w, steps);
    CountsOnceIffNotTwice(w', observer, win, tail);
    if Twice(w', observer, win, tail) {
      var r :| r in Stored(w') && Shared(observer, win, tail, r) && IsComplete(w'.tables, TruncHour(r.heardAt));
      SharedIsClosed(w, observer, win, tail, r);
      NothingOldIsStored(w, steps, r);
      NeverCompletes(w, steps, TruncHour(r.heardAt));
    }
  }

  // ---- the risk is reachable ----

  const MID: Observation := HEARD.(heardAt := 30 * MINUTE)
  const MID_ROW: Row := Join(MID, PLAIN)

  /** One observation in the middle of hour 0, and a day and ten minutes without a roll ... */
  const UNROLLED: seq<Step> := [UpsertPacket(1, PLAIN), InsertObservation(MID, 0), Tick(24 * HOUR + 10 * MINUTE)]

  /** ... then hour 0 is rolled after the watermark was read. */
  const MEANWHILE: seq<Step> := [RegisterHours(0)] + [BeginRoll(0), EndRoll(false)]

  lemma UnrolledWorld()
    ensures IsRun(Start(0), UNROLLED)
    ensures var w := After(Start(0), UNROLLED);
            && w.now == 24 * HOUR + 10 * MINUTE && w.roll.None? && w.tables.rawDeletedBefore.None?
            && w.tables.hours == map[] && w.ever == [MID_ROW] && w.tables.observations == [MID]
            && 1 in w.tables.packets && w.tables.packets[1] == PLAIN
  {
    var w0 := Start(0);
    RunSnoc(w0, [], UNROLLED[0]);
    assert [] + [UNROLLED[0]] == UNROLLED[..1];
    RunSnoc(w0, UNROLLED[..1], UNROLLED[1]);
    assert UNROLLED[..1] + [UNROLLED[1]] == UNROLLED[..2];
    RunSnoc(w0, UNROLLED[..2], UNROLLED[2]);
    assert UNROLLED[..2] + [UNROLLED[2]] == UNROLLED;
    assert [] + [MID] == [MID] && [] + [MID_ROW] == [MID_ROW];
  }

  lemma OneStored(p: map<Hash, Packet>)
    requires 1 in p && p[1] == PLAIN
    ensures StoredRows([MID], p) == [MID_ROW]
  {
    assert [MID][..0] == [] && StoredRows([], p) == [];
  }

  lemma RolledMeanwhile()
    ensures IsRun(Start(0), UNROLLED) && IsRun(After(Start(0), UNROLLED), MEANWHILE)
    ensures var w := After(After(Start(0), UNROLLED), MEANWHILE);
            Inv(w) && IsComplete(w.tables, 0) && Stored(w) == [MID_ROW] && w.ever == [MID_ROW]
  {
    UnrolledWorld();
    var w := After(Start(0), UNROLLED);
    OneStored(w.tables.packets);
    RunKeepsInv(Start(0), UNROLLED);
    RunKeepsPartialLost(Start(0), UNROLLED);
    HourOfInstant(MID_ROW.heardAt, 0);
    RollsThrough(w, MID_ROW);
    RunKeepsInv(w, MEANWHILE);
  }

  const DAY: Window := Window(0, 24 * HOUR + 10 * MINUTE)

  lemma CountedTwiceThere(w: World)
    requires IsComplete(w.tables, 0) && Stored(w) == [MID_ROW] && w.ever == [MID_ROW]
    ensures Counted(w, 7, DAY, 10 * MINUTE) == [MID_ROW, MID_ROW]
  {
    HourOfInstant(MID_ROW.heardAt, 0);
    FilterAll([MID_ROW], RolledSide(w.tables, 7, DAY, 10 * MINUTE));
    FilterAll([MID_ROW], RawSide(7, DAY, 10 * MINUTE));
  }

  /** Nothing is complete when the watermark is read, so the tail is a day back, off the hour. The one observation is
      then counted from the rolled hour and from the raw tail. */
  lemma OneObservationCountsTwice()
    ensures IsRun(Start(0), UNROLLED) && IsRun(After(Start(0), UNROLLED), MEANWHILE)
    ensures var first, second := After(Start(0), UNROLLED), After(After(Start(0), UNROLLED), MEANWHILE);
            && IsWatermark(first.tables, None) && WindowOf(25 * HOUR, HOUR, None, first.now) == DAY
            && BucketOf(HourlyRows(second.tables, 7, DAY, TailStart(None, DAY.until), HOUR), 0).observations == 2
            && Heard(second.ever, 7, DAY.since, DAY.until, InBucket(HOUR, 0)).observations == 1
  {
    UnrolledWorld();
    RolledMeanwhile();
    DayWindow();
    TwoForOne(After(After(Start(0), UNROLLED), MEANWHILE));
  }

  lemma DayWindow()
    ensures WindowOf(25 * HOUR, HOUR, None, 24 * HOUR + 10 * MINUTE) == DAY && TailStart(None, DAY.until) == 10 * MINUTE
  {
  }

  lemma PassOfOne(r: Row, share: Row -> Activity)
    ensures Pass([r], share, PlusActivity, NO_ACTIVITY) == share(r)
  {
    assert [r][..0] == [];
    assert Pass([], share, PlusActivity, NO_ACTIVITY) == NO_ACTIVITY;
    NothingAdded(share(r));
  }

  lemma PassOfTwo(r: Row, share: Row -> Activity)
    ensures Pass([r, r], share, PlusActivity, NO_ACTIVITY).observations == 2 * share(r).observations
  {
    PassOfOne(r, share);
    var two := [r, r];
    assert two[..1] == [r] && two[1] == r;
    assert Pass(two, share, PlusActivity, NO_ACTIVITY)
        == PlusActivity(Pass(two[..1], share, PlusActivity, NO_ACTIVITY), share(two[1]));
    OneCounts(share(r), share(r));
  }

  lemma OneHeard(r: Row, observer: nat, lo: int, hi: int, sel: int -> bool)
    requires CountsAt(observer, lo, hi, sel)(r)
    ensures Heard([r], observer, lo, hi, sel).observations == 1
  {
    CountIsLength([r], observer, lo, hi, sel);
    FilterAll([r], CountsAt(observer, lo, hi, sel));
  }

  lemma WantedCounts(sel: int -> bool, r: Row)
    ensures Wanted(sel)(r).observations == if sel(r.heardAt) then 1 else 0
  {
  }

  lemma TwoForOne(w: World)
    requires Inv(w) && IsComplete(w.tables, 0) && Stored(w) == [MID_ROW] && w.ever == [MID_ROW]
    ensures BucketOf(HourlyRows(w.tables, 7, DAY, 10 * MINUTE, HOUR), 0).observations == 2
    ensures Heard(w.ever, 7, DAY.since, DAY.until, InBucket(HOUR, 0)).observations == 1
  {
    CountedTwiceThere(w);
    ShownTwice(w, 7, DAY, 10 * MINUTE, MID_ROW);
    OneHeard(MID_ROW, 7, DAY.since, DAY.until, InBucket(HOUR, 0));
  }

  lemma ShownTwice(w: World, observer: nat, win: Window, tail: int, r: Row)
    requires Inv(w) && Counted(w, observer, win, tail) == [r, r] && InBucket(HOUR, 0)(r.heardAt)
    ensures BucketOf(HourlyRows(w.tables, observer, win, tail, HOUR), 0).observations == 2
  {
    StitchedIsCounted(w, observer, win, tail, HOUR, 0);
    BothSides(r, InBucket(HOUR, 0));
  }

  lemma BothSides(r: Row, sel: int -> bool)
    requires sel(r.heardAt)
    ensures Pass([r, r], Wanted(sel), PlusActivity, NO_ACTIVITY).observations == 2
  {
    PassOfTwo(r, Wanted(sel));
    WantedCounts(sel, r);
  }
}
