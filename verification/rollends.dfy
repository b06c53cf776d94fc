/** When a roll commits and when it is skipped, in terms of what the other processes do meanwhile. */
module RollOutcomes {
  import opened Base
  import opened SetBuckets
  import opened Families
  import opened World
  import opened Protocol

  /** Steps the other processes take while a roll is in flight. */
  predicate IsForeign(s: Step) {
    !s.RegisterHours? && !s.MarkPartialHours? && !s.BeginRoll? && !s.EndRoll? && !s.DeleteStaleDirtyHours?
  }

  /** A new historical message, for a packet that is stored as heard in the hour. */
  ghost predicate Queues(t: Tables, s: Step, hour: int) {
    && s.InsertChannelMessage? && s.historical && s.hash in t.packets && s.hash !in t.messages
    && exists o :: o in t.observations && o.packet == s.hash && hour <= o.heardAt < hour + 3_600_000_000
  }

  /** One of the steps does so when its turn comes. */
  ghost predicate QueuedBy(w: World, steps: seq<Step>, hour: int)
    requires IsRun(w, steps)
    decreases |steps|
  {
    steps != [] && (Queues(w.tables, steps[0], hour) || QueuedBy(Next(w, steps[0]), steps[1..], hour))
  }

  /** The hour is registered, not partial, and raw deletion ends at least 30 minutes before it. */
  predicate Rollable(t: Tables, hour: int) {
    && hour in t.hours && t.hours[hour].status != Partial
    && (t.rawDeletedBefore.None? || t.rawDeletedBefore.value + 1_800_000_000 < hour)
  }

  lemma RollableIffLocked(t: Tables, hour: int)
    ensures Rollable(t, hour) <==> LockRollupHour(t, hour) in {Some(Missing), Some(Complete)}
    ensures hour in t.hours && !Rollable(t, hour) <==> LockRollupHour(t, hour) == Some(Partial)
  {
  }

  /** The queue entry of the hour after a step: a new version, or the old entry. */
  lemma StepQueues(w: World, s: Step)
    requires Inv(w) && Enabled(w, s) && IsForeign(s) && w.roll.Some?
    ensures var hour := w.roll.value.hour;
            At(Next(w, s).tables.dirty, hour)
            == if Queues(w.tables, s, hour) then Some(w.stamp + 1) else At(w.tables.dirty, hour)
    ensures Next(w, s).roll == w.roll && Next(w, s).stamp >= w.stamp
    ensures Queues(w.tables, s, w.roll.value.hour) ==> Next(w, s).stamp == w.stamp + 1
  {
    var hour := w.roll.value.hour;
    if s.InsertChannelMessage? {
      forall o: Observation ensures TruncHour(o.heardAt) == hour <==> hour <= o.heardAt < hour + HOUR {
        HourOfInstant(o.heardAt, hour);
      }
      assert hour in HoursOf(w.tables.observations, s.hash) <==>
             exists o :: o in w.tables.observations && o.packet == s.hash && hour <= o.heardAt < hour + 3_600_000_000;
    }
  }

  /** Over the foreign steps the entry changes exactly when the hour is queued by one of them, and then to a newer
      version. */
  lemma {:induction false} StepsQueue(w: World, steps: seq<Step>)
    requires Inv(w) && IsRun(w, steps) && w.roll.Some? && forall s :: s in steps ==> IsForeign(s)
    ensures After(w, steps).roll == w.roll && Inv(After(w, steps))
    ensures var hour, entry := w.roll.value.hour, At(After(w, steps).tables.dirty, w.roll.value.hour);
            if QueuedBy(w, steps, hour) then entry.Some? && entry.value > w.stamp else entry == At(w.tables.dirty, hour)
    decreases |steps|
  {
    if steps != [] {
      StepQueues(w, steps[0]);
      StepKeepsInv(w, steps[0]);
      forall s | s in steps[1..] ensures IsForeign(s) { assert s in steps; }
      StepsQueue(Next(w, steps[0]), steps[1..]);
    }
  }

  /** Only the queue entry can have moved: everything else of the hour is held by the row lock, the revision by the
      session. */
  lemma ConflictIsRequeue(w: World)
    requires Inv(w) && w.roll.Some?
    ensures var tx := w.roll.value;
            Conflict(w.tables, tx)
            <==> tx.hour in tx.snapshot.dirty && At(w.tables.dirty, tx.hour) != At(tx.snapshot.dirty, tx.hour)
  {
  }

  /** The exact outcome of a roll that nothing else makes fail. It is skipped, leaving the tables as the others made
      them, if and only if the hour was queued when the snapshot was taken and is queued again meanwhile. Otherwise
      the hour is complete, and queued exactly if it was queued meanwhile. */
  lemma RollCommitsIff(w: World, hour: int, others: seq<Step>)
    requires Inv(w) && w.roll.None? && Rollable(w.tables, hour) && forall s :: s in others ==> IsForeign(s)
    requires w.roll.None? ==> IsRun(Next(w, BeginRoll(hour)), others)
    ensures var begun := Next(w, BeginRoll(hour));
            var before := After(begun, others);
            && before.roll.Some?
            && var after := Next(before, EndRoll(false));
               if hour in w.tables.dirty && QueuedBy(begun, others, hour) then after == before.(roll := None)
               else
                 && hour in after.tables.hours && after.tables.hours[hour].status == Complete && after.roll == None
                 && At(after.tables.content, hour) == Some(RollAll(HourRows(w.tables, hour), w.tables.messages))
                 && (hour in after.tables.dirty <==> QueuedBy(begun, others, hour))
                 && (hour in after.tables.dirty ==> At(after.tables.dirty, hour) == At(before.tables.dirty, hour))
  {
    RollableIffLocked(w.tables, hour);
    var begun := Next(w, BeginRoll(hour));
    StepKeepsInv(w, BeginRoll(hour));
    StepsQueue(begun, others);
    ConflictIsRequeue(After(begun, others));
  }

  /** How such a roll ends, in the tables it started from and what the others do: skipped exactly if the hour was queued
      and is queued again; otherwise complete, and still queued exactly if it was queued meanwhile. */
  ghost predicate EndsAs(start: World, hour: int, others: seq<Step>, skipped: bool, end: World)
    requires start.roll.None?
  {
    var begun := Next(start, BeginRoll(hour));
    && IsRun(begun, others)
    && (skipped <==> hour in start.tables.dirty && QueuedBy(begun, others, hour))
    && (!skipped ==>
          && hour in end.tables.hours && end.tables.hours[hour].status == Complete
          && (hour in end.tables.dirty <==> QueuedBy(begun, others, hour)))
  }

  lemma RollEnds(start: World, hour: int, others: seq<Step>, skipped: bool)
    requires Inv(start) && start.roll.None? && Rollable(start.tables, hour) && forall s :: s in others ==> IsForeign(s)
    requires IsRun(Next(start, BeginRoll(hour)), others)
    requires var before := After(Next(start, BeginRoll(hour)), others);
             before.roll.Some? && (skipped <==> Conflict(before.tables, before.roll.value))
    ensures EndsAs(start, hour, others, skipped, Next(After(Next(start, BeginRoll(hour)), others), EndRoll(false)))
  {
    RollCommitsIff(start, hour, others);
    var begun := Next(start, BeginRoll(hour));
    StepKeepsInv(start, BeginRoll(hour));
    StepsQueue(begun, others);
    ConflictIsRequeue(After(begun, others));
  }
}
