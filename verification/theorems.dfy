/** Theorems about whole runs of the rollup: exact content, closed hours, the hour life cycle, the revision as a
    cache validator, and re-rolls that change nothing. */
module RunTheorems {
  import opened Base
  import opened SetBuckets
  import opened Families
  import opened DistinctCounts
  import opened World
  import opened RawRows
  import opened Protocol

  // ---- exactness ----

  /** In every reachable state a complete hour's observation families are the aggregate over every observation
      ever inserted with heard_at in that hour, also after cleanup has deleted the raw rows. */
  lemma CompleteHourIsExact(now: int, steps: seq<Step>, h: int, f: Family)
    requires IsRun(Start(now), steps) && f != TalkerSets
    ensures var w := After(Start(now), steps);
            IsComplete(w.tables, h) ==>
              && h in w.tables.content && f in w.tables.content[h]
              && w.tables.content[h][f] == Roll(f, RowsIn(w.ever, h), map[])
  {
    RunKeepsInv(Start(now), steps);
    var w := After(Start(now), steps);
    if IsComplete(w.tables, h) {
      ExactFamily(w.tables.content[h], RowsIn(w.ever, h), f);
    }
  }

  lemma ExactFamily(content: Content, rows: seq<Row>, f: Family)
    requires Exact(content, rows) && f != TalkerSets
    ensures f in content && content[f] == Roll(f, rows, map[])
  {
    assert f in ALL_FAMILIES;
    assert (content - {TalkerSets})[f] == ObservedFamilies(rows)[f];
  }

  /** So the packet total read back for any IATA filter is the number of distinct packets ever heard there that hour. */
  lemma ReadBackPackets(now: int, steps: seq<Step>, h: int, filter: set<Iata>)
    requires IsRun(Start(now), steps) && IsComplete(After(Start(now), steps).tables, h)
    ensures var w := After(Start(now), steps);
            && h in w.tables.content && PacketSets in w.tables.content[h] && w.tables.content[h][PacketSets].PacketRows?
            && PacketCount(w.tables.content[h][PacketSets].packets, filter)
               == |set r | r in RowsIn(w.ever, h) && Selected(r, filter) :: r.packet|
  {
    CompleteHourIsExact(now, steps, h, PacketSets);
    PacketSetsExact(RowsIn(After(Start(now), steps).ever, h), filter);
  }

  // ---- closed hours ----

  lemma StepLeavesClosedHour(w: World, s: Step, h: int)
    requires Inv(w) && Enabled(w, s) && h + ROLLUP_DELAY <= w.now
    ensures RowsIn(Next(w, s).ever, h) == RowsIn(w.ever, h)
    ensures h + ROLLUP_DELAY <= Next(w, s).now
  {
    if s.InsertObservation? && Next(w, s) != w {
      InsertedRows(w.tables, w.ever, s.observation, h);
    }
  }

  /** Once an hour is registered, no run adds a row to it: the first roll of its observation families is final. */
  lemma {:induction false} RegisteredHourIsClosed(w: World, steps: seq<Step>, h: int)
    requires Inv(w) && IsRun(w, steps) && h + ROLLUP_DELAY <= w.now
    ensures RowsIn(After(w, steps).ever, h) == RowsIn(w.ever, h)
    decreases |steps|
  {
    if steps != [] {
      StepLeavesClosedHour(w, steps[0], h);
      StepKeepsInv(w, steps[0]);
      RegisteredHourIsClosed(Next(w, steps[0]), steps[1..], h);
    }
  }

  /** An hour complete now and complete later shows the same observation families, whatever ran in between:
      cleanup, re-rolls, even retention followed by a new registration. */
  lemma FirstRollIsFinal(w: World, steps: seq<Step>, h: int)
    requires Inv(w) && IsRun(w, steps) && IsComplete(w.tables, h) && IsComplete(After(w, steps).tables, h)
    ensures h in w.tables.content && h in After(w, steps).tables.content
    ensures w.tables.content[h] - {TalkerSets} == After(w, steps).tables.content[h] - {TalkerSets}
  {
    RunKeepsInv(w, steps);
    RegisteredHourIsClosed(w, steps, h);
  }

  // ---- life cycle ----

  function StatusOf(t: Tables, h: int): Option<Status> {
    if h in t.hours then Some(t.hours[h].status) else None
  }

  /** Status moves only from missing to complete or partial; rows appear missing and leave by retention alone. */
  lemma StepMovesStatus(w: World, s: Step, h: int)
    requires Inv(w) && Enabled(w, s)
    ensures var before, after := StatusOf(w.tables, h), StatusOf(Next(w, s).tables, h);
            || after == before
            || (before == None && after == Some(Missing) && s.RegisterHours?)
            || (before == Some(Missing) && after == Some(Complete) && s == EndRoll(false) && w.roll.value.hour == h)
            || (before == Some(Missing) && after == Some(Partial) && !Intact(w.tables, h))
            || (before.Some? && after == None && s.DeleteOldRollups? && h < s.cutoff)
  {
  }

  ghost predicate KeepsHour(steps: seq<Step>, h: int) {
    forall i :: 0 <= i < |steps| && steps[i].DeleteOldRollups? ==> steps[i].cutoff <= h
  }

  /** Complete and partial are final until retention reaches the hour. */
  lemma {:induction false} FinalUntilRetention(w: World, steps: seq<Step>, h: int)
    requires Inv(w) && IsRun(w, steps) && KeepsHour(steps, h)
    requires StatusOf(w.tables, h) in {Some(Complete), Some(Partial)}
    ensures StatusOf(After(w, steps).tables, h) == StatusOf(w.tables, h)
    decreases |steps|
  {
    if steps != [] {
      StepMovesStatus(w, steps[0], h);
      StepKeepsInv(w, steps[0]);
      forall i | 0 <= i < |steps[1..]| && steps[1..][i].DeleteOldRollups? ensures steps[1..][i].cutoff <= h {
        assert steps[1..][i] == steps[i + 1];
      }
      FinalUntilRetention(Next(w, steps[0]), steps[1..], h);
    }
  }

  /** Family rows exist exactly for complete hours, in every reachable state. */
  lemma ContentOnlyForCompleteHours(now: int, steps: seq<Step>, h: int)
    requires IsRun(Start(now), steps)
    ensures h in After(Start(now), steps).tables.content <==> IsComplete(After(Start(now), steps).tables, h)
  {
    RunKeepsInv(Start(now), steps);
  }

  /** Retention leaves nothing below its cutoff and everything at or above it, and moves coverage exactly when an hour
      row goes. */
  lemma RetentionIsExact(w: World, cutoff: int)
    requires Inv(w) && Enabled(w, DeleteOldRollups(cutoff))
    ensures var t, t' := w.tables, Next(w, DeleteOldRollups(cutoff)).tables;
            && (forall h :: h in t'.hours.Keys + t'.content.Keys + t'.dirty.Keys ==> h >= cutoff)
            && (forall h :: h >= cutoff ==> At(t'.hours, h) == At(t.hours, h) && At(t'.content, h) == At(t.content, h)
                                            && At(t'.dirty, h) == At(t.dirty, h))
            && (t'.coverage == t.coverage + 1 <==> t'.hours != t.hours)
            && (t'.coverage == t.coverage <==> t'.hours == t.hours)
  {
  }

  // ---- the revision ----

  /** What a reader of the series can tell about an hour; an unregistered hour reads as missing. */
  datatype Shown = Shown(status: Status, content: Option<Content>)

  function ShownHour(t: Tables, h: int): Shown {
    if h !in t.hours then Shown(Missing, None)
    else Shown(t.hours[h].status, if t.hours[h].status == Complete then At(t.content, h) else None)
  }

  function Revision(t: Tables): nat {
    t.revision + t.coverage
  }

  /** A step never lowers the revision, and one that keeps it keeps what every hour shows. */
  lemma StepRevision(w: World, s: Step)
    requires Inv(w) && Enabled(w, s)
    ensures Revision(w.tables) <= Revision(Next(w, s).tables)
    ensures Revision(w.tables) == Revision(Next(w, s).tables)
            ==> forall h: int :: ShownHour(Next(w, s).tables, h) == ShownHour(w.tables, h)
  {
  }

  /** The revision is a sound cache validator: over any run, an equal revision means every hour shows the same. */
  lemma {:induction false} RevisionValidates(w: World, steps: seq<Step>)
    requires Inv(w) && IsRun(w, steps)
    ensures Revision(w.tables) <= Revision(After(w, steps).tables)
    ensures Revision(w.tables) == Revision(After(w, steps).tables)
            ==> forall h: int :: ShownHour(After(w, steps).tables, h) == ShownHour(w.tables, h)
    decreases |steps|
  {
    if steps != [] {
      StepRevision(w, steps[0]);
      StepKeepsInv(w, steps[0]);
      RevisionValidates(Next(w, steps[0]), steps[1..]);
    }
  }

  lemma {:induction false} RunsCompose(w: World, first: seq<Step>, second: seq<Step>)
    requires IsRun(w, first) && IsRun(After(w, first), second)
    ensures IsRun(w, first + second) && After(w, first + second) == After(After(w, first), second)
    decreases |first|
  {
    if first == [] {
      assert first + second == second;
    } else {
      assert (first + second)[1..] == first[1..] + second;
      RunsCompose(Next(w, first[0]), first[1..], second);
    }
  }

  /** A series response reads the revision in one state and its hours in a later one. If the revision is still
      the reported one, what the response shows is what a fresh read shows. */
  lemma CachedSeriesIsFresh(w: World, untilRead: seq<Step>, since: seq<Step>)
    requires Inv(w) && IsRun(w, untilRead) && IsRun(After(w, untilRead), since)
    requires Revision(After(After(w, untilRead), since).tables) == Revision(w.tables)
    ensures forall h: int :: ShownHour(After(After(w, untilRead), since).tables, h)
                             == ShownHour(After(w, untilRead).tables, h)
  {
    RunKeepsInv(w, untilRead);
    RevisionValidates(w, untilRead);
    RevisionValidates(After(w, untilRead), since);
  }

  // ---- re-rolls ----

  /** Rolling an hour twice with nothing in between changes nothing the second time: no family, no revision. */
  lemma RollIsIdempotent(w: World, h: int)
    requires w.roll.None? && LockRollupHour(w.tables, h) in {Some(Missing), Some(Complete)}
    ensures var w1 := After(w, [BeginRoll(h), EndRoll(false)]);
            IsRun(w, [BeginRoll(h), EndRoll(false)]) && w1.roll.None? && IsRun(w1, [BeginRoll(h), EndRoll(false)])
            && IsComplete(w1.tables, h) && h !in w1.tables.dirty
            && After(w1, [BeginRoll(h), EndRoll(false)]) == w1
  {
    OneRoll(w, h);
    RecommitIsNothing(w.tables, h);
    OneRoll(w.(tables := Committed(w.tables, RollTx(h, w.tables))), h);
  }

  /** Committing a second roll of the same inputs rewrites what is there. */
  lemma RecommitIsNothing(t: Tables, h: int)
    requires LockRollupHour(t, h) in {Some(Missing), Some(Complete)}
    ensures var t1 := Committed(t, RollTx(h, t));
            && IsComplete(t1, h) && h !in t1.dirty && LockRollupHour(t1, h) == Some(Complete)
            && Committed(t1, RollTx(h, t1)) == t1
  {
    var t1 := Committed(t, RollTx(h, t));
    assert Rolled(RollTx(h, t1)) == Rolled(RollTx(h, t));
    assert t1.content[h := t1.content[h]] == t1.content && t1.hours[h := t1.hours[h]] == t1.hours;
  }

  lemma OneRoll(w: World, h: int)
    requires w.roll.None? && LockRollupHour(w.tables, h) in {Some(Missing), Some(Complete)}
    ensures IsRun(w, [BeginRoll(h), EndRoll(false)])
    ensures After(w, [BeginRoll(h), EndRoll(false)]) == w.(tables := Committed(w.tables, RollTx(h, w.tables)))
  {
    var roll := [BeginRoll(h), EndRoll(false)];
    assert roll[1..] == [EndRoll(false)] && roll[1..][1..] == [];
    var w' := Next(w, BeginRoll(h));
    assert w' == w.(roll := Some(RollTx(h, w.tables)));
    assert After(w', [EndRoll(false)]) == Next(w', EndRoll(false));
  }
}
