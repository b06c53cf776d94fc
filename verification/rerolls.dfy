/** No lost re-roll: a complete hour whose raw rows are intact either shows the talkers of the current messages or is
    queued. Exactly one kind of step can break this, and it is characterised. */
module Freshness {
  import opened Base
  import opened SetBuckets
  import opened Families
  import opened DistinctCounts
  import opened World
  import opened RawRows
  import opened Protocol
  import opened RunTheorems

  /** What a roll of the hour would write into the talker family now. */
  function TalkersNow(t: Tables, h: int): FamilyRows {
    Roll(TalkerSets, HourRows(t, h), t.messages)
  }

  function TalkersShown(t: Tables, h: int): Option<FamilyRows> {
    if h in t.content && TalkerSets in t.content[h] then Some(t.content[h][TalkerSets]) else None
  }

  ghost predicate HourFresh(t: Tables, h: int) {
    IsComplete(t, h) && Intact(t, h) ==> TalkersShown(t, h) == Some(TalkersNow(t, h)) || h in t.dirty
  }

  /** The hour was queued after the roll's snapshot, so the roll will abort or leave the queue entry behind. */
  predicate Requeued(t: Tables, tx: RollTx) {
    tx.hour in t.dirty && At(t.dirty, tx.hour) != At(tx.snapshot.dirty, tx.hour)
  }

  /** A roll in flight will write the current talkers, unless its hour has been queued again. */
  ghost predicate RollFresh(w: World) {
    w.roll.Some? && Intact(w.tables, w.roll.value.hour) ==>
      || TalkersNow(w.roll.value.snapshot, w.roll.value.hour) == TalkersNow(w.tables, w.roll.value.hour)
      || Requeued(w.tables, w.roll.value)
  }

  ghost predicate Fresh(w: World) {
    (forall h: int :: HourFresh(w.tables, h)) && RollFresh(w)
  }

  /** Nothing a re-roll would notice: a live (not historical) named message is new, and its packet was already heard
      in an intact hour that is rolled or being rolled and not queued for another roll. */
  predicate Overlooked(t: Tables, roll: Option<RollTx>, h: int) {
    Intact(t, h) && ((IsComplete(t, h) && h !in t.dirty) ||
                     (roll.Some? && roll.value.hour == h && !Requeued(t, roll.value)))
  }

  predicate LiveGap(w: World, s: Step) {
    && s.InsertChannelMessage? && !s.historical && s.message.sender.Some?
    && s.hash in w.tables.packets && s.hash !in w.tables.messages
    && exists h :: h in HoursOf(w.tables.observations, s.hash) && Overlooked(w.tables, w.roll, h)
  }

  /** A step that shows no complete intact hour anything new and dequeues none of them keeps freshness. */
  lemma Carry(w: World, w': World)
    requires Fresh(w) && w'.roll == w.roll
    requires forall h :: IsComplete(w'.tables, h) && Intact(w'.tables, h) ==>
               && IsComplete(w.tables, h) && Intact(w.tables, h)
               && TalkersShown(w'.tables, h) == TalkersShown(w.tables, h)
               && TalkersNow(w'.tables, h) == TalkersNow(w.tables, h)
               && (h in w.tables.dirty ==> h in w'.tables.dirty)
    requires w.roll.Some? && Intact(w'.tables, w.roll.value.hour) ==>
               var tx := w.roll.value;
               && Intact(w.tables, tx.hour)
               && TalkersNow(w'.tables, tx.hour) == TalkersNow(w.tables, tx.hour)
               && At(w'.tables.dirty, tx.hour) == At(w.tables.dirty, tx.hour)
    ensures Fresh(w')
  {
    forall h: int ensures HourFresh(w'.tables, h) {
      assert HourFresh(w.tables, h);
    }
  }

  lemma HeardInHour(t: Tables, hash: Hash, h: int)
    requires hash in t.packets && h % HOUR == 0
    ensures hash in PacketsOf(HourRows(t, h)) <==> h in HoursOf(t.observations, hash)
  {
    PacketsOfHour(t.observations, t.packets, h, hash);
    forall o | o in t.observations ensures InHour(o.heardAt, h) <==> h == TruncHour(o.heardAt) {
      HourOfInstant(o.heardAt, h);
    }
  }

  lemma DeleteKeepsFresh(w: World, s: Step)
    requires Inv(w) && Fresh(w) && Enabled(w, s) && s.DeleteOldPackets?
    ensures Fresh(Next(w, s))
  {
    var t, t' := w.tables, Next(w, s).tables;
    StepKeepsInv(w, s);
    forall h: int | Intact(t', h) ensures Intact(t, h) && TalkersNow(t', h) == TalkersNow(t, h) {
      assert HourRows(t', h) == RowsIn(w.ever, h) == HourRows(t, h);
      RowsOfKnownPackets(t'.observations, t'.packets, h);
      TalkersIgnoreOthers(HourRows(t', h), t.messages, t'.messages);
    }
    Carry(w, Next(w, s));
  }

  lemma InsertKeepsFresh(w: World, s: Step)
    requires Inv(w) && Fresh(w) && Enabled(w, s) && s.InsertObservation?
    ensures Fresh(Next(w, s))
  {
    var w' := Next(w, s);
    if w' != w {
      forall h | h in w.tables.hours ensures HourRows(w'.tables, h) == HourRows(w.tables, h) {
        InsertedRows(w.tables, w.ever, s.observation, h);
      }
      Carry(w, w');
    }
  }

  lemma PacketStepKeepsFresh(w: World, s: Step)
    requires Inv(w) && Fresh(w) && Enabled(w, s) && (s.UpsertPacket? || s.TouchPacket?)
    ensures Fresh(Next(w, s))
  {
    var t, t' := w.tables, Next(w, s).tables;
    forall h: int ensures HourRows(t', h) == HourRows(t, h) {
      RollupObsAgree(t.observations, t.packets, t'.packets, h);
    }
    Carry(w, Next(w, s));
  }

  /** A commit without conflict shows the talkers it will be judged by, or leaves the newer queue entry in place. */
  lemma InstallKeepsFresh(w: World, tx: RollTx, content: Content, changed: bool)
    requires Inv(w) && Fresh(w) && w.roll == Some(tx) && !Conflict(w.tables, tx)
    requires TalkerSets in content && content[TalkerSets] == TalkersNow(tx.snapshot, tx.hour)
    ensures Fresh(w.(roll := None, tables := Installed(w.tables, tx, content, changed)))
  {
    var t, t' := w.tables, Installed(w.tables, tx, content, changed);
    forall h: int ensures HourFresh(t', h) {
      assert HourFresh(t, h);
      assert TalkersNow(t', h) == TalkersNow(t, h);
    }
  }

  /** The message step, hour by hour: its talkers change exactly when the packet was heard in the hour. */
  lemma MessageInHour(w: World, s: Step, h: int)
    requires Inv(w) && s.InsertChannelMessage? && s.hash in w.tables.packets && s.hash !in w.tables.messages
    requires h % HOUR == 0
    ensures TalkersNow(Next(w, s).tables, h) == TalkersNow(w.tables, h)
            <==> s.message.sender.None? || h !in HoursOf(w.tables.observations, s.hash)
  {
    var t, rows := w.tables, HourRows(w.tables, h);
    HeardInHour(t, s.hash, h);
    if s.message.sender.None? {
      TalkersIgnoreSenderless(rows, t.messages, s.hash, s.message);
    } else if s.hash in PacketsOf(rows) {
      NewMessageShows(rows, t.messages, s.hash, s.message);
    } else {
      TalkersIgnoreOthers(rows, t.messages, t.messages[s.hash := s.message]);
    }
  }

  lemma MessageDirties(w: World, s: Step, h: int)
    requires Inv(w) && s.InsertChannelMessage? && s.hash in w.tables.packets && s.hash !in w.tables.messages
    ensures var d := if s.historical then HoursOf(w.tables.observations, s.hash) else {};
            At(Next(w, s).tables.dirty, h) == if h in d then Some(w.stamp + 1) else At(w.tables.dirty, h)
  {
  }

  lemma QuietMessageKeepsFresh(w: World, s: Step)
    requires Inv(w) && Fresh(w) && s.InsertChannelMessage? && !LiveGap(w, s)
    ensures Fresh(Next(w, s))
  {
    var w', t, t' := Next(w, s), w.tables, Next(w, s).tables;
    if w' != w {
      forall h: int ensures HourFresh(t', h) {
        assert HourFresh(t, h);
        MessageDirties(w, s, h);
        if IsComplete(t, h) {
          MessageInHour(w, s, h);
          if !s.historical && s.message.sender.Some? && h in HoursOf(t.observations, s.hash) {
            assert !Overlooked(t, w.roll, h);
          }
        }
      }
      if w.roll.Some? {
        var h := w.roll.value.hour;
        MessageDirties(w, s, h);
        MessageInHour(w, s, h);
        if !s.historical && s.message.sender.Some? && h in HoursOf(t.observations, s.hash) {
          assert !Overlooked(t, w.roll, h);
        }
      }
    }
  }

  lemma GapBreaksFresh(w: World, s: Step)
    requires Inv(w) && Fresh(w) && LiveGap(w, s)
    ensures !Fresh(Next(w, s))
  {
    var w', t, t' := Next(w, s), w.tables, Next(w, s).tables;
    var h :| h in HoursOf(t.observations, s.hash) && Overlooked(t, w.roll, h);
    assert h % HOUR == 0;
    MessageInHour(w, s, h);
    MessageDirties(w, s, h);
    if IsComplete(t, h) && h !in t.dirty {
      assert HourFresh(t, h);
      assert !HourFresh(t', h);
    } else {
      assert !RollFresh(w');
    }
  }

  /** The exact condition, for the visible hours and the roll in flight together: a live message for the hour being
      rolled makes the roll stale at once, and the hour with it at the commit. Over every interleaving, with rolls in
      flight and aborting or not, a step keeps the property unless it is the live insertion LiveGap describes, and that
      one breaks it. Historical insertions never do. */
  lemma StepKeepsFresh(w: World, s: Step)
    requires Inv(w) && Fresh(w) && Enabled(w, s)
    ensures Fresh(Next(w, s)) <==> !LiveGap(w, s)
  {
    var w' := Next(w, s);
    match s
    case Tick(_) => Carry(w, w');
    case UpsertPacket(_, _) => PacketStepKeepsFresh(w, s);
    case TouchPacket(_, _) => PacketStepKeepsFresh(w, s);
    case InsertObservation(_, _) => InsertKeepsFresh(w, s);
    case InsertChannelMessage(_, _, _) =>
      if LiveGap(w, s) { GapBreaksFresh(w, s); } else { QuietMessageKeepsFresh(w, s); }
    case DeleteOldPackets(_, _) => DeleteKeepsFresh(w, s);
    case RegisterHours(_) => Carry(w, w');
    case MarkPartialHours => Carry(w, w');
    case BeginRoll(_) => if w'.roll.None? { Carry(w, w'); }
    case EndRoll(fails) => EndKeepsFresh(w, fails);
    case DeleteStaleDirtyHours => Carry(w, w');
    case DeleteOldRollups(_) => RetentionKeepsFresh(w, s);
  }

  lemma EndKeepsFresh(w: World, fails: bool)
    requires Inv(w) && Fresh(w) && Enabled(w, EndRoll(fails))
    ensures Fresh(Next(w, EndRoll(fails)))
  {
    var tx := w.roll.value;
    if fails || Conflict(w.tables, tx) { Carry(w.(roll := None), Next(w, EndRoll(fails))); }
    else { InstallKeepsFresh(w, tx, Rolled(tx), Changed(tx)); }
  }

  lemma RetentionKeepsFresh(w: World, s: Step)
    requires Inv(w) && Fresh(w) && Enabled(w, s) && s.DeleteOldRollups?
    ensures Fresh(Next(w, s))
  {
    Carry(w, Next(w, s));
  }

  ghost predicate NoGap(w: World, steps: seq<Step>)
    requires IsRun(w, steps)
    decreases |steps|
  {
    steps == [] || (!LiveGap(w, steps[0]) && NoGap(Next(w, steps[0]), steps[1..]))
  }

  lemma {:induction false} RunKeepsFresh(w: World, steps: seq<Step>)
    requires Inv(w) && Fresh(w) && IsRun(w, steps) && NoGap(w, steps)
    ensures Fresh(After(w, steps))
    decreases |steps|
  {
    if steps != [] {
      StepKeepsFresh(w, steps[0]);
      StepKeepsInv(w, steps[0]);
      RunKeepsFresh(Next(w, steps[0]), steps[1..]);
    }
  }

  /** When every late message comes through the historical path, no re-roll is ever lost. */
  lemma {:induction false} HistoricalRunsHaveNoGap(w: World, steps: seq<Step>)
    requires IsRun(w, steps)
    requires forall i :: 0 <= i < |steps| && steps[i].InsertChannelMessage? ==> steps[i].historical
    ensures NoGap(w, steps)
    decreases |steps|
  {
    if steps != [] {
      forall i | 0 <= i < |steps[1..]| && steps[1..][i].InsertChannelMessage? ensures steps[1..][i].historical {
        assert steps[1..][i] == steps[i + 1];
      }
      HistoricalRunsHaveNoGap(Next(w, steps[0]), steps[1..]);
    }
  }

  lemma NoLostReroll(now: int, steps: seq<Step>, h: int)
    requires IsRun(Start(now), steps)
    requires forall i :: 0 <= i < |steps| && steps[i].InsertChannelMessage? ==> steps[i].historical
    ensures var t := After(Start(now), steps).tables;
            IsComplete(t, h) && Intact(t, h) ==> TalkersShown(t, h) == Some(TalkersNow(t, h)) || h in t.dirty
  {
    HistoricalRunsHaveNoGap(Start(now), steps);
    RunKeepsFresh(Start(now), steps);
    assert HourFresh(After(Start(now), steps).tables, h);
  }

  /** Re-rolling an hour that is complete, intact, fresh and not queued rewrites the very same tables. */
  lemma RerollOfFreshHour(w: World, h: int)
    requires Inv(w) && Fresh(w) && w.roll.None? && IsComplete(w.tables, h) && Intact(w.tables, h)
    requires h !in w.tables.dirty
    ensures IsRun(w, [BeginRoll(h), EndRoll(false)]) && After(w, [BeginRoll(h), EndRoll(false)]) == w
  {
    var t, tx := w.tables, RollTx(h, w.tables);
    OneRoll(w, h);
    assert HourFresh(t, h);
    RollAllObserved(HourRows(t, h), t.messages);
    SameContent(Rolled(tx), t.content[h]);
    assert t.content[h := t.content[h]] == t.content && t.hours[h := t.hours[h]] == t.hours;
  }

  lemma SameContent(a: Content, b: Content)
    requires TalkerSets in a && TalkerSets in b && a[TalkerSets] == b[TalkerSets]
    requires a - {TalkerSets} == b - {TalkerSets}
    ensures a == b
  {
    assert a.Keys == (a - {TalkerSets}).Keys + {TalkerSets};
    assert b.Keys == (b - {TalkerSets}).Keys + {TalkerSets};
    forall f | f in a && f != TalkerSets ensures a[f] == b[f] {
      assert (a - {TalkerSets})[f] == (b - {TalkerSets})[f];
    }
  }

  // ---- the gap is reachable ----

  const PLAIN: Packet := Packet(1, None, None, 0)
  const HEARD: Observation := Observation(1, 7, "YVR", 0, 0, 1, 0, None, None, None, None, Some(5))

  /** A packet heard at the start of hour 0 ... */
  const INGESTED: seq<Step> := [UpsertPacket(1, PLAIN), InsertObservation(HEARD, 0), Tick(3 * HOUR), RegisterHours(0)]

  /** ... and that hour rolled three hours later. */
  const ROLLED_HOUR: seq<Step> := INGESTED + [BeginRoll(0), EndRoll(false)]

  lemma RunSnoc(w: World, steps: seq<Step>, s: Step)
    requires IsRun(w, steps) && Enabled(After(w, steps), s)
    ensures IsRun(w, steps + [s]) && After(w, steps + [s]) == Next(After(w, steps), s)
  {
    var w' := After(w, steps);
    assert [s][1..] == [];
    assert IsRun(Next(w', s), []);
    assert IsRun(w', [s]) && After(w', [s]) == After(Next(w', s), []);
    RunsCompose(w, steps, [s]);
  }

  lemma IngestedWorld()
    ensures IsRun(Start(0), INGESTED)
    ensures var w := After(Start(0), INGESTED);
            && w.now == 3 * HOUR && w.roll.None? && w.tables.observations == [HEARD] && 1 in w.tables.packets
            && w.tables.rawDeletedBefore.None? && w.tables.dirty == map[] && w.tables.messages == map[]
            && 0 in w.tables.hours && w.tables.hours[0].status == Missing
  {
    var w0 := Start(0);
    RunSnoc(w0, [], INGESTED[0]);
    assert [] + [INGESTED[0]] == INGESTED[..1];
    RunSnoc(w0, INGESTED[..1], INGESTED[1]);
    assert INGESTED[..1] + [INGESTED[1]] == INGESTED[..2];
    RunSnoc(w0, INGESTED[..2], INGESTED[2]);
    assert INGESTED[..2] + [INGESTED[2]] == INGESTED[..3];
    var w := After(w0, INGESTED[..3]);
    RunSnoc(w0, INGESTED[..3], INGESTED[3]);
    assert INGESTED[..3] + [INGESTED[3]] == INGESTED;
    assert w.tables.observations == [] + [HEARD] == [HEARD];
    assert MinHeard([HEARD]) == 0 && TruncHour(0) == 0 && 0 <= TruncHour(3 * HOUR - ROLLUP_DELAY);
    assert 0 in EligibleHours(w.tables, w.now, 0);
  }

  lemma RolledWorld()
    ensures IsRun(Start(0), ROLLED_HOUR)
    ensures var w := After(Start(0), ROLLED_HOUR);
            && w.now == 3 * HOUR && w.roll.None? && w.tables.observations == [HEARD] && 1 in w.tables.packets
            && w.tables.rawDeletedBefore.None? && w.tables.dirty == map[] && w.tables.messages == map[]
            && IsComplete(w.tables, 0)
  {
    IngestedWorld();
    OneRoll(After(Start(0), INGESTED), 0);
    RunsCompose(Start(0), INGESTED, [BeginRoll(0), EndRoll(false)]);
  }

  /** Another observer hears a copy after the channel's key became known ... */
  const COPY: Observation := HEARD.(observer := 8, heardAt := 3 * HOUR)
  const HEARD_AGAIN: seq<Step> := ROLLED_HOUR + [UpsertPacket(1, PLAIN), InsertObservation(COPY, 3 * HOUR)]

  lemma HeardAgainWorld()
    ensures IsRun(Start(0), HEARD_AGAIN)
    ensures var w := After(Start(0), HEARD_AGAIN);
            && w.roll.None? && HEARD in w.tables.observations && 1 in w.tables.packets
            && w.tables.rawDeletedBefore.None?
            && w.tables.dirty == map[] && w.tables.messages == map[] && IsComplete(w.tables, 0)
  {
    RolledWorld();
    RunSnoc(Start(0), ROLLED_HOUR, UpsertPacket(1, PLAIN));
    var steps := ROLLED_HOUR + [UpsertPacket(1, PLAIN)];
    RunSnoc(Start(0), steps, InsertObservation(COPY, 3 * HOUR));
    assert steps + [InsertObservation(COPY, 3 * HOUR)] == HEARD_AGAIN;
  }

  /** ... so its message is inserted live: the rolled hour keeps its old talkers and nothing queues it. */
  lemma LiveMessageIsMissed()
    ensures IsRun(Start(0), HEARD_AGAIN)
    ensures var w := After(Start(0), HEARD_AGAIN);
            var live := InsertChannelMessage(1, Message(Some("ann"), 0), false);
            && LiveGap(w, live)
            && var t := Next(w, live).tables;
               IsComplete(t, 0) && Intact(t, 0) && TalkersShown(t, 0) != Some(TalkersNow(t, 0)) && 0 !in t.dirty
  {
    HeardAgainWorld();
    var w := After(Start(0), HEARD_AGAIN);
    forall i | 0 <= i < |HEARD_AGAIN| ensures !HEARD_AGAIN[i].InsertChannelMessage? {}
    HistoricalRunsHaveNoGap(Start(0), HEARD_AGAIN);
    RunKeepsFresh(Start(0), HEARD_AGAIN);
    RunKeepsInv(Start(0), HEARD_AGAIN);
    var live := InsertChannelMessage(1, Message(Some("ann"), 0), false);
    assert TruncHour(HEARD.heardAt) == 0 && 0 in HoursOf(w.tables.observations, 1);
    assert Overlooked(w.tables, w.roll, 0);
    assert HourFresh(w.tables, 0);
    MessageInHour(w, live, 0);
    MessageDirties(w, live, 0);
  }
}
