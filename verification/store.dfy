/** The statements as methods that change the tables in place, each proved to take the step of the state machine it
    stands for. */
module RollupStore {
  import opened Base
  import opened SetBuckets
  import opened Families
  import opened World
  import opened Protocol
  import opened RunTheorems
  import opened RollOutcomes

  datatype Outcome = RollSkipped | RollPartial | RollComplete

  /** What goes wrong with the transaction apart from a serialization failure. */
  datatype Failure = NoFailure | StatementFails | CommitFails

  datatype RollResult = RollResult(outcome: Outcome, changed: bool, failure: Failure)

  ghost predicate Sooner(packets: map<Hash, Packet>, a: Hash, b: Hash)
    requires a in packets && b in packets
  {
    packets[a].lastHeard < packets[b].lastHeard || (packets[a].lastHeard == packets[b].lastHeard && a <= b)
  }

  /** ORDER BY last_heard_at, packet_hash: the first of a set of packets. */
  method Oldest(packets: map<Hash, Packet>, candidates: set<Hash>) returns (v: Hash)
    requires candidates != {} && candidates <= packets.Keys
    ensures v in candidates && forall c :: c in candidates ==> Sooner(packets, v, c)
  {
    v :| v in candidates;
    var rest := candidates - {v};
    while rest != {}
      invariant rest <= candidates && v in candidates && v !in rest
      invariant forall c :: c in candidates && c !in rest ==> Sooner(packets, v, c)
      decreases rest
    {
      var c :| c in rest;
      if packets[c].lastHeard < packets[v].lastHeard || (packets[c].lastHeard == packets[v].lastHeard && c < v) {
        v := c;
      }
      rest := rest - {c};
    }
  }

  predicate Expired(packets: map<Hash, Packet>, cutoff: int, locked: set<Hash>, p: Hash) {
    p in packets && packets[p].lastHeard < cutoff && p !in locked
  }

  /** ORDER BY last_heard_at, packet_hash LIMIT batch SKIP LOCKED: a full batch, or all there is, and the oldest
      first. */
  ghost predicate IsCohort(packets: map<Hash, Packet>, cutoff: int, batch: nat, locked: set<Hash>, chosen: set<Hash>) {
    && |chosen| <= batch
    && (forall v :: v in chosen ==> v in packets && packets[v].lastHeard < cutoff && v !in locked)
    && (forall p :: p in packets && packets[p].lastHeard < cutoff && p !in locked && p !in chosen ==>
         |chosen| == batch && forall v :: v in chosen ==> Sooner(packets, v, p))
  }

  method Cohort(packets: map<Hash, Packet>, cutoff: int, batch: nat, locked: set<Hash>) returns (chosen: set<Hash>,
                                                                                                 latest: int)
    ensures IsCohort(packets, cutoff, batch, locked, chosen)
    ensures chosen != {} ==> exists v :: v in chosen && packets[v].lastHeard == latest
    ensures forall v :: v in chosen ==> packets[v].lastHeard <= latest
  {
    var left := set p | p in packets && Expired(packets, cutoff, locked, p);
    chosen, latest := {}, 0;
    while left != {} && |chosen| < batch
      invariant left !! chosen && |chosen| <= batch
      invariant forall p :: Expired(packets, cutoff, locked, p) <==> p in left || p in chosen
      invariant forall v, p :: v in chosen && p in left ==> Sooner(packets, v, p)
      invariant forall v :: v in chosen ==> packets[v].lastHeard <= latest
      invariant chosen != {} ==> exists v :: v in chosen && packets[v].lastHeard == latest
      decreases left
    {
      var v := Oldest(packets, left);
      assert forall u :: u in chosen ==> Sooner(packets, u, v);
      chosen, left, latest := chosen + {v}, left - {v}, packets[v].lastHeard;
    }
  }

  /** The rebuild functions, in whatever order the map yields them. */
  method RebuildFamilies(rows: seq<Row>, messages: map<Hash, Message>) returns (content: Content)
    ensures content == RollAll(rows, messages)
  {
    content := map[];
    var todo := ALL_FAMILIES;
    while todo != {}
      invariant todo <= ALL_FAMILIES
      invariant content.Keys == ALL_FAMILIES - todo
      invariant forall f :: f in content ==> content[f] == Roll(f, rows, messages)
      decreases todo
    {
      var f :| f in todo;
      content := content[f := Roll(f, rows, messages)];
      todo := todo - {f};
    }
  }

  /** date_trunc('hour', heard_at) over the observations of one packet. */
  method HoursHeard(observations: seq<Observation>, hash: Hash) returns (heard: set<int>)
    ensures heard == HoursOf(observations, hash)
  {
    heard := {};
    for i := 0 to |observations|
      invariant heard == HoursOf(observations[..i], hash)
    {
      assert observations[..i + 1] == observations[..i] + [observations[i]];
      SnocHours(observations[..i], observations[i], hash);
      if observations[i].packet == hash {
        heard := heard + {TruncHour(observations[i].heardAt)};
      }
    }
    assert observations[..|observations|] == observations;
  }

  /** The generated hours as missing rows, ON CONFLICT DO NOTHING. */
  method WithMissing(hours: map<int, HourRow>, first: int, last: int) returns (all: map<int, HourRow>)
    requires first % HOUR == 0 && last % HOUR == 0
    ensures all == NewHours(AlignedHours(first, last)) + hours
  {
    all := hours;
    var h := first;
    assert AlignedHours(first, first - HOUR) == {};
    assert NewHours({}) + hours == hours;
    while h <= last
      invariant h % HOUR == 0 && h >= first
      invariant h == first || h <= last + HOUR
      invariant all == NewHours(AlignedHours(first, h - HOUR)) + hours
      decreases last + HOUR - h
    {
      NextAligned(first, h);
      if h !in all {
        all := all[h := HourRow(Missing, None)];
      }
      h := h + HOUR;
    }
    SameAligned(first, h - HOUR, last);
  }

  /** The update of MarkPartialHours, row by row. */
  method MarkLost(t: Tables) returns (after: map<int, HourRow>, any: bool)
    ensures after == PartialMarked(t).hours
    ensures any <==> exists h :: h in t.hours && Lost(t, h)
  {
    after := t.hours;
    var lost := set h | h in t.hours && Lost(t, h);
    any := lost != {};
    if h :| h in t.hours && Lost(t, h) {
      assert h in lost;
    }
    var todo := lost;
    while todo != {}
      invariant todo <= lost && after.Keys == t.hours.Keys
      invariant forall h :: h in t.hours ==> after[h]
                                             == if h in lost - todo then t.hours[h].(status := Partial) else t.hours[h]
      decreases todo
    {
      var h :| h in todo;
      after := after[h := after[h].(status := Partial)];
      todo := todo - {h};
    }
    assert after == PartialMarked(t).hours;
  }

  class Store {
    var packets: map<Hash, Packet>
    var observations: seq<Observation>
    var messages: map<Hash, Message>
    var hours: map<int, HourRow>
    var content: map<int, Content>
    var dirty: map<int, nat>
    var rawDeletedBefore: Option<int>
    var revision: nat
    var coverage: nat
    var now: int
    var stamp: nat
    var tx: Option<RollTx>
    ghost var ever: seq<Row>

    function Rows(): Tables
      reads this
    {
      Tables(packets, observations, messages, hours, content, dirty, rawDeletedBefore, revision, coverage)
    }

    ghost function View(): World
      reads this
    {
      World(now, stamp, Rows(), tx, ever)
    }

    constructor (start: int)
      ensures View() == Start(start)
    {
      packets, observations, messages, hours, content, dirty := map[], [], map[], map[], map[], map[];
      rawDeletedBefore, revision, coverage, now, stamp, tx, ever := None, 0, 0, start, 0, None, [];
    }

    method UpsertPacket(hash: Hash, packet: Packet)
      modifies this
      ensures View() == Next(old(View()), Step.UpsertPacket(hash, packet))
    {
      if hash in packets {
        packets := packets[hash := packets[hash].(lastHeard := now)];
      } else {
        packets := packets[hash := packet.(lastHeard := now)];
      }
    }

    method InsertObservation(o: Observation, ghost arrived: int) returns (inserted: bool)
      requires Enabled(View(), Step.InsertObservation(o, arrived))
      modifies this
      ensures View() == Next(old(View()), Step.InsertObservation(o, arrived))
      ensures inserted <==> View() != old(View())
    {
      if o.packet !in packets {
        return false;
      }
      var i := 0;
      while i < |observations|
        invariant 0 <= i <= |observations|
        invariant forall j :: 0 <= j < i ==>
                    !(observations[j].packet == o.packet && observations[j].observer == o.observer)
        invariant View() == old(View())
      {
        if observations[i].packet == o.packet && observations[i].observer == o.observer {
          assert observations[i] in observations;
          return false;
        }
        i := i + 1;
      }
      ever := ever + [Join(o, packets[o.packet])];
      observations := observations + [o];
      assert |observations| == |old(observations)| + 1;
      inserted := true;
    }

    /** A historical message queues the hours of every stored observation of its packet, in the same statement. */
    method InsertChannelMessage(hash: Hash, message: Message, historical: bool) returns (inserted: bool)
      modifies this
      ensures View() == Next(old(View()), Step.InsertChannelMessage(hash, message, historical))
      ensures inserted <==> hash in old(packets) && hash !in old(messages)
    {
      if hash !in packets || hash in messages {
        return false;
      }
      var heard := {};
      if historical {
        heard := HoursHeard(observations, hash);
      }
      assert heard == if historical then HoursOf(observations, hash) else {};
      messages := messages[hash := message];
      stamp := stamp + 1;
      dirty := dirty + map h | h in heard :: stamp;
      inserted := true;
    }

    /** Deletes one cohort; observations and messages cascade, and raw_deleted_before records how far deletion got. */
    method DeleteOldPackets(cutoff: int, batch: nat, locked: set<Hash>) returns (ghost victims: set<Hash>,
                                                                                 ghost newest: int)
      modifies this
      ensures Enabled(old(View()), Step.DeleteOldPackets(victims, newest))
      ensures View() == Next(old(View()), Step.DeleteOldPackets(victims, newest))
      ensures IsCohort(old(packets), cutoff, batch, locked, victims)
    {
      var chosen, latest := Cohort(packets, cutoff, batch, locked);
      victims, newest := chosen, latest;
      if chosen != {} {
        packets := packets - chosen;
        messages := messages - chosen;
        observations := Without(observations, chosen);
        rawDeletedBefore := Some(if rawDeletedBefore.None? then latest else Max(rawDeletedBefore.value, latest));
      }
    }

    /** generate_series from the first retained hour to the last eligible one; existing rows stay. */
    method RegisterHours(since: int)
      requires tx.None?
      modifies this
      ensures View() == Next(old(View()), Step.RegisterHours(since))
    {
      if |observations| == 0 {
        assert NewHours({}) + hours == hours;
        return;
      }
      hours := WithMissing(hours, TruncHour(Max(MinHeard(observations), since)), TruncHour(now - ROLLUP_DELAY));
    }

    method MarkPartialHours()
      requires tx.None?
      modifies this
      ensures View() == Next(old(View()), Step.MarkPartialHours)
    {
      var marked, any := MarkLost(Rows());
      hours := marked;
      if any {
        revision := revision + 1;
      }
    }

    method DeleteStaleDirtyHours()
      requires tx.None?
      modifies this
      ensures View() == Next(old(View()), Step.DeleteStaleDirtyHours)
    {
      dirty := map h | h in dirty && !Stale(Rows(), h) :: dirty[h];
    }

    method DeleteOldRollups(cutoff: int)
      requires Enabled(View(), Step.DeleteOldRollups(cutoff))
      modifies this
      ensures View() == Next(old(View()), Step.DeleteOldRollups(cutoff))
    {
      var gone := set h | h in hours && h < cutoff;
      content := map h | h in content && h >= cutoff :: content[h];
      dirty := map h | h in dirty && h >= cutoff :: dirty[h];
      hours := map h | h in hours && h >= cutoff :: hours[h];
      if gone != {} {
        coverage := coverage + 1;
      }
      if h :| h in old(hours) && h < cutoff {
        assert h in gone;
      }
    }

    method TouchPacket(hash: Hash, heard: int)
      modifies this
      ensures View() == Next(old(View()), Step.TouchPacket(hash, heard))
    {
      if hash in packets {
        packets := packets[hash := packets[hash].(lastHeard := Max(packets[hash].lastHeard, heard))];
      }
    }

    /** LockRollupHour fixes the snapshot; a partial hour is settled in the same transaction. */
    method BeginRoll(hour: int) returns (status: Option<Status>)
      requires tx.None?
      modifies this
      ensures View() == Next(old(View()), Step.BeginRoll(hour))
      ensures status == LockRollupHour(old(Rows()), hour)
      ensures tx.Some? <==> status in {Some(Missing), Some(Complete)}
    {
      if hour !in hours {
        return None;
      }
      status := if !Intact(Rows(), hour) then Some(Partial) else Some(hours[hour].status);
      if status == Some(Partial) {
        if hours[hour].status == Missing {
          hours := hours[hour := hours[hour].(status := Partial)];
          revision := revision + 1;
        }
      } else {
        tx := Some(RollTx(hour, Rows()));
      }
    }

    method FinishRollupHour(t: RollTx, rolled: Content, changed: bool)
      modifies this
      ensures View() == old(View()).(tables := Installed(old(Rows()), t, rolled, changed))
    {
      content := content[t.hour := rolled];
      hours := hours[t.hour := HourRow(Complete, Some(rolled))];
      if t.hour in t.snapshot.dirty {
        dirty := dirty - {t.hour};
      }
      if changed {
        revision := revision + 1;
      }
    }

    /** Delete-then-rebuild and finish, or roll back. */
    method EndRoll(failure: Failure) returns (result: RollResult)
      requires tx.Some?
      modifies this
      ensures View() == Next(old(View()), Step.EndRoll(failure != NoFailure))
      ensures var t := old(tx).value;
              result == if failure == StatementFails then RollResult(RollSkipped, false, StatementFails)
                        else if Conflict(old(Rows()), t) then RollResult(RollSkipped, false, NoFailure)
                        else RollResult(RollComplete, Changed(t), failure)
    {
      var t := tx.value;
      tx := None;
      if failure == StatementFails {
        return RollResult(RollSkipped, false, StatementFails);
      }
      if Conflict(Rows(), t) {
        return RollResult(RollSkipped, false, NoFailure);
      }
      var rolled := RebuildFamilies(HourRows(t.snapshot, t.hour), t.snapshot.messages);
      assert rolled == Rolled(t);
      var changed := t.hour !in t.snapshot.hours || t.snapshot.hours[t.hour].contentHash != Some(rolled);
      if failure == NoFailure {
        FinishRollupHour(t, rolled, changed);
      }
      result := RollResult(RollComplete, changed, failure);
    }

    /** One foreign step. */
    method Perform(s: Step)
      requires Enabled(View(), s) && IsForeign(s)
      modifies this
      ensures View() == Next(old(View()), s)
    {
      match s
      case Tick(to) => now := to;
      case UpsertPacket(hash, packet) => UpsertPacket(hash, packet);
      case TouchPacket(hash, heard) => TouchPacket(hash, heard);
      case InsertObservation(o, arrived) => var _ := InsertObservation(o, arrived);
      case InsertChannelMessage(hash, message, historical) => var _ := InsertChannelMessage(hash, message, historical);
      case DeleteOldPackets(victims, newest) =>
        if victims != {} {
          packets, messages, observations := packets - victims, messages - victims, Without(observations, victims);
          rawDeletedBefore := Some(if rawDeletedBefore.None? then newest else Max(rawDeletedBefore.value, newest));
        }
      case DeleteOldRollups(cutoff) => DeleteOldRollups(cutoff);
    }

    /** RollHour with other processes' steps between its snapshot and its end. The hour is skipped without a trace
        when it is not registered, when a statement fails or when serialization fails; otherwise the result says what
        happened. */
    method RollHour(hour: int, others: seq<Step>, failure: Failure) returns (result: RollResult)
      requires tx.None?
      requires forall s :: s in others ==> IsForeign(s)
      requires LockRollupHour(Rows(), hour) in {Some(Missing), Some(Complete)}
               ==> IsRun(Next(View(), Step.BeginRoll(hour)), others)
      modifies this
      ensures tx.None?
      ensures match LockRollupHour(old(Rows()), hour)
              case None => result == RollResult(RollSkipped, false, NoFailure) && View() == old(View())
              case Some(Partial) =>
                result == RollResult(RollPartial, false, NoFailure) && View() == Next(old(View()), Step.BeginRoll(hour))
              case Some(_) =>
                var w := After(Next(old(View()), Step.BeginRoll(hour)), others);
                && w.roll == Some(RollTx(hour, old(Rows())))
                && View() == Next(w, Step.EndRoll(failure != NoFailure))
                && (result.outcome == RollComplete && result.failure == NoFailure ==>
                      View() == w.(roll := None, tables := Committed(w.tables, w.roll.value))
                          && result.changed == Changed(w.roll.value))
                && (result.outcome == RollSkipped || result.failure != NoFailure ==> View() == w.(roll := None))
                && result.outcome != RollPartial
      // Without a failure of its own, the roll is skipped exactly when its hour was queued before and is queued
      // again meanwhile.
      ensures Inv(old(View())) && Rollable(old(Rows()), hour) && failure == NoFailure ==>
                && result.outcome != RollPartial
                && EndsAs(old(View()), hour, others, result.outcome == RollSkipped, View())
    {
      RollableIffLocked(Rows(), hour);
      ghost var start := View();
      var status := BeginRoll(hour);
      match status
      case None => return RollResult(RollSkipped, false, NoFailure);
      case Some(Partial) => return RollResult(RollPartial, false, NoFailure);
      case Some(_) =>
      Interleave(others);
      ghost var before := View();
      result := EndRoll(failure);
      if Inv(start) && Rollable(start.tables, hour) && failure == NoFailure {
        assert View() == Next(before, Step.EndRoll(false));
        RollEnds(start, hour, others, result.outcome == RollSkipped);
      }
    }

    /** The steps of the other processes, one after another. */
    method Interleave(others: seq<Step>)
      requires IsRun(View(), others) && forall s :: s in others ==> IsForeign(s)
      modifies this
      ensures View() == After(old(View()), others) && tx == old(tx)
    {
      ghost var begun := View();
      var i := 0;
      assert others[..0] == [];
      assert others[0..] == others;
      while i < |others|
        invariant 0 <= i <= |others|
        invariant IsRun(View(), others[i..]) && After(View(), others[i..]) == After(begun, others)
        invariant tx == old(tx)
      {
        assert others[i] in others && others[i..][0] == others[i] && others[i..][1..] == others[i + 1..];
        Perform(others[i]);
        i := i + 1;
      }
      assert others[i..] == [];
    }
  }

  lemma NextAligned(first: int, h: int)
    requires first <= h && h % HOUR == 0
    ensures AlignedHours(first, h) == AlignedHours(first, h - HOUR) + {h}
  {
    forall k | h - HOUR < k <= h && k % HOUR == 0 ensures k == h {
      HourOfInstant(h, k);
      HourOfInstant(h, h);
    }
  }

  lemma SameAligned(first: int, a: int, b: int)
    requires first % HOUR == 0 && a % HOUR == 0 && b % HOUR == 0
    requires (a <= b < a + HOUR) || (a < first && b < first)
    ensures AlignedHours(first, a) == AlignedHours(first, b)
  {
    if a <= b < a + HOUR {
      HourOfInstant(b, a);
      HourOfInstant(b, b);
    }
  }

  lemma SnocHours(front: seq<Observation>, o: Observation, hash: Hash)
    ensures HoursOf(front + [o], hash) == HoursOf(front, hash) + if o.packet == hash then {TruncHour(o.heardAt)} else {}
  {
    forall h | h in HoursOf(front, hash) ensures h in HoursOf(front + [o], hash) {
      var p :| p in front && p.packet == hash && TruncHour(p.heardAt) == h;
      assert p in front + [o];
    }
    if o.packet == hash { assert o in front + [o]; }
  }
}
