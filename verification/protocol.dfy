/** What every step of the rollup protocol keeps, and the theorems about whole runs that follow. */
module Protocol {
  import opened Base
  import opened SetBuckets
  import opened Families
  import opened World
  import opened RawRows

  // ---- the invariant ----

  /** Foreign keys hold, and no stored observation is heard past its packet's last hearing plus the clamp. */
  ghost predicate RawConsistent(w: World) {
    var t := w.tables;
    && t.messages.Keys <= t.packets.Keys
    && (forall o :: o in t.observations ==>
         && o.packet in t.packets
         && o.heardAt <= t.packets[o.packet].lastHeard + CLAMP
         && o.heardAt <= w.now + CLAMP)
  }

  /** Where raw deletion has not reached, the stored rows are the whole history. */
  ghost predicate NothingLost(w: World) {
    forall h: int :: Intact(w.tables, h) ==> HourRows(w.tables, h) == RowsIn(w.ever, h)
  }

  ghost predicate HoursClosed(w: World) {
    forall h :: h in w.tables.hours ==> h % HOUR == 0 && h + ROLLUP_DELAY <= w.now
  }

  /** The families that read observations only, rolled over the whole history of the hour. */
  ghost predicate Exact(content: Content, rows: seq<Row>) {
    TalkerSets in content && content - {TalkerSets} == ObservedFamilies(rows)
  }

  ghost predicate ContentConsistent(w: World) {
    var t := w.tables;
    && (forall h :: h in t.content <==> IsComplete(t, h))
    && (forall h :: h in t.hours ==> t.hours[h].contentHash == At(t.content, h))
    && (forall h :: h in t.content ==> Exact(t.content[h], RowsIn(w.ever, h)))
  }

  ghost predicate VersionsBelow(dirty: map<int, nat>, stamp: nat) {
    forall h :: h in dirty ==> dirty[h] <= stamp
  }

  ghost predicate Versions(w: World) {
    VersionsBelow(w.tables.dirty, w.stamp) && (w.roll.Some? ==> VersionsBelow(w.roll.value.snapshot.dirty, w.stamp))
  }

  /** A roll in flight holds its hour: nobody else changed that hour's row, its content or the revision. */
  ghost predicate RollHolds(w: World) {
    w.roll.Some? ==>
      var tx, t := w.roll.value, w.tables;
      && tx.hour in t.hours && t.hours[tx.hour].status != Partial
      && At(tx.snapshot.hours, tx.hour) == At(t.hours, tx.hour)
      && At(tx.snapshot.content, tx.hour) == At(t.content, tx.hour)
      && tx.snapshot.revision == t.revision
      && tx.snapshot.messages.Keys <= tx.snapshot.packets.Keys
      && HourRows(tx.snapshot, tx.hour) == RowsIn(w.ever, tx.hour)
  }

  ghost predicate Inv(w: World) {
    RawConsistent(w) && NothingLost(w) && HoursClosed(w) && ContentConsistent(w) && Versions(w) && RollHolds(w)
  }

  lemma StartInv(now: int)
    ensures Inv(Start(now))
  {
  }

  // ---- one step ----

  /** Ingest can no longer reach a registered hour. */
  lemma ClosedHour(w: World, o: Observation, arrived: int, h: int)
    requires HoursClosed(w) && Enabled(w, InsertObservation(o, arrived)) && h in w.tables.hours
    ensures o.heardAt >= h + HOUR
  {
  }

  /** A new row goes to the hours it was heard in, in the tables and in the history alike. */
  lemma InsertedRows(t: Tables, ever: seq<Row>, o: Observation, h: int)
    requires o.packet in t.packets
    ensures HourRows(t.(observations := t.observations + [o]), h)
         == HourRows(t, h) + if InHour(o.heardAt, h) then [Join(o, t.packets[o.packet])] else []
    ensures RowsIn(ever + [Join(o, t.packets[o.packet])], h)
         == RowsIn(ever, h) + if InHour(o.heardAt, h) then [Join(o, t.packets[o.packet])] else []
  {
    RollupObsAppend(t.observations, o, t.packets, h);
    RowsInAppend(ever, Join(o, t.packets[o.packet]), h);
  }

  lemma InsertKeepsInv(w: World, o: Observation, arrived: int)
    requires Inv(w) && Enabled(w, InsertObservation(o, arrived))
    ensures Inv(Inserted(w, o))
  {
    var w', t := Inserted(w, o), w.tables;
    if w' != w {
      assert NothingLost(w') by {
        forall h: int | Intact(t, h) ensures HourRows(w'.tables, h) == RowsIn(w'.ever, h) {
          InsertedRows(t, w.ever, o, h);
        }
      }
      forall h | h in t.hours ensures RowsIn(w'.ever, h) == RowsIn(w.ever, h) {
        ClosedHour(w, o, arrived, h);
        InsertedRows(t, w.ever, o, h);
      }
    }
  }

  lemma PacketChangeKeepsInv(w: World, packets: map<Hash, Packet>)
    requires Inv(w) && w.tables.packets.Keys <= packets.Keys
    requires forall p :: p in w.tables.packets ==> SameColumns(w.tables.packets[p], packets[p])
    requires forall o :: o in w.tables.observations ==> o.heardAt <= packets[o.packet].lastHeard + CLAMP
    ensures Inv(w.(tables := w.tables.(packets := packets)))
  {
    forall h: int ensures RollupObs(w.tables.observations, packets, h) == HourRows(w.tables, h) {
      RollupObsAgree(w.tables.observations, w.tables.packets, packets, h);
    }
  }

  lemma DeleteKeepsInv(w: World, victims: set<Hash>, newest: int)
    requires Inv(w) && Enabled(w, DeleteOldPackets(victims, newest))
    ensures Inv(w.(tables := PacketsDeleted(w.tables, victims, newest)))
  {
    var t, t' := w.tables, PacketsDeleted(w.tables, victims, newest);
    forall o | o in t'.observations ensures o in t.observations && o.packet in t'.packets {
      if victims != {} { WithoutMembers(t.observations, victims, o); }
    }
    forall h: int | Intact(t', h) ensures HourRows(t', h) == RowsIn(w.ever, h) {
      if victims != {} {
        forall o | o in t.observations && InHour(o.heardAt, h) ensures o.packet !in victims {}
        RollupObsWithout(t.observations, t.packets, victims, h);
      }
    }
  }

  lemma BeginKeepsInv(w: World, hour: int)
    requires Inv(w) && Enabled(w, BeginRoll(hour))
    ensures Inv(Next(w, BeginRoll(hour)))
  {
  }

  lemma InstallKeepsInv(w: World, tx: RollTx, content: Content, changed: bool)
    requires Inv(w) && tx.hour in w.tables.hours && Exact(content, RowsIn(w.ever, tx.hour))
    ensures Inv(w.(roll := None, tables := Installed(w.tables, tx, content, changed)))
  {
    var t, t' := w.tables, Installed(w.tables, tx, content, changed);
    assert forall h: int :: HourRows(t', h) == HourRows(t, h);
  }

  lemma CommitKeepsInv(w: World)
    requires Inv(w) && w.roll.Some?
    ensures Inv(w.(roll := None, tables := Committed(w.tables, w.roll.value)))
  {
    var tx := w.roll.value;
    RollAllObserved(HourRows(tx.snapshot, tx.hour), tx.snapshot.messages);
    InstallKeepsInv(w, tx, Rolled(tx), Changed(tx));
  }

  /** Every step keeps the invariant. */
  lemma StepKeepsInv(w: World, s: Step)
    requires Inv(w) && Enabled(w, s)
    ensures Inv(Next(w, s))
  {
    var t := w.tables;
    match s
    case Tick(_) =>
    case UpsertPacket(hash, packet) => PacketChangeKeepsInv(w, Next(w, s).tables.packets);
    case TouchPacket(hash, heard) => PacketChangeKeepsInv(w, Next(w, s).tables.packets);
    case InsertObservation(o, arrived) => InsertKeepsInv(w, o, arrived);
    case InsertChannelMessage(_, _, _) =>
    case DeleteOldPackets(victims, newest) => DeleteKeepsInv(w, victims, newest);
    case RegisterHours(_) => HoursKeepInv(w, s);
    case MarkPartialHours => HoursKeepInv(w, s);
    case BeginRoll(hour) => BeginKeepsInv(w, hour);
    case EndRoll(fails) =>
      if !fails && !Conflict(t, w.roll.value) { CommitKeepsInv(w); }
    case DeleteStaleDirtyHours =>
    case DeleteOldRollups(_) => HoursKeepInv(w, s);
  }

  lemma HoursKeepInv(w: World, s: Step)
    requires Inv(w) && Enabled(w, s) && (s.RegisterHours? || s.MarkPartialHours? || s.DeleteOldRollups?)
    ensures Inv(Next(w, s))
  {
  }

  /** Every reachable state satisfies the invariant. */
  lemma {:induction false} RunKeepsInv(w: World, steps: seq<Step>)
    requires Inv(w) && IsRun(w, steps)
    ensures Inv(After(w, steps))
    decreases |steps|
  {
    if steps != [] {
      StepKeepsInv(w, steps[0]);
      RunKeepsInv(Next(w, steps[0]), steps[1..]);
    }
  }
}
