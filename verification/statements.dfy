/** What the statements of the rollup select and change, row by row and column by column, with the intervals written
    out. */
module StatementMeaning {
  import opened Base
  import opened Sorting
  import opened SetBuckets
  import opened Families
  import opened World
  import opened RawRows

  // ---- the status statements ----

  /** Cleanup has come within 30 minutes of the hour. */
  ghost predicate Reached(t: Tables, h: int) {
    t.rawDeletedBefore.Some? && h <= t.rawDeletedBefore.value + 1_800_000_000
  }

  /** LockRollupHour: the stored status, or 'partial' where deletion has got there. */
  lemma LockIsExact(t: Tables, h: int)
    ensures LockRollupHour(t, h)
         == if h !in t.hours then None else if Reached(t, h) then Some(Partial) else Some(t.hours[h].status)
  {
  }

  /** MarkPartialRollupHours: exactly the missing hours that deletion has reached, and the revision moves exactly
      then. */
  lemma PartialMarkedIsExact(t: Tables)
    ensures PartialMarked(t).hours.Keys == t.hours.Keys
    ensures forall h :: h in t.hours ==>
              PartialMarked(t).hours[h].status
              == if t.hours[h].status == Missing && Reached(t, h) then Partial else t.hours[h].status
    ensures PartialMarked(t).revision
         == t.revision + if exists h :: h in t.hours && t.hours[h].status == Missing && Reached(t, h) then 1 else 0
  {
    assert forall h :: h in t.hours ==> (Lost(t, h) <==> t.hours[h].status == Missing && Reached(t, h));
  }

  /** DeleteStaleDirtyHours: exactly the partial hours and those that deletion has reached leave the queue. */
  lemma StaleIsExact(w: World, h: int)
    requires Enabled(w, DeleteStaleDirtyHours)
    ensures var t, t' := w.tables, Next(w, DeleteStaleDirtyHours).tables;
            && (h in t'.dirty <==> h in t.dirty && !(h in t.hours && t.hours[h].status == Partial) && !Reached(t, h))
            && (h in t'.dirty ==> t'.dirty[h] == t.dirty[h])
  {
  }

  // ---- registration ----

  lemma {:induction false} MinHeardIsLeast(observations: seq<Observation>)
    requires observations != []
    ensures exists o :: o in observations && o.heardAt == MinHeard(observations)
    ensures forall o :: o in observations ==> MinHeard(observations) <= o.heardAt
  {
    var front, last := observations[..|observations| - 1], observations[|observations| - 1];
    assert observations == front + [last];
    if front == [] {
      assert last in observations;
    } else {
      MinHeardIsLeast(front);
      var o :| o in front && o.heardAt == MinHeard(front);
      assert o in observations && last in observations;
    }
  }

  /** RegisterRollupHours: every full hour that ended 35 minutes ago or earlier, from the hour of the first stored
      observation or of since on, is registered; what was registered stays as it is. */
  lemma RegisteredIsExact(t: Tables, now: int, since: int, h: int)
    ensures var hours := HoursRegistered(t, now, since).hours;
            && (h in hours <==>
                  || h in t.hours
                  || (h % 3_600_000_000 == 0 && h + 5_700_000_000 <= now && since < h + 3_600_000_000
                      && exists o :: o in t.observations && o.heardAt < h + 3_600_000_000))
            && (h in hours ==> hours[h] == if h in t.hours then t.hours[h] else HourRow(Missing, None))
  {
    if t.observations != [] {
      MinHeardIsLeast(t.observations);
      var first := Max(MinHeard(t.observations), since);
      if h % HOUR == 0 {
        FromHour(h, first);
        UpToHour(h, now - ROLLUP_DELAY);
      }
    }
  }

  lemma FromHour(h: int, t: int)
    requires h % HOUR == 0
    ensures TruncHour(t) <= h <==> t < h + HOUR
  {
    if h < TruncHour(t) { AlignedGap(h, TruncHour(t)); }
  }

  lemma UpToHour(h: int, t: int)
    requires h % HOUR == 0
    ensures h <= TruncHour(t) <==> h <= t
  {
    if TruncHour(t) < h { AlignedGap(TruncHour(t), h); }
  }

  // ---- the rows of a roll ----

  /** A row of rollup_obs, column by column. */
  ghost predicate IsRow(r: Row, o: Observation, p: Packet) {
    && r.packet == o.packet && r.observer == o.observer && r.iata == o.iata && r.heardAt == o.heardAt
    && r.pathLengthByte == o.pathLengthByte && r.hashSize == o.hashSize && r.hopCount == o.hopCount
    && (o.pathBytes.None? ==> r.pathLen == 0) && (o.pathBytes.Some? ==> r.pathLen == |o.pathBytes.value|)
    && r.rssi == o.rssi && r.snr == o.snr && r.airtimeMs == o.airtimeMs && r.payloadType == o.payloadType
    && r.routeType == p.routeType && r.originPubkey == p.originPubkey && r.scopeId == p.scopeId
  }

  /** FillRollupObs: the stored observations of the hour, each joined with its packet, and no other row. */
  lemma {:induction false} HourRowsAre(observations: seq<Observation>, packets: map<Hash, Packet>, h: int, r: Row)
    ensures r in RollupObs(observations, packets, h) <==>
            exists o :: o in observations && h <= o.heardAt < h + 3_600_000_000 && o.packet in packets
                        && IsRow(r, o, packets[o.packet])
  {
    if observations != [] {
      var front, last := observations[..|observations| - 1], observations[|observations| - 1];
      assert observations == front + [last];
      HourRowsAre(front, packets, h, r);
      assert last in observations;
      if last.packet in packets { JoinIsRow(last, packets[last.packet], r); }
      if o :| o in front && h <= o.heardAt < h + 3_600_000_000 && o.packet in packets
              && IsRow(r, o, packets[o.packet]) {
        assert o in observations;
      }
    }
  }

  lemma JoinIsRow(o: Observation, p: Packet, r: Row)
    ensures IsRow(r, o, p) <==> r == Join(o, p)
  {
  }

  /** And as many rows as there are such observations. */
  lemma {:induction false} HourRowsCount(observations: seq<Observation>, packets: map<Hash, Packet>, h: int)
    ensures |RollupObs(observations, packets, h)|
         == |Filter(observations, (o: Observation) => h <= o.heardAt < h + 3_600_000_000 && o.packet in packets)|
  {
    if observations != [] { HourRowsCount(observations[..|observations| - 1], packets, h); }
  }

  // ---- deletion ----

  /** Deleting packets cascades to their observations and messages, to no others, and keeps the order of the rest. */
  lemma DeletedIsExact(t: Tables, victims: set<Hash>, newest: int)
    requires victims != {}
    ensures var t' := PacketsDeleted(t, victims, newest);
            && t'.observations == Filter(t.observations, (o: Observation) => o.packet !in victims)
            && t'.packets.Keys == t.packets.Keys - victims
            && (forall p :: p in t'.packets ==> t'.packets[p] == t.packets[p])
            && t'.messages.Keys == t.messages.Keys - victims
            && (forall p :: p in t'.messages ==> t'.messages[p] == t.messages[p])
            && t'.rawDeletedBefore.Some? && t'.rawDeletedBefore.value >= newest
            && (t.rawDeletedBefore.Some? ==> t'.rawDeletedBefore.value >= t.rawDeletedBefore.value)
            && (t'.rawDeletedBefore == Some(newest) || t'.rawDeletedBefore == t.rawDeletedBefore)
            && t' == t.(observations := t'.observations, packets := t'.packets, messages := t'.messages,
                        rawDeletedBefore := t'.rawDeletedBefore)
  {
    WithoutIsFilter(t.observations, victims);
  }

  lemma {:induction false} WithoutIsFilter(observations: seq<Observation>, victims: set<Hash>)
    ensures Without(observations, victims) == Filter(observations, (o: Observation) => o.packet !in victims)
  {
    if observations != [] { WithoutIsFilter(observations[..|observations| - 1], victims); }
  }
}
