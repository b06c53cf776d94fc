/** How the join and the hour filters react to the statements that touch raw rows. */
module RawRows {
  import opened Base
  import opened SetBuckets
  import opened Families
  import opened World

  ghost predicate SameColumns(p: Packet, q: Packet) {
    p.routeType == q.routeType && p.originPubkey == q.originPubkey && p.scopeId == q.scopeId
  }

  /** A roll reads no packet column that changes while the packet exists. */
  lemma {:induction false} RollupObsAgree(observations: seq<Observation>, p: map<Hash, Packet>, q: map<Hash, Packet>,
                                          hour: int)
    requires forall o :: o in observations ==> o.packet in p && o.packet in q && SameColumns(p[o.packet], q[o.packet])
    ensures RollupObs(observations, p, hour) == RollupObs(observations, q, hour)
  {
    if observations != [] {
      var front := observations[..|observations| - 1];
      assert observations == front + [observations[|observations| - 1]];
      RollupObsAgree(front, p, q, hour);
    }
  }

  /** Deleting packets takes nothing from an hour in which none of them was heard. */
  lemma {:induction false} RollupObsWithout(observations: seq<Observation>, p: map<Hash, Packet>, victims: set<Hash>,
                                            hour: int)
    requires forall o :: o in observations && InHour(o.heardAt, hour) ==> o.packet !in victims
    ensures RollupObs(Without(observations, victims), p - victims, hour) == RollupObs(observations, p, hour)
  {
    if observations != [] {
      var front, o := observations[..|observations| - 1], observations[|observations| - 1];
      assert observations == front + [o];
      RollupObsWithout(front, p, victims, hour);
      var kept := Without(observations, victims);
      if o.packet !in victims {
        assert kept[..|kept| - 1] == Without(front, victims);
      }
    }
  }

  lemma RollupObsAppend(observations: seq<Observation>, o: Observation, p: map<Hash, Packet>, hour: int)
    ensures RollupObs(observations + [o], p, hour)
         == RollupObs(observations, p, hour)
            + if InHour(o.heardAt, hour) && o.packet in p then [Join(o, p[o.packet])] else []
  {
    assert (observations + [o])[..|observations|] == observations;
  }

  lemma RowsInAppend(rows: seq<Row>, r: Row, hour: int)
    ensures RowsIn(rows + [r], hour) == RowsIn(rows, hour) + if InHour(r.heardAt, hour) then [r] else []
  {
    assert (rows + [r])[..|rows|] == rows;
  }

  lemma {:induction false} WithoutMembers(observations: seq<Observation>, victims: set<Hash>, o: Observation)
    ensures o in Without(observations, victims) <==> o in observations && o.packet !in victims
  {
    if observations != [] {
      var front, last := observations[..|observations| - 1], observations[|observations| - 1];
      assert observations == front + [last];
      WithoutMembers(front, victims, o);
    }
  }

  /** A packet has a row in an hour's rollup_obs exactly when it was heard in that hour. */
  lemma {:induction false} PacketsOfHour(observations: seq<Observation>, p: map<Hash, Packet>, hour: int, hash: Hash)
    requires hash in p
    ensures hash in PacketsOf(RollupObs(observations, p, hour))
            <==> exists o :: o in observations && o.packet == hash && InHour(o.heardAt, hour)
  {
    var rows := RollupObs(observations, p, hour);
    if observations != [] {
      var front, o := observations[..|observations| - 1], observations[|observations| - 1];
      assert observations == front + [o];
      PacketsOfHour(front, p, hour, hash);
      var frontRows := RollupObs(front, p, hour);
      if hash in PacketsOf(frontRows) {
        var i :| 0 <= i < |frontRows| && frontRows[i].packet == hash;
        assert rows[i].packet == hash;
      }
      if hash in PacketsOf(rows) {
        var i :| 0 <= i < |rows| && rows[i].packet == hash;
        if i < |frontRows| { assert frontRows[i].packet == hash; }
      }
      if o.packet == hash && InHour(o.heardAt, hour) {
        assert rows[|rows| - 1].packet == hash;
      }
    }
  }

  lemma {:induction false} RowsOfKnownPackets(observations: seq<Observation>, p: map<Hash, Packet>, hour: int)
    ensures PacketsOf(RollupObs(observations, p, hour)) <= p.Keys
  {
    if observations != [] {
      var front := observations[..|observations| - 1];
      RowsOfKnownPackets(front, p, hour);
      var rows, frontRows := RollupObs(observations, p, hour), RollupObs(front, p, hour);
      forall i | 0 <= i < |rows| ensures rows[i].packet in p {
        if i < |frontRows| { assert frontRows[i].packet in PacketsOf(frontRows); }
      }
    }
  }
}
