/** The since-boot counter filter: noisy running totals in, bounded increments out. */
module CounterFilter {
  import opened Base

  /** rate is the fastest honest climb per second; a gap over maxGap milliseconds resets the baseline. */
  datatype Config = Config(rate: real, maxGap: int)

  datatype State = State(last: real, lastT: int, seeded: bool, rejects: nat)

  datatype Reading = Reading(v: Option<real>, t: int, rebooted: bool)

  const UNSEEDED: State := State(0.0, 0, false, 0)

  /** Twice the honest growth over a gap in milliseconds, because rows are truncated to the telemetry resolution. */
  function Limit(rate: real, gap: int): real {
    rate * 2.0 * (gap as real) / 1000.0
  }

  predicate Reseeds(c: Config, s: State, r: Reading) {
    r.v.Some? && (!s.seeded || r.t - s.lastT > c.maxGap)
  }

  /** The growth a reading claims; after a reboot a drop means the device restarted from zero. */
  function Growth(s: State, r: Reading): real
    requires r.v.Some?
  {
    var d := r.v.value - s.last;
    if r.rebooted && d < 0.0 then r.v.value else d
  }

  predicate Implausible(c: Config, s: State, r: Reading)
    requires r.v.Some?
  {
    Growth(s, r) < 0.0 || Growth(s, r) > Limit(c.rate, r.t - s.lastT)
  }

  /** A reading that is neither missing nor a new baseline nor believed. */
  predicate Rejected(c: Config, s: State, r: Reading) {
    r.v.Some? && !Reseeds(c, s, r) && Implausible(c, s, r)
  }

  function Next(c: Config, s: State, r: Reading): State {
    if r.v.None? then s
    else if Reseeds(c, s, r) then State(r.v.value, r.t, true, 0)
    else if Implausible(c, s, r) && s.rejects + 1 < 3 then s.(rejects := s.rejects + 1)
    else s.(last := r.v.value, lastT := r.t, rejects := 0)
  }

  function Increment(c: Config, s: State, r: Reading): real {
    if r.v.None? || Reseeds(c, s, r) || Implausible(c, s, r) then 0.0 else Growth(s, r)
  }

  class Counter {
    const rate: real
    const maxGap: int
    var last: real
    var lastT: int
    var seeded: bool
    var rejects: nat

    function View(): State
      reads this
    {
      State(last, lastT, seeded, rejects)
    }

    constructor (rate: real, maxGap: int)
      ensures View() == UNSEEDED && this.rate == rate && this.maxGap == maxGap
    {
      this.rate, this.maxGap := rate, maxGap;
      last, lastT, seeded, rejects := 0.0, 0, false, 0;
    }

    method Add(v: Option<real>, t: int, rebooted: bool) returns (d: real)
      modifies this
      ensures View() == Next(Config(rate, maxGap), old(View()), Reading(v, t, rebooted))
      ensures d == Increment(Config(rate, maxGap), old(View()), Reading(v, t, rebooted))
    {
      if v.None? {
        return 0.0;
      }
      if !seeded || t - lastT > maxGap {
        last, lastT, seeded, rejects := v.value, t, true, 0;
        return 0.0;
      }
      d := v.value - last;
      if rebooted && d < 0.0 {
        d := v.value;
      }
      if d < 0.0 || d > rate * 2.0 * ((t - lastT) as real) / 1000.0 {
        rejects := rejects + 1;
        if rejects < 3 {
          return 0.0;
        }
        d := 0.0;
      }
      last, lastT, rejects := v.value, t, 0;
    }
  }

  // ---- runs of readings ----

  function After(c: Config, s: State, rs: seq<Reading>): State {
    if rs == [] then s else Next(c, After(c, s, rs[..|rs| - 1]), rs[|rs| - 1])
  }

  function Sum(c: Config, s: State, rs: seq<Reading>): real {
    if rs == [] then 0.0
    else Sum(c, s, rs[..|rs| - 1]) + Increment(c, After(c, s, rs[..|rs| - 1]), rs[|rs| - 1])
  }

  ghost predicate Ascending(rs: seq<Reading>) {
    forall i, j :: 0 <= i < j < |rs| ==> rs[i].t <= rs[j].t
  }

  lemma LimitAdds(rate: real, a: int, b: int)
    ensures Limit(rate, a + b) == Limit(rate, a) + Limit(rate, b)
  {
    assert (a + b) as real == a as real + b as real;
  }

  lemma LimitGrows(rate: real, a: int, b: int)
    requires rate >= 0.0 && a <= b
    ensures Limit(rate, a) <= Limit(rate, b)
  {
    LimitAdds(rate, a, b - a);
    assert rate * 2.0 * ((b - a) as real) >= 0.0;
  }

  /** An increment is never negative, and positive only when it is accepted over a gap within maxGap and within the
      limit. */
  lemma IncrementBound(c: Config, s: State, r: Reading)
    ensures Increment(c, s, r) >= 0.0
    ensures Increment(c, s, r) > 0.0 ==>
              && s.seeded && r.t - s.lastT <= c.maxGap
              && Increment(c, s, r) <= Limit(c.rate, r.t - s.lastT)
              && Next(c, s, r) == State(r.v.value, r.t, true, 0)
  {
  }

  lemma {:induction false} Settled(c: Config, s: State, rs: seq<Reading>, t: int)
    requires Ascending(rs) && (rs != [] ==> rs[|rs| - 1].t <= t) && (s.seeded ==> s.lastT <= t)
    requires s.seeded && rs != [] ==> s.lastT <= rs[0].t
    ensures After(c, s, rs).seeded ==> After(c, s, rs).lastT <= t
    ensures s.seeded ==> After(c, s, rs).seeded && s.lastT <= After(c, s, rs).lastT
  {
    if rs != [] {
      var front, r := rs[..|rs| - 1], rs[|rs| - 1];
      if front != [] { assert front[0] == rs[0]; }
      Settled(c, s, front, r.t);
    }
  }

  /** The accepted gaps are disjoint: from a baseline on, all increments together stay within the limit of the whole
      span. */
  lemma {:induction false} SpanBound(c: Config, s: State, rs: seq<Reading>)
    requires c.rate >= 0.0 && Ascending(rs) && s.seeded && (rs != [] ==> s.lastT <= rs[0].t)
    ensures 0.0 <= Sum(c, s, rs) <= Limit(c.rate, After(c, s, rs).lastT - s.lastT)
  {
    if rs == [] {
      assert Limit(c.rate, 0) == 0.0;
    } else {
      var front, r := rs[..|rs| - 1], rs[|rs| - 1];
      if front != [] { assert front[0] == rs[0]; }
      SpanBound(c, s, front);
      Settled(c, s, front, r.t);
      var m := After(c, s, front);
      IncrementBound(c, m, r);
      LimitAdds(c.rate, m.lastT - s.lastT, r.t - m.lastT);
      LimitGrows(c.rate, m.lastT - s.lastT, Next(c, m, r).lastT - s.lastT);
    }
  }

  /** From a fresh counter: at most the limit of last minus first reading. */
  lemma {:induction false} TotalBound(c: Config, rs: seq<Reading>)
    requires c.rate >= 0.0 && Ascending(rs) && rs != []
    ensures 0.0 <= Sum(c, UNSEEDED, rs) <= Limit(c.rate, rs[|rs| - 1].t - rs[0].t)
  {
    FreshBound(c, rs, rs[0].t);
    var s := After(c, UNSEEDED, rs);
    Settled(c, UNSEEDED, rs, rs[|rs| - 1].t);
    if s.seeded { LimitGrows(c.rate, s.lastT - rs[0].t, rs[|rs| - 1].t - rs[0].t); }
    LimitGrows(c.rate, 0, rs[|rs| - 1].t - rs[0].t);
  }

  lemma {:induction false} FreshBound(c: Config, rs: seq<Reading>, first: int)
    requires c.rate >= 0.0 && Ascending(rs) && forall i :: 0 <= i < |rs| ==> first <= rs[i].t
    ensures var s := After(c, UNSEEDED, rs);
            if s.seeded then first <= s.lastT && 0.0 <= Sum(c, UNSEEDED, rs) <= Limit(c.rate, s.lastT - first)
            else Sum(c, UNSEEDED, rs) == 0.0
  {
    if rs != [] {
      var front, r := rs[..|rs| - 1], rs[|rs| - 1];
      FreshBound(c, front, first);
      Settled(c, UNSEEDED, front, r.t);
      var m := After(c, UNSEEDED, front);
      IncrementBound(c, m, r);
      if m.seeded {
        LimitAdds(c.rate, m.lastT - first, r.t - m.lastT);
        LimitGrows(c.rate, m.lastT - first, Next(c, m, r).lastT - first);
      } else {
        LimitGrows(c.rate, 0, r.t - first);
      }
    }
  }

  /** The latest reported value and its time; missing readings leave it alone. */
  function Latest(s: State, rs: seq<Reading>): (real, int) {
    if rs == [] then (s.last, s.lastT)
    else if rs[|rs| - 1].v.Some? then (rs[|rs| - 1].v.value, rs[|rs| - 1].t)
    else Latest(s, rs[..|rs| - 1])
  }

  /** A believable history: within maxGap and the rate from one report to the next, never falling, no reboot. */
  ghost predicate Honest(c: Config, s: State, rs: seq<Reading>) {
    rs == [] ||
    (var front, r := rs[..|rs| - 1], rs[|rs| - 1];
     var (v, t) := Latest(s, front);
     && Honest(c, s, front)
     && (r.v.Some? ==> !r.rebooted && r.t - t <= c.maxGap && 0.0 <= r.v.value - v <= Limit(c.rate, r.t - t)))
  }

  /** On an honest history nothing is lost: the increments telescope to the final minus the first value. */
  lemma {:induction false} HonestTelescopes(c: Config, s: State, rs: seq<Reading>)
    requires s.seeded && Honest(c, s, rs)
    ensures var (v, t) := Latest(s, rs);
            && Sum(c, s, rs) == v - s.last
            && After(c, s, rs).last == v && After(c, s, rs).lastT == t && After(c, s, rs).seeded
  {
    if rs != [] {
      HonestTelescopes(c, s, rs[..|rs| - 1]);
    }
  }

  /** The same with reboots: after one, a lower reading has grown from zero. */
  ghost predicate HonestBoots(c: Config, s: State, rs: seq<Reading>) {
    rs == [] ||
    (var front, r := rs[..|rs| - 1], rs[|rs| - 1];
     var (v, t) := Latest(s, front);
     && HonestBoots(c, s, front)
     && (r.v.Some? ==>
           && r.t - t <= c.maxGap
           && 0.0 <= (if r.rebooted && r.v.value < v then r.v.value else r.v.value - v) <= Limit(c.rate, r.t - t)))
  }

  /** What the counter had reached before each restart from zero. */
  ghost function Dropped(s: State, rs: seq<Reading>): real {
    if rs == [] then 0.0
    else
      var front, r := rs[..|rs| - 1], rs[|rs| - 1];
      var v := Latest(s, front).0;
      Dropped(s, front) + if r.v.Some? && r.rebooted && r.v.value < v then v else 0.0
  }

  /** Over any number of reboots every boot's last total counts, and the first value is taken off once. */
  lemma {:induction false} BootsTelescope(c: Config, s: State, rs: seq<Reading>)
    requires s.seeded && HonestBoots(c, s, rs)
    ensures var (v, t) := Latest(s, rs);
            && Sum(c, s, rs) == Dropped(s, rs) + v - s.last
            && After(c, s, rs).last == v && After(c, s, rs).lastT == t && After(c, s, rs).seeded
  {
    if rs != [] {
      BootsTelescope(c, s, rs[..|rs| - 1]);
    }
  }

  /** Two readings of a fresh counter: the first is the baseline; the growth of the second counts if it comes within
      maxGap and is no more than the rate allows for twice the gap. */
  lemma TwoReadings(c: Config, a: Reading, b: Reading)
    requires a.v.Some? && b.v.Some?
    ensures var grown := if b.rebooted && b.v.value < a.v.value then b.v.value else b.v.value - a.v.value;
            Sum(c, UNSEEDED, [a, b])
            == if b.t <= a.t + c.maxGap && 0.0 <= grown <= 2.0 * c.rate * ((b.t - a.t) as real) / 1000.0
               then grown else 0.0
  {
    SumFrom(c, UNSEEDED, a, [b]);
    assert [a] + [b] == [a, b] && [b][..0] == [];
    var s := Next(c, UNSEEDED, a);
    assert After(c, s, []) == s && Sum(c, s, []) == 0.0 && Sum(c, s, [b]) == Increment(c, s, b);
  }

  lemma {:induction false} SumFrom(c: Config, s: State, first: Reading, rest: seq<Reading>)
    ensures After(c, s, [first] + rest) == After(c, Next(c, s, first), rest)
    ensures Sum(c, s, [first] + rest) == Increment(c, s, first) + Sum(c, Next(c, s, first), rest)
  {
    var all := [first] + rest;
    if rest == [] {
      assert all[..0] == [] && all == [first];
      assert After(c, s, []) == s && Sum(c, s, []) == 0.0;
    } else {
      assert all[..|all| - 1] == [first] + rest[..|rest| - 1];
      SumFrom(c, s, first, rest[..|rest| - 1]);
    }
  }

  /** So from a fresh counter the increments add up to the final minus the first reading. */
  lemma HonestCounterTelescopes(c: Config, first: Reading, rest: seq<Reading>)
    requires first.v.Some? && Honest(c, State(first.v.value, first.t, true, 0), rest)
    ensures var (v, t) := Latest(State(first.v.value, first.t, true, 0), rest);
            && Sum(c, UNSEEDED, [first] + rest) == v - first.v.value
            && After(c, UNSEEDED, [first] + rest).last == v && After(c, UNSEEDED, [first] + rest).lastT == t
  {
    SumFrom(c, UNSEEDED, first, rest);
    HonestTelescopes(c, State(first.v.value, first.t, true, 0), rest);
  }

  /** Between calls fewer than three rejections are pending. */
  lemma {:induction false} FewRejects(c: Config, s: State, rs: seq<Reading>)
    requires s.rejects < 3
    ensures After(c, s, rs).rejects < 3
  {
    if rs != [] {
      FewRejects(c, s, rs[..|rs| - 1]);
    }
  }

  ghost function Reported(rs: seq<Reading>): nat {
    if rs == [] then 0 else Reported(rs[..|rs| - 1]) + if rs[|rs| - 1].v.Some? then 1 else 0
  }

  /** Every reading of the run that is not missing would be rejected against the baseline s. */
  ghost predicate AllRejected(c: Config, s: State, rs: seq<Reading>) {
    forall i :: 0 <= i < |rs| && rs[i].v.Some? ==> Rejected(c, s, rs[i])
  }

  lemma RejectionIgnoresCount(c: Config, s: State, n: nat, r: Reading)
    ensures Rejected(c, s.(rejects := n), r) <==> Rejected(c, s, r)
  {
  }

  lemma {:induction false} RejectionsCount(c: Config, s: State, rs: seq<Reading>)
    requires AllRejected(c, s, rs) && s.rejects + Reported(rs) < 3
    ensures After(c, s, rs) == s.(rejects := s.rejects + Reported(rs)) && Sum(c, s, rs) == 0.0
  {
    if rs != [] {
      var front, r := rs[..|rs| - 1], rs[|rs| - 1];
      forall i | 0 <= i < |front| && front[i].v.Some? ensures Rejected(c, s, front[i]) { assert front[i] == rs[i]; }
      RejectionsCount(c, s, front);
      if r.v.Some? { RejectionIgnoresCount(c, s, After(c, s, front).rejects, r); }
    }
  }

  /** Recovery: whatever was pending, the rejection that makes three becomes the new baseline, and none of them
      counts. */
  lemma ThirdRejectionReseeds(c: Config, s: State, rs: seq<Reading>)
    requires s.rejects < 3 && rs != [] && AllRejected(c, s, rs) && rs[|rs| - 1].v.Some? && s.rejects + Reported(rs) == 3
    ensures After(c, s, rs) == State(rs[|rs| - 1].v.value, rs[|rs| - 1].t, true, 0)
    ensures Sum(c, s, rs) == 0.0
  {
    var front, r := rs[..|rs| - 1], rs[|rs| - 1];
    forall i | 0 <= i < |front| && front[i].v.Some? ensures Rejected(c, s, front[i]) { assert front[i] == rs[i]; }
    RejectionsCount(c, s, front);
    RejectionIgnoresCount(c, s, 2, r);
  }
}
