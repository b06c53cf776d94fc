/** The hourly series: one grouped query over the complete hours of a window, and the response it becomes. */
module StatsSeries {
  import opened Base
  import opened Grouping
  import opened Sorting
  import opened SetBuckets
  import opened Families
  import opened DistinctCounts
  import opened World
  import opened RawRows
  import opened Protocol
  import opened RunTheorems
  import opened PathQuery

  datatype Values = Values(observations: int, uniquePackets: int, activeObservers: int, activeIatas: int,
                           scopedPackets: int,
                           activeScopes: int, maxPathEntries: int, signal: SignalSums)

  const NO_VALUES: Values := Values(0, 0, 0, 0, 0, 0, 0, NO_SIGNAL)

  // ---- the stored rows of one hour ----

  function IatasAt(t: Tables, h: int): seq<(Iata, int)> {
    if h in t.content && IataObservations in t.content[h] && t.content[h][IataObservations].IataRows?
    then t.content[h][IataObservations].iatas else []
  }

  function PacketsAt(t: Tables, h: int): seq<(Bucket<()>, int)> {
    if h in t.content && PacketSets in t.content[h] && t.content[h][PacketSets].PacketRows?
    then t.content[h][PacketSets].packets else []
  }

  function ObserversAt(t: Tables, h: int): seq<(IdentityKey, int)> {
    if h in t.content && ObserverIdentity in t.content[h] && t.content[h][ObserverIdentity].IdentityRows?
    then t.content[h][ObserverIdentity].identities else []
  }

  function ScopesAt(t: Tables, h: int): seq<(Bucket<int>, int)> {
    if h in t.content && ScopeSets in t.content[h] && t.content[h][ScopeSets].ScopeRows?
    then t.content[h][ScopeSets].scopes else []
  }

  function PathsAt(t: Tables, h: int): seq<(PathKey, int)> {
    if h in t.content && Paths in t.content[h] && t.content[h][Paths].PathRows?
    then t.content[h][Paths].paths else []
  }

  function SignalAt(t: Tables, h: int): seq<(SignalKey, SignalSums)> {
    if h in t.content && Signal in t.content[h] && t.content[h][Signal].SignalRows?
    then t.content[h][Signal].signals else []
  }

  // ---- the query ----

  function Tagged<K, A>(h: int, rows: seq<(K, A)>): seq<((int, K), A)> {
    seq(|rows|, i requires 0 <= i < |rows| => ((h, rows[i].0), rows[i].1))
  }

  /** A family joined with the complete hours. */
  function Joined<K, A>(hours: seq<int>, part: int -> seq<(K, A)>): seq<((int, K), A)> {
    if hours == [] then []
    else Joined(hours[..|hours| - 1], part) + Tagged(hours[|hours| - 1], part(hours[|hours| - 1]))
  }

  /** GROUPING SETS ((), (hour)): one hour's group, or with no hour the group of all. */
  predicate InGroup(group: Option<int>, h: int) {
    group.None? || h == group.value
  }

  function GroupOf<K>(group: Option<int>, sel: K -> bool): ((int, K)) -> bool {
    (k: (int, K)) => InGroup(group, k.0) && sel(k.1)
  }

  /** count(DISTINCT proj). */
  function DistinctCount<K, A, X(==)>(rows: seq<((int, K), A)>, sel: ((int, K)) -> bool, proj: K -> X): int {
    |set i | 0 <= i < |rows| && sel(rows[i].0) :: proj(rows[i].0.1)|
  }

  function MaxEntries<A>(rows: seq<((int, PathKey), A)>, sel: ((int, PathKey)) -> bool): Option<int> {
    if rows == [] then None
    else
      var front, key := MaxEntries(rows[..|rows| - 1], sel), rows[|rows| - 1].0;
      if !sel(key) then front else Some(if front.None? then key.1.entries else Max(front.value, key.1.entries))
  }

  function IataSelected(filter: set<Iata>): Iata -> bool {
    (iata: Iata) => filter == {} || iata in filter
  }

  function IdentitySelected(filter: set<Iata>): IdentityKey -> bool {
    (k: IdentityKey) => filter == {} || k.iata in filter
  }

  function RoutedSelected(filter: set<Iata>): PathKey -> bool {
    (k: PathKey) => k.category == 0 && (filter == {} || k.iata in filter)
  }

  function SignalSelected(filter: set<Iata>): SignalKey -> bool {
    (k: SignalKey) => k.kind == 3 && (filter == {} || k.iata in filter)
  }

  function ItsIata(iata: Iata): Iata {
    iata
  }

  function ItsObserver(k: IdentityKey): nat {
    k.observer
  }

  function ItsScope(b: Bucket<int>): int {
    b.tag
  }

  function GroupValues(t: Tables, complete: seq<int>, group: Option<int>, filter: set<Iata>): Values {
    var obs := Joined(complete, (h: int) => IatasAt(t, h));
    var packets := Joined(complete, (h: int) => PacketsAt(t, h));
    var observers := Joined(complete, (h: int) => ObserversAt(t, h));
    var scopes := Joined(complete, (h: int) => ScopesAt(t, h));
    var longest := MaxEntries(Joined(complete, (h: int) => PathsAt(t, h)), GroupOf(group, RoutedSelected(filter)));
    Values(Total(obs, GroupOf(group, IataSelected(filter)), Plus, 0),
           Total(packets, GroupOf(group, BucketFilter(Any<()>, filter)), Plus, 0),
           DistinctCount(observers, GroupOf(group, IdentitySelected(filter)), ItsObserver),
           DistinctCount(obs, GroupOf(group, IataSelected(filter)), ItsIata),
           Total(scopes, GroupOf(group, BucketFilter(Any<int>, filter)), Plus, 0),
           DistinctCount(scopes, GroupOf(group, BucketFilter(Any<int>, filter)), ItsScope),
           if longest.None? then 0 else longest.value,
           Total(Joined(complete, (h: int) => SignalAt(t, h)), GroupOf(group, SignalSelected(filter)), PlusSignal,
                 NO_SIGNAL))
  }

  /** generate_series(since, until, 1 hour) below until. */
  function HoursIn(since: int, until: int): (hours: seq<int>)
    ensures forall h :: h in hours ==> since <= h < until
    ensures forall i, j :: 0 <= i < j < |hours| ==> hours[i] < hours[j]
    decreases Max(until - since, 0)
  {
    if since >= until then []
    else
      var rest := HoursIn(since + HOUR, until);
      assert forall j :: 0 <= j < |rest| ==> rest[j] in rest;
      [since] + rest
  }

  function IsCompleteIn(t: Tables): int -> bool {
    (h: int) => IsComplete(t, h)
  }

  function CompleteIn(t: Tables, since: int, until: int): seq<int> {
    Filter(HoursIn(since, until), IsCompleteIn(t))
  }

  datatype SeriesRow = OfHour(hour: int, status: Status, values: Values) | OfWindow(values: Values)

  function QueryRow(t: Tables, complete: seq<int>, filter: set<Iata>, h: int): SeriesRow {
    OfHour(h, if h in t.hours then t.hours[h].status else Missing, GroupValues(t, complete, Some(h), filter))
  }

  /** The hour rows; the summary row over all complete hours comes after them (ORDER BY hour NULLS LAST). */
  function Dated(t: Tables, complete: seq<int>, filter: set<Iata>, dates: seq<int>): seq<SeriesRow> {
    seq(|dates|, i requires 0 <= i < |dates| => QueryRow(t, complete, filter, dates[i]))
  }

  // ---- the response ----

  datatype SeriesHour = SeriesHour(hour: int, status: Status, values: Option<Values>)

  datatype Series = Series(since: int, until: int, revision: nat, earliestComplete: Option<int>, hours: seq<SeriesHour>,
                           summary: Values, completeHours: nat)

  /** What the response says of one hour. */
  function HourOf(r: SeriesRow): SeriesHour
    requires r.OfHour?
  {
    SeriesHour(r.hour / 1000, r.status, if r.status == Complete then Some(r.values) else None)
  }

  ghost predicate IsEarliest(t: Tables, earliest: Option<int>) {
    && (forall h :: IsComplete(t, h) ==> earliest.Some? && earliest.value <= h)
    && (earliest.Some? ==> IsComplete(t, earliest.value))
  }

  /** GetEarliestCompleteRollupHour. */
  method EarliestComplete(t: Tables) returns (earliest: Option<int>)
    ensures IsEarliest(t, earliest)
  {
    var todo := set h | h in t.hours && IsComplete(t, h);
    earliest := None;
    while todo != {}
      invariant forall h :: IsComplete(t, h) ==> h in todo || (earliest.Some? && earliest.value <= h)
      invariant todo <= t.hours.Keys && forall h :: h in todo ==> IsComplete(t, h)
      invariant earliest.Some? ==> IsComplete(t, earliest.value)
      decreases todo
    {
      var h: int :| h in todo;
      if earliest.None? || h < earliest.value {
        earliest := Some(h);
      }
      todo := todo - {h};
    }
  }

  ghost function HoursShown(t: Tables, since: int, until: int, filter: set<Iata>): seq<SeriesHour> {
    var hours, complete := HoursIn(since, until), CompleteIn(t, since, until);
    seq(|hours|, i requires 0 <= i < |hours| => HourOf(QueryRow(t, complete, filter, hours[i])))
  }

  /** The loop over the result rows: the summary row sets the summary, every other row is an hour. */
  method ReadRows(hourRows: seq<SeriesRow>, window: Values) returns (hours: seq<SeriesHour>, summary: Values,
                                                                     completeHours: nat)
    requires forall r :: r in hourRows ==> r.OfHour?
    ensures hours == seq(|hourRows|, i requires 0 <= i < |hourRows| => HourOf(hourRows[i]))
    ensures summary == window
    ensures completeHours == |Filter(hourRows, ShownComplete)|
  {
    var rows := hourRows + [OfWindow(window)];
    hours := [];
    completeHours := 0;
    summary := NO_VALUES;
    var i := 0;
    while i < |rows|
      invariant i <= |rows|
      invariant var n := if i < |rows| then i else i - 1;
                && |hours| == n && (forall j :: 0 <= j < n ==> hours[j] == HourOf(hourRows[j]))
                && completeHours == |Filter(hourRows[..n], ShownComplete)|
      invariant i == |rows| ==> summary == window
    {
      var r := rows[i];
      assert i < |hourRows| ==> r == hourRows[i] && r in hourRows;
      i := i + 1;
      if r.OfWindow? {
        summary := r.values;
        continue;
      }
      assert hourRows[..i][..i - 1] == hourRows[..i - 1];
      var h := SeriesHour(r.hour / 1000, r.status, None);
      if r.status == Complete {
        h := h.(values := Some(r.values));
        completeHours := completeHours + 1;
      }
      hours := hours + [h];
    }
    assert hourRows[..|hourRows|] == hourRows;
  }

  predicate ShownComplete(r: SeriesRow) {
    r.OfHour? && r.status == Complete
  }

  lemma {:induction false} CountComplete(t: Tables, complete: seq<int>, filter: set<Iata>, dates: seq<int>)
    ensures |Filter(Dated(t, complete, filter, dates), ShownComplete)| == |Filter(dates, IsCompleteIn(t))|
  {
    if dates != [] {
      var front := dates[..|dates| - 1];
      CountComplete(t, complete, filter, front);
      var rows := Dated(t, complete, filter, dates);
      assert rows[..|rows| - 1] == Dated(t, complete, filter, front);
    }
  }

  /** What a response says of the three states its statements read. */
  ghost predicate Answers(out: Series, atRevision: Tables, atEarliest: Tables, atRows: Tables, since: int, until: int,
                          filter: set<Iata>) {
    && out.since == since / 1000 && out.until == until / 1000 && out.revision == Revision(atRevision)
    && (exists earliest :: IsEarliest(atEarliest, earliest)
                           && out.earliestComplete == if earliest.None? then None else Some(earliest.value / 1000))
    && out.hours == HoursShown(atRows, since, until, filter)
    && out.summary == GroupValues(atRows, CompleteIn(atRows, since, until), None, filter)
    && out.completeHours == |CompleteIn(atRows, since, until)|
  }

  /** GetStatsSeries. The three statements may each see a later state: the revision is read first. */
  method GetStatsSeries(atRevision: Tables, atEarliest: Tables, atRows: Tables, since: int, until: int,
                        filter: set<Iata>)
    returns (out: Series)
    ensures Answers(out, atRevision, atEarliest, atRows, since, until, filter)
  {
    var revision := Revision(atRevision);
    var earliest := EarliestComplete(atEarliest);
    var dates, complete := HoursIn(since, until), CompleteIn(atRows, since, until);
    var hours, summary, completeHours :=
      ReadRows(Dated(atRows, complete, filter, dates), GroupValues(atRows, complete, None, filter));
    CountComplete(atRows, complete, filter, dates);
    out := Series(since / 1000, until / 1000, revision, if earliest.None? then None
        else Some(earliest.value / 1000), hours, summary,
                  completeHours);
  }
}
