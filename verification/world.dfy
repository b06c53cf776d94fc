/** The rollup protocol as a state machine. A step is one atomic statement of ingest, cleanup, historical
    decryption, retention or the rollup session; only a roll spans two steps, BeginRoll (its REPEATABLE READ
    snapshot and row lock) and EndRoll (commit or abort), with any other steps in between. */
module World {
  import opened Base
  import opened SetBuckets
  import opened Families

  // Ingest clamps heard_at to 30 minutes around the packet's arrival, and stores the observation
  // within the 5 minutes that 95 = 60 + 30 + 5 leaves over.
  const CLAMP: int := 30 * MINUTE
  const INGEST_LAG: int := 5 * MINUTE
  const ROLLUP_DELAY: int := 95 * MINUTE

  datatype Packet = Packet(routeType: int, originPubkey: Option<nat>, scopeId: Option<int>, lastHeard: int)

  datatype Observation = Observation(packet: Hash, observer: nat, iata: Iata, heardAt: int, pathLengthByte: int,
                                     hashSize: int,
                                     hopCount: int, pathBytes: Option<seq<nat>>, rssi: Option<int>, snr: Option<real>,
                                     airtimeMs: Option<real>, payloadType: Option<int>)

  datatype Status = Missing | Complete | Partial

  /** analytics_rollup_hours. The content hash is an injective fingerprint, so the content stands for it. */
  datatype HourRow = HourRow(status: Status, contentHash: Option<Content>)

  datatype Tables = Tables(
    packets: map<Hash, Packet>,
    observations: seq<Observation>,
    messages: map<Hash, Message>,
    hours: map<int, HourRow>,
    content: map<int, Content>,        // the 13 family tables, by hour
    dirty: map<int, nat>,              // hour to the version of its row
    rawDeletedBefore: Option<int>,
    revision: nat,
    coverage: nat)

  /** A roll in flight: the hour whose row it locked and the snapshot all its statements read. */
  datatype RollTx = RollTx(hour: int, snapshot: Tables)

  /** ever is history, not a table: every row ingest inserted, joined as a roll would join it. */
  datatype World = World(now: int, stamp: nat, tables: Tables, roll: Option<RollTx>, ever: seq<Row>)

  datatype Step =
    | Tick(to: int)
    | UpsertPacket(hash: Hash, packet: Packet)
    | TouchPacket(hash: Hash, heard: int)
    | InsertObservation(observation: Observation, arrived: int)
    | InsertChannelMessage(hash: Hash, message: Message, historical: bool)
    | DeleteOldPackets(victims: set<Hash>, newest: int)
    | RegisterHours(since: int)
    | MarkPartialHours
    | BeginRoll(hour: int)
    | EndRoll(fails: bool)
    | DeleteStaleDirtyHours
    | DeleteOldRollups(cutoff: int)

  const EMPTY: Tables := Tables(map[], [], map[], map[], map[], map[], None, 0, 0)

  function Start(now: int): World {
    World(now, 0, EMPTY, None, [])
  }

  // ---- the queries ----

  function Join(o: Observation, p: Packet): Row {
    Row(o.packet, o.observer, o.iata, o.heardAt, o.pathLengthByte, o.hashSize, o.hopCount,
        if o.pathBytes.Some? then |o.pathBytes.value| else 0, o.rssi, o.snr, o.airtimeMs, o.payloadType,
        p.routeType, p.originPubkey, p.scopeId)
  }

  /** rollup_obs: the hour's observations joined with their packets. */
  function RollupObs(observations: seq<Observation>, packets: map<Hash, Packet>, hour: int): seq<Row> {
    if observations == [] then []
    else
      var o := observations[|observations| - 1];
      var front := RollupObs(observations[..|observations| - 1], packets, hour);
      if InHour(o.heardAt, hour) && o.packet in packets then front + [Join(o, packets[o.packet])] else front
  }

  function HourRows(t: Tables, hour: int): seq<Row> {
    RollupObs(t.observations, t.packets, hour)
  }

  /** The rows of the history heard in an hour. */
  function RowsIn(rows: seq<Row>, hour: int): seq<Row> {
    if rows == [] then []
    else
      var front := RowsIn(rows[..|rows| - 1], hour);
      if InHour(rows[|rows| - 1].heardAt, hour) then front + [rows[|rows| - 1]] else front
  }

  /** Raw deletion has not reached the hour: not (hour <= raw_deleted_before + 30 min). */
  predicate Intact(t: Tables, hour: int) {
    t.rawDeletedBefore.None? || hour > t.rawDeletedBefore.value + CLAMP
  }

  function HoursOf(observations: seq<Observation>, hash: Hash): set<int> {
    set o | o in observations && o.packet == hash :: TruncHour(o.heardAt)
  }

  function Without(observations: seq<Observation>, victims: set<Hash>): seq<Observation> {
    if observations == [] then []
    else
      var o := observations[|observations| - 1];
      var front := Without(observations[..|observations| - 1], victims);
      if o.packet in victims then front else front + [o]
  }

  function MinHeard(observations: seq<Observation>): int
    requires observations != []
  {
    var o := observations[|observations| - 1];
    if |observations| == 1 then o.heardAt else Min(MinHeard(observations[..|observations| - 1]), o.heardAt)
  }

  function AlignedHours(first: int, last: int): set<int> {
    set h | first <= h <= last && h % HOUR == 0
  }

  function NewHours(eligible: set<int>): map<int, HourRow> {
    map h | h in eligible :: HourRow(Missing, None)
  }

  /** generate_series(first_hour, date_trunc('hour', now - 95 min), 1 hour); empty without observations. */
  function EligibleHours(t: Tables, now: int, since: int): set<int> {
    if t.observations == [] then {}
    else AlignedHours(TruncHour(Max(MinHeard(t.observations), since)), TruncHour(now - ROLLUP_DELAY))
  }

  predicate IsComplete(t: Tables, hour: int) {
    hour in t.hours && t.hours[hour].status == Complete
  }

  /** LockRollupHour: no row, 'partial' (stored or because raw deletion got there first), or the stored status. */
  function LockRollupHour(t: Tables, hour: int): Option<Status> {
    if hour !in t.hours then None
    else if !Intact(t, hour) then Some(Partial)
    else Some(t.hours[hour].status)
  }

  // ---- the statements ----

  function Inserted(w: World, o: Observation): World {
    var t := w.tables;
    if o.packet !in t.packets || exists p :: p in t.observations && p.packet == o.packet
                                             && p.observer == o.observer then w
    else w.(tables := t.(observations := t.observations + [o]), ever := w.ever + [Join(o, t.packets[o.packet])])
  }

  function MessageInserted(w: World, hash: Hash, message: Message, historical: bool): World {
    var t := w.tables;
    if hash !in t.packets || hash in t.messages then w
    else
      var dirtied := if historical then HoursOf(t.observations, hash) else {};
      w.(stamp := w.stamp + 1,
         tables := t.(messages := t.messages[hash := message], dirty := t.dirty + map h | h in dirtied :: w.stamp + 1))
  }

  function PacketsDeleted(t: Tables, victims: set<Hash>, newest: int): Tables {
    if victims == {} then t
    else t.(packets := t.packets - victims, observations := Without(t.observations, victims), messages :=
        t.messages - victims,
            rawDeletedBefore := Some(if t.rawDeletedBefore.None? then newest
                else Max(t.rawDeletedBefore.value, newest)))
  }

  function HoursRegistered(t: Tables, now: int, since: int): Tables {
    t.(hours := NewHours(EligibleHours(t, now, since)) + t.hours)
  }

  predicate Lost(t: Tables, hour: int) {
    hour in t.hours && t.hours[hour].status == Missing && !Intact(t, hour)
  }

  function PartialMarked(t: Tables): Tables {
    t.(hours := map h | h in t.hours :: if Lost(t, h) then t.hours[h].(status := Partial) else t.hours[h],
       revision := if exists h :: h in t.hours && Lost(t, h) then t.revision + 1 else t.revision)
  }

  function HourSetPartial(t: Tables, hour: int): Tables {
    if hour in t.hours && t.hours[hour].status == Missing
    then t.(hours := t.hours[hour := t.hours[hour].(status := Partial)], revision := t.revision + 1)
    else t
  }

  /** What the roll writes: every family rebuilt from the snapshot. */
  function Rolled(tx: RollTx): Content {
    RollAll(HourRows(tx.snapshot, tx.hour), tx.snapshot.messages)
  }

  function At<V>(table: map<int, V>, hour: int): Option<V> {
    if hour in table then Some(table[hour]) else None
  }

  /** content_hash of the hour's previous roll IS DISTINCT FROM the new one. */
  predicate Changed(tx: RollTx) {
    tx.hour !in tx.snapshot.hours || tx.snapshot.hours[tx.hour].contentHash != Some(Rolled(tx))
  }

  /** First updater wins (40001): a row the roll deletes or updates is not the one its snapshot saw. */
  predicate Conflict(t: Tables, tx: RollTx) {
    || At(t.hours, tx.hour) != At(tx.snapshot.hours, tx.hour)
    || At(t.content, tx.hour) != At(tx.snapshot.content, tx.hour)
    || (tx.hour in tx.snapshot.dirty && At(t.dirty, tx.hour) != At(tx.snapshot.dirty, tx.hour))
    || (Changed(tx) && t.revision != tx.snapshot.revision)
  }

  function Installed(t: Tables, tx: RollTx, content: Content, changed: bool): Tables {
    t.(content := t.content[tx.hour := content],
       hours := t.hours[tx.hour := HourRow(Complete, Some(content))],
       // A dirty row the snapshot did not see survives the delete.
       dirty := if tx.hour in tx.snapshot.dirty then t.dirty - {tx.hour} else t.dirty,
       revision := if changed then t.revision + 1 else t.revision)
  }

  function Committed(t: Tables, tx: RollTx): Tables {
    Installed(t, tx, Rolled(tx), Changed(tx))
  }

  predicate Stale(t: Tables, hour: int) {
    (hour in t.hours && t.hours[hour].status == Partial) || !Intact(t, hour)
  }

  function RollupsDeleted(t: Tables, cutoff: int): Tables {
    t.(content := map h | h in t.content && h >= cutoff :: t.content[h],
       hours := map h | h in t.hours && h >= cutoff :: t.hours[h],
       dirty := map h | h in t.dirty && h >= cutoff :: t.dirty[h],
       coverage := if exists h :: h in t.hours && h < cutoff then t.coverage + 1 else t.coverage)
  }

  // ---- steps ----

  /** What the model assumes of the environment, and what locks allow. The rollup session's own statements
      run one after another under the advisory lock; a retention delete waits for a locked hour row. */
  predicate Enabled(w: World, s: Step) {
    match s
    case Tick(to) => to >= w.now
    case UpsertPacket(_, _) => true
    case TouchPacket(_, _) => true
    case InsertObservation(o, arrived) =>
      && arrived <= w.now <= arrived + INGEST_LAG
      && -CLAMP <= o.heardAt - arrived <= CLAMP
      && (o.packet in w.tables.packets ==> arrived <= w.tables.packets[o.packet].lastHeard)
    case InsertChannelMessage(_, _, _) => true
    case DeleteOldPackets(victims, newest) =>
      && victims <= w.tables.packets.Keys
      && (victims != {} ==> exists v :: v in victims && w.tables.packets[v].lastHeard == newest)
      && (forall v :: v in victims ==> w.tables.packets[v].lastHeard <= newest)
    case RegisterHours(_) => w.roll.None?
    case MarkPartialHours => w.roll.None?
    case BeginRoll(_) => w.roll.None?
    case EndRoll(_) => w.roll.Some?
    case DeleteStaleDirtyHours => w.roll.None?
    case DeleteOldRollups(cutoff) => w.roll.Some? ==> cutoff <= w.roll.value.hour
  }

  function Next(w: World, s: Step): World
    requires Enabled(w, s)
  {
    var t := w.tables;
    match s
    case Tick(to) => w.(now := to)
    case UpsertPacket(hash, packet) =>
      // ON CONFLICT only last_heard_at moves; the first reception's columns stay.
      w.(tables := t.(packets := t.packets[hash :=
          (if hash in t.packets then t.packets[hash] else packet).(lastHeard := w.now)]))
    case TouchPacket(hash, heard) =>
      if hash in t.packets
      then w.(tables := t.(packets := t.packets[hash :=
          t.packets[hash].(lastHeard := Max(t.packets[hash].lastHeard, heard))]))
      else w
    case InsertObservation(o, _) => Inserted(w, o)
    case InsertChannelMessage(hash, message, historical) => MessageInserted(w, hash, message, historical)
    case DeleteOldPackets(victims, newest) => w.(tables := PacketsDeleted(t, victims, newest))
    case RegisterHours(since) => w.(tables := HoursRegistered(t, w.now, since))
    case MarkPartialHours => w.(tables := PartialMarked(t))
    case BeginRoll(hour) =>
      (match LockRollupHour(t, hour)
       case None => w
       case Some(Partial) => w.(tables := HourSetPartial(t, hour))
       case Some(_) => w.(roll := Some(RollTx(hour, t))))
    case EndRoll(fails) =>
      if fails || Conflict(t, w.roll.value) then w.(roll := None)
      else w.(roll := None, tables := Committed(t, w.roll.value))
    case DeleteStaleDirtyHours => w.(tables := t.(dirty := map h | h in t.dirty && !Stale(t, h) :: t.dirty[h]))
    case DeleteOldRollups(cutoff) => w.(tables := RollupsDeleted(t, cutoff))
  }

  /** A run: every step enabled where it is taken. */
  predicate IsRun(w: World, steps: seq<Step>)
    decreases |steps|
  {
    steps == [] || (Enabled(w, steps[0]) && IsRun(Next(w, steps[0]), steps[1..]))
  }

  function After(w: World, steps: seq<Step>): World
    requires IsRun(w, steps)
    decreases |steps|
  {
    if steps == [] then w else After(Next(w, steps[0]), steps[1..])
  }
}
