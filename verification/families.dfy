/** The 13 hourly families: what each INSERT ... SELECT of a roll computes from one hour's rows. */
module Families {
  import opened Base
  import opened Grouping
  import opened SetBuckets

  type Hash = nat

  /** One row of rollup_obs: an observation joined with the immutable columns of its packet. */
  datatype Row = Row(packet: Hash, observer: nat, iata: Iata, heardAt: int, pathLengthByte: int, hashSize: int,
                     hopCount: int, pathLen: int, rssi: Option<int>, snr: Option<real>, airtimeMs: Option<real>,
                     payloadType: Option<int>, routeType: int, originPubkey: Option<nat>, scopeId: Option<int>)

  /** A decrypted channel message; packet_hash is unique in channel_messages, so it is the key elsewhere. */
  datatype Message = Message(sender: Option<string>, sentAt: int)

  const ADVERT: int := 4
  const TRACE: int := 9

  datatype Family =
    | IataObservations | PayloadBreakdown | Signal | Paths | ObserverActivity | ObserverIdentity | AdvertHearings
    | AdvertSets | TalkerSets | PacketSets | ScopeSets | ScopeObservers | ScopeNodes

  const ALL_FAMILIES: set<Family> :=
    { IataObservations, PayloadBreakdown, Signal, Paths, ObserverActivity, ObserverIdentity, AdvertHearings,
      AdvertSets, TalkerSets, PacketSets, ScopeSets, ScopeObservers, ScopeNodes }

  // ---- contributions and how they combine ----

  function Plus(a: int, b: int): int {
    a + b
  }

  /** Sums of a signal bin: receptions, and sample counts and sums of the reported readings. */
  datatype SignalSums = SignalSums(receptions: int, snrSamples: int, snrSum: real, rssiSamples: int, rssiSum: real)

  function PlusSignal(a: SignalSums, b: SignalSums): SignalSums {
    SignalSums(a.receptions + b.receptions, a.snrSamples + b.snrSamples, a.snrSum + b.snrSum,
               a.rssiSamples + b.rssiSamples, a.rssiSum + b.rssiSum)
  }

  const NO_SIGNAL: SignalSums := SignalSums(0, 0, 0.0, 0, 0.0)

  lemma SignalMonoid()
    ensures CommutativeMonoid(PlusSignal, NO_SIGNAL)
  {
  }

  /** SQL sums are NULL exactly when their count column is 0; the model keeps 0 there, as COALESCE does. */
  datatype Activity = Activity(observations: int, airtimeMs: real, airtimeN: int, snrSum: real, snrN: int,
                               snrMin: Option<real>, rssiSum: int, rssiN: int)

  const NO_ACTIVITY: Activity := Activity(0, 0.0, 0, 0.0, 0, None, 0, 0)

  function Least(a: Option<real>, b: Option<real>): Option<real> {
    if a.None? then b else if b.None? then a else Some(if a.value < b.value then a.value else b.value)
  }

  function PlusActivity(a: Activity, b: Activity): Activity {
    Activity(a.observations + b.observations, a.airtimeMs + b.airtimeMs, a.airtimeN + b.airtimeN, a.snrSum + b.snrSum,
             a.snrN + b.snrN, Least(a.snrMin, b.snrMin), a.rssiSum + b.rssiSum, a.rssiN + b.rssiN)
  }

  lemma ActivityMonoid()
    ensures CommutativeMonoid(PlusActivity, NO_ACTIVITY)
  {
    forall a: Activity, b: Activity, c: Activity
      ensures PlusActivity(PlusActivity(a, b), c) == PlusActivity(a, PlusActivity(b, c)) {}
  }

  datatype Hearings = Hearings(observations: int, lastHeard: int)

  function PlusHearings(a: Hearings, b: Hearings): Hearings {
    Hearings(a.observations + b.observations, Max(a.lastHeard, b.lastHeard))
  }

  datatype Adverts = Adverts(packets: int, flood: int, direct: int)

  const NO_ADVERTS: Adverts := Adverts(0, 0, 0)

  function PlusAdverts(a: Adverts, b: Adverts): Adverts {
    Adverts(a.packets + b.packets, a.flood + b.flood, a.direct + b.direct)
  }

  datatype Talks = Talks(messages: int, lastSent: Option<int>)

  const NO_TALKS: Talks := Talks(0, None)

  function PlusTalks(a: Talks, b: Talks): Talks {
    Talks(a.messages + b.messages,
          if a.lastSent.None? then b.lastSent else if b.lastSent.None? then a.lastSent
          else Some(Max(a.lastSent.value, b.lastSent.value)))
  }

  function KeepOne(a: (), b: ()): () {
    ()
  }

  // ---- row classification ----

  /** rssi = 0 and snr = 0 together mean "not reported". */
  predicate SignalReported(r: Row) {
    !((r.rssi == None || r.rssi == Some(0)) && (r.snr == None || r.snr == Some(0.0)))
  }

  function ReportedSnr(r: Row): Option<real> {
    if SignalReported(r) then r.snr else None
  }

  function ReportedRssi(r: Row): Option<int> {
    if SignalReported(r) then r.rssi else None
  }

  /** width_bucket(x, lo, hi, n). */
  function WidthBucket(x: real, lo: real, hi: real, n: nat): int
    requires lo < hi
  {
    if x < lo then 0 else if x >= hi then n + 1 else ((x - lo) * (n as real) / (hi - lo)).Floor + 1
  }

  function SnrBin(r: Row): int {
    match ReportedSnr(r)
    case None => -1
    case Some(x) => WidthBucket(x, -30.0, 30.0, 12)
  }

  function RssiBin(r: Row): int {
    match ReportedRssi(r)
    case None => -1
    case Some(x) => WidthBucket(x as real, -140.0, 0.0, 14)
  }

  function SignalOf(r: Row): SignalSums {
    var snr, rssi := ReportedSnr(r), ReportedRssi(r);
    SignalSums(1, if snr.Some? then 1 else 0, if snr.Some? then snr.value else 0.0,
               if rssi.Some? then 1 else 0, if rssi.Some? then rssi.value as real else 0.0)
  }

  function ActivityOf(r: Row): Activity {
    var snr, rssi := ReportedSnr(r), ReportedRssi(r);
    Activity(1, if r.airtimeMs.Some? then r.airtimeMs.value else 0.0, if r.airtimeMs.Some? then 1 else 0,
             if snr.Some? then snr.value else 0.0, if snr.Some? then 1 else 0, snr,
             if rssi.Some? then rssi.value else 0, if rssi.Some? then 1 else 0)
  }

  /** The packed path byte agrees with the unpacked columns and the stored bytes (IsValidPathLen). */
  predicate ValidPath(r: Row) {
    && 0 <= r.pathLengthByte <= 191
    && 1 <= r.hashSize <= 3
    && 0 <= r.hopCount <= 63
    && r.hashSize == r.pathLengthByte / 64 + 1
    && r.hopCount == r.pathLengthByte % 64
    && r.hashSize * r.hopCount <= 64
    && r.pathLen == r.hashSize * r.hopCount
  }

  /** 0 = routed, 1 = zero-hop, 2 = TRACE, 3 = invalid. */
  function PathCategory(r: Row): int {
    if r.payloadType == Some(TRACE) then 2
    else if r.payloadType.None? || !(0 <= r.payloadType.value <= 15) || !ValidPath(r) then 3
    else if r.hopCount == 0 then 1
    else 0
  }

  // ---- the selected rows of each family: its key, and the row's contribution ----

  function IataItem(r: Row): Option<(Iata, int)> {
    Some((r.iata, 1))
  }

  datatype PayloadKey = PayloadKey(iata: Iata, payloadType: int)

  function PayloadItem(r: Row): Option<(PayloadKey, int)> {
    if r.payloadType.None? then None else Some((PayloadKey(r.iata, r.payloadType.value), 1))
  }

  /** kind = grouping(snr_bin, rssi_bin): 3 = per IATA totals, 1 = per SNR bin, 2 = per RSSI bin. */
  datatype SignalKey = SignalKey(iata: Iata, kind: int, snrBin: int, rssiBin: int)

  function SignalTotalItem(r: Row): Option<(SignalKey, SignalSums)> {
    Some((SignalKey(r.iata, 3, -1, -1), SignalOf(r)))
  }

  function SnrBinItem(r: Row): Option<(SignalKey, SignalSums)> {
    Some((SignalKey(r.iata, 1, SnrBin(r), -1), SignalOf(r)))
  }

  function RssiBinItem(r: Row): Option<(SignalKey, SignalSums)> {
    Some((SignalKey(r.iata, 2, -1, RssiBin(r)), SignalOf(r)))
  }

  datatype PathKey = PathKey(iata: Iata, category: int, hashBytes: int, entries: int)

  function PathItem(r: Row): Option<(PathKey, int)> {
    var c := PathCategory(r);
    Some((PathKey(r.iata, c, if c == 0 then r.hashSize else 0, if c == 0 then r.hopCount else 0), 1))
  }

  datatype ActivityKey = ActivityKey(observer: nat, payloadType: int)

  function ActivityItem(r: Row): Option<(ActivityKey, Activity)> {
    Some((ActivityKey(r.observer, if r.payloadType.Some? then r.payloadType.value else -1), ActivityOf(r)))
  }

  datatype IdentityKey = IdentityKey(iata: Iata, observer: nat)

  function IdentityItem(r: Row): Option<(IdentityKey, int)> {
    Some((IdentityKey(r.iata, r.observer), 1))
  }

  datatype OriginKey = OriginKey(iata: Iata, originPubkey: nat)

  predicate IsAdvert(r: Row) {
    r.payloadType == Some(ADVERT) && r.originPubkey.Some?
  }

  function AdvertHearingItem(r: Row): Option<(OriginKey, Hearings)> {
    if IsAdvert(r) then Some((OriginKey(r.iata, r.originPubkey.value), Hearings(1, r.heardAt))) else None
  }

  datatype Advert = Advert(packet: Hash, originPubkey: nat, routeType: int)

  function AdvertHearing(r: Row): Option<(Advert, set<Iata>)> {
    if IsAdvert(r) then Some((Advert(r.packet, r.originPubkey.value, r.routeType), {r.iata})) else None
  }

  function AdvertOrigin(a: Advert): nat {
    a.originPubkey
  }

  predicate Flooded(a: Advert) {
    a.routeType == 0 || a.routeType == 1
  }

  predicate Direct(a: Advert) {
    a.routeType == 2 || a.routeType == 3
  }

  function AdvertCount(a: Advert): Adverts {
    Adverts(1, if Flooded(a) then 1 else 0, if Direct(a) then 1 else 0)
  }

  function PacketHearing(r: Row): Option<(Hash, set<Iata>)> {
    Some((r.packet, {r.iata}))
  }

  function NoTag(p: Hash): () {
    ()
  }

  function One<K>(k: K): int {
    1
  }

  datatype Scoped = Scoped(packet: Hash, scopeId: int)

  function ScopedHearing(r: Row): Option<(Scoped, set<Iata>)> {
    if r.scopeId.Some? then Some((Scoped(r.packet, r.scopeId.value), {r.iata})) else None
  }

  function ScopeOf(s: Scoped): int {
    s.scopeId
  }

  datatype Talk = Talk(packet: Hash, sender: string, sentAt: int)

  function TalkHearing(messages: map<Hash, Message>): Row -> Option<(Talk, set<Iata>)> {
    (r: Row) =>
      if r.packet in messages && messages[r.packet].sender.Some?
      then Some((Talk(r.packet, messages[r.packet].sender.value, messages[r.packet].sentAt), {r.iata}))
      else None
  }

  function SenderOf(t: Talk): string {
    t.sender
  }

  function TalkCount(t: Talk): Talks {
    Talks(1, Some(t.sentAt))
  }

  datatype ScopeObserverKey = ScopeObserverKey(iata: Iata, scopeId: int, observer: nat)

  function ScopeObserverItem(r: Row): Option<(ScopeObserverKey, ())> {
    if r.scopeId.Some? then Some((ScopeObserverKey(r.iata, r.scopeId.value, r.observer), ())) else None
  }

  datatype ScopeNodeKey = ScopeNodeKey(iata: Iata, scopeId: int, originPubkey: nat)

  function ScopeNodeItem(r: Row): Option<(ScopeNodeKey, ())> {
    if IsAdvert(r) && r.scopeId.Some? then Some((ScopeNodeKey(r.iata, r.scopeId.value, r.originPubkey.value), ()))
        else None
  }

  // ---- the families ----

  /** The rows one family stores for one hour. */
  datatype FamilyRows =
    | IataRows(iatas: seq<(Iata, int)>)
    | PayloadRows(payloads: seq<(PayloadKey, int)>)
    | SignalRows(signals: seq<(SignalKey, SignalSums)>)
    | PathRows(paths: seq<(PathKey, int)>)
    | ActivityRows(activity: seq<(ActivityKey, Activity)>)
    | IdentityRows(identities: seq<(IdentityKey, int)>)
    | HearingRows(hearings: seq<(OriginKey, Hearings)>)
    | AdvertRows(adverts: seq<(Bucket<nat>, Adverts)>)
    | TalkerRows(talkers: seq<(Bucket<string>, Talks)>)
    | PacketRows(packets: seq<(Bucket<()>, int)>)
    | ScopeRows(scopes: seq<(Bucket<int>, int)>)
    | ScopeObserverRows(scopeObservers: seq<(ScopeObserverKey, ())>)
    | ScopeNodeRows(scopeNodes: seq<(ScopeNodeKey, ())>)

  type Content = map<Family, FamilyRows>

  function Roll(f: Family, rows: seq<Row>, messages: map<Hash, Message>): FamilyRows {
    match f
    case IataObservations => IataRows(GroupBy(Collect(rows, IataItem), Plus))
    case PayloadBreakdown => PayloadRows(GroupBy(Collect(rows, PayloadItem), Plus))
    case Signal =>
      SignalRows(GroupBy(Collect(rows, SignalTotalItem) + Collect(rows, SnrBinItem) + Collect(rows, RssiBinItem),
                         PlusSignal))
    case Paths => PathRows(GroupBy(Collect(rows, PathItem), Plus))
    case ObserverActivity => ActivityRows(GroupBy(Collect(rows, ActivityItem), PlusActivity))
    case ObserverIdentity => IdentityRows(GroupBy(Collect(rows, IdentityItem), Plus))
    case AdvertHearings => HearingRows(GroupBy(Collect(rows, AdvertHearingItem), PlusHearings))
    case AdvertSets => AdvertRows(Buckets(Collect(rows, AdvertHearing), AdvertOrigin, AdvertCount, PlusAdverts))
    case TalkerSets => TalkerRows(Buckets(Collect(rows, TalkHearing(messages)), SenderOf, TalkCount, PlusTalks))
    case PacketSets => PacketRows(Buckets(Collect(rows, PacketHearing), NoTag, One<Hash>, Plus))
    case ScopeSets => ScopeRows(Buckets(Collect(rows, ScopedHearing), ScopeOf, One<Scoped>, Plus))
    case ScopeObservers => ScopeObserverRows(GroupBy(Collect(rows, ScopeObserverItem), KeepOne))
    case ScopeNodes => ScopeNodeRows(GroupBy(Collect(rows, ScopeNodeItem), KeepOne))
  }

  /** Every family of one hour. */
  function RollAll(rows: seq<Row>, messages: map<Hash, Message>): (content: Content)
  {
    map f | f in ALL_FAMILIES :: Roll(f, rows, messages)
  }

  /** The 12 families that read observations only. */
  function ObservedFamilies(rows: seq<Row>): Content {
    map f | f in ALL_FAMILIES - {TalkerSets} :: Roll(f, rows, map[])
  }

  lemma RollAllObserved(rows: seq<Row>, messages: map<Hash, Message>)
    ensures RollAll(rows, messages) - {TalkerSets} == ObservedFamilies(rows)
  {
    forall f | f in ALL_FAMILIES - {TalkerSets} ensures Roll(f, rows, messages) == Roll(f, rows, map[]) {
      OnlyTalkersReadMessages(f, rows, messages);
    }
  }

  lemma OnlyTalkersReadMessages(f: Family, rows: seq<Row>, messages: map<Hash, Message>)
    requires f != TalkerSets
    ensures Roll(f, rows, messages) == Roll(f, rows, map[])
  {
  }

  /** The families in whatever order the iteration over the map of rebuild functions takes them. */
  function RollInOrder(order: seq<Family>, rows: seq<Row>, messages: map<Hash, Message>): Content {
    if order == [] then map[]
    else
      var last := order[|order| - 1];
      RollInOrder(order[..|order| - 1], rows, messages)[last := Roll(last, rows, messages)]
  }

  lemma {:induction false} RollInOrderAt(order: seq<Family>, rows: seq<Row>, messages: map<Hash, Message>)
    ensures RollInOrder(order, rows, messages) == map f | f in order :: Roll(f, rows, messages)
  {
    if order != [] {
      var front := order[..|order| - 1];
      RollInOrderAt(front, rows, messages);
      assert order == front + [order[|order| - 1]];
    }
  }

  /** The rebuilds commute: every order that visits all 13 families leaves the same tables. */
  lemma RollIsOrderFree(order: seq<Family>, rows: seq<Row>, messages: map<Hash, Message>)
    requires forall f :: f in order <==> f in ALL_FAMILIES
    ensures RollInOrder(order, rows, messages) == RollAll(rows, messages)
  {
    RollInOrderAt(order, rows, messages);
  }

  // ---- what the talker family says about the messages ----

  lemma {:induction false} CollectAgrees<T, K, A>(rows: seq<T>, f: T -> Option<(K, A)>, g: T -> Option<(K, A)>)
    requires forall i :: 0 <= i < |rows| ==> f(rows[i]) == g(rows[i])
    ensures Collect(rows, f) == Collect(rows, g)
  {
    if rows != [] {
      var front := rows[..|rows| - 1];
      forall i | 0 <= i < |front| ensures f(front[i]) == g(front[i]) { assert front[i] == rows[i]; }
      CollectAgrees(front, f, g);
    }
  }

  ghost function PacketsOf(rows: seq<Row>): set<Hash> {
    set i | 0 <= i < |rows| :: rows[i].packet
  }

  /** Messages of packets no row mentions do not show. */
  lemma TalkersIgnoreOthers(rows: seq<Row>, m: map<Hash, Message>, m': map<Hash, Message>)
    requires forall p :: p in PacketsOf(rows) ==> (p in m <==> p in m') && (p in m ==> m[p] == m'[p])
    ensures Roll(TalkerSets, rows, m) == Roll(TalkerSets, rows, m')
  {
    forall i | 0 <= i < |rows| ensures TalkHearing(m)(rows[i]) == TalkHearing(m')(rows[i]) {
      assert rows[i].packet in PacketsOf(rows);
    }
    CollectAgrees(rows, TalkHearing(m), TalkHearing(m'));
  }

  /** A message without a sender name never shows either. */
  lemma TalkersIgnoreSenderless(rows: seq<Row>, m: map<Hash, Message>, p: Hash, message: Message)
    requires p !in m && message.sender.None?
    ensures Roll(TalkerSets, rows, m) == Roll(TalkerSets, rows, m[p := message])
  {
    CollectAgrees(rows, TalkHearing(m), TalkHearing(m[p := message]));
  }
}
