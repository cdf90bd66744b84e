/**
 * The contract of `MsgbusStore` as a state machine on values: every operation maps a store to the
 * store its transaction leaves behind and the result it reports. A failed operation leaves the
 * store as it was.
 */
module StoreModel {
  import opened Domain

  datatype Store = Store(heads: map<LogKey, u64>, messages: map<Slot, StoredMessage>, tombstones: set<Span>)

  const EMPTY := Store(map[], map[], {})

  function CurrentHead(s: Store, log: LogKey): u64 {
    if log in s.heads then s.heads[log] else 0
  }

  predicate CoveredBy(spans: set<Span>, slot: Slot) {
    exists t :: t in spans && t.Covers(slot)
  }

  /** A message as the store would keep it: deleted if a stored tombstone covers it. */
  function Stamp(s: Store, m: StoredMessage): StoredMessage {
    m.(deleted := m.deleted || CoveredBy(s.tombstones, m.Position()))
  }

  function Install(s: Store, m: StoredMessage): Store {
    s.(messages := s.messages[m.Position() := m],
       heads := if CurrentHead(s, m.Log()) < m.headId then s.heads[m.Log() := m.headId] else s.heads)
  }

  function Fresh(s: Store, message: NewMessage, now: u64): StoredMessage {
    var head := Next(CurrentHead(s, LogKey(message.topic, message.origin.Key())));
    Stamp(s,
        StoredMessage(message.id, message.topic, message.origin, head, message.payload, message.headers, now, false))
  }

  function Append(s: Store, message: NewMessage, now: u64): (Store, StoredMessage) {
    var stored := Fresh(s, message, now);
    (s.(heads := s.heads[stored.Log() := stored.headId], messages := s.messages[stored.Position() := stored]), stored)
  }

  function PutReplicated(s: Store, incoming: StoredMessage): (Store, Outcome<ReplicateResult>) {
    if incoming.headId == 0 then
      (s, Err(InvalidArgument))
    else
      var m := Stamp(s, incoming);
      if m.Position() in s.messages then
        var existing := s.messages[m.Position()];
        if existing == m then
          (s, Ok(AlreadyPresent))
        else if existing.Same(m) && m.deleted then
          (Install(s, m), Ok(Inserted))
        else
          (s, Err(Conflict))
      else if m.headId > Next(CurrentHead(s, m.Log())) then
        (s, Err(InvalidArgument))
      else
        (Install(s, m), Ok(Inserted))
  }

  /** The store after every message in the given ranges is marked deleted and the ranges recorded. */
  function Erase(s: Store, spans: set<Span>): Store {
    s.(tombstones := s.tombstones + spans,
       messages := map slot | slot in s.messages ::
         if CoveredBy(spans, slot) then s.messages[slot].(deleted := true) else s.messages[slot])
  }

  /** The stored messages in the given ranges that are not deleted yet. */
  function Live(s: Store, spans: set<Span>): set<Slot> {
    set slot | slot in s.messages && CoveredBy(spans, slot) && !s.messages[slot].deleted
  }

  function Tombstone(s: Store, span: Span): (Store, Outcome<nat>) {
    if span.from > span.to then
      (s, Err(InvalidArgument))
    else
      (Erase(s, {span}), Ok(|Live(s, {span})|))
  }

  function MarkerFor(id: string, range: TombstoneRange, topic: string, origin: NodeId): NewMessage {
    NewMessage(id, topic, origin, Encoded(range), map[])
  }

  /** Deletes a range and appends its marker in one transaction; `range.createdAtMs` is the clock reading. */
  function TombstoneWithMarker(s: Store, range: TombstoneRange, markerTopic: string, markerOrigin: NodeId, id: string,
      now: u64)
    : (Store, Outcome<(nat, StoredMessage)>)
  {
    if range.from > range.to then
      (s, Err(InvalidArgument))
    else
      var (s', marker) := Append(Erase(s, {range.Extent()}), MarkerFor(id, range, markerTopic, markerOrigin), now);
      (s', Ok((|Live(s, {range.Extent()})|, marker)))
  }

  /**
   * What holds of every reachable store: each log holds exactly the heads 1 to its head, every
   * message sits in its own slot, and every message a stored tombstone covers is deleted.
   */
  ghost predicate Valid(s: Store) {
    && (forall log :: log in s.heads ==> 1 <= s.heads[log])
    && (forall slot {:trigger slot in s.messages} ::
      slot in s.messages <==> slot.log in s.heads && 1 <= slot.head <= s.heads[slot.log])
    && (forall slot {:trigger s.messages[slot]} :: slot in s.messages ==> s.messages[slot].Position() == slot)
    && (forall slot {:trigger CoveredBy(s.tombstones, slot)} ::
      slot in s.messages && CoveredBy(s.tombstones, slot) ==> s.messages[slot].deleted)
  }

  predicate IsLeast(heads: set<nat>, least: nat) {
    least in heads && forall h :: h in heads ==> least <= h
  }

  lemma {:induction false} LeastExists(heads: set<nat>)
    requires heads != {}
    ensures exists least :: IsLeast(heads, least)
    decreases heads
  {
    var x :| x in heads;
    var rest := heads - {x};
    if rest == {} {
      assert heads == {x};
      assert IsLeast(heads, x);
    } else {
      LeastExists(rest);
      var y :| IsLeast(rest, y);
      assert forall h :: h in heads ==> h == x || h in rest;
      assert IsLeast(heads, Min(x, y));
    }
  }

  /** The elements of a set of head ids in ascending order. */
  function Ascending(heads: set<nat>): (r: seq<nat>)
    ensures forall h :: h in r <==> h in heads
    ensures forall i, j :: 0 <= i < j < |r| ==> r[i] < r[j]
  {
    if heads == {} then
      []
    else
      LeastExists(heads);
      var least :| IsLeast(heads, least);
      [least] + Ascending(heads - {least})
  }

  function HeadsFrom(s: Store, log: LogKey, from: u64): set<nat> {
    set slot | slot in s.messages && slot.log == log && from <= slot.head :: slot.head
  }

  /** Up to `limit` messages of a log, from head `from` on, in head order. */
  function Page(s: Store, log: LogKey, from: u64, limit: nat): seq<StoredMessage> {
    var heads := Ascending(HeadsFrom(s, log, from));
    seq(Min(limit, |heads|), i requires 0 <= i < Min(limit, |heads|) =>
      assert heads[i] in HeadsFrom(s, log, from); s.messages[Slot(log, heads[i])])
  }

  /** Each head with the topic and origin of the message it points to; fails if a head points nowhere. */
  function ListHeads(s: Store): Outcome<set<TopicHead>> {
    if forall log :: log in s.heads ==> Slot(log, s.heads[log]) in s.messages then
      Ok(set log | log in s.heads :: HeadEntry(s, log))
    else
      Err(Storage)
  }

  function HeadEntry(s: Store, log: LogKey): TopicHead
    requires log in s.heads && Slot(log, s.heads[log]) in s.messages
  {
    var m := s.messages[Slot(log, s.heads[log])];
    TopicHead(m.topic, m.origin, s.heads[log])
  }

  /** The ranges named by the delete markers a store holds. */
  function Markers(s: Store): set<Span> {
    set slot | slot in s.messages && s.messages[slot].IsMarker() :: s.messages[slot].payload.range.Extent()
  }

  /** `apply_control_message`: a delete marker deletes the range it names; anything else is ignored. */
  function ApplyControl(s: Store, m: StoredMessage): (Store, Outcome<()>) {
    if m.topic != DELETE_TOPIC || m.deleted then
      (s, Ok(()))
    else if !m.payload.Encoded? then
      (s, Err(InvalidArgument))
    else if m.origin != m.payload.range.origin then
      (s, Err(PermissionDenied))
    else
      var (s', changed) := Tombstone(s, m.payload.range.Extent());
      (s', if changed.Ok? then Ok(()) else Err(changed.error))
  }

  // ---- Operation sequences ----

  datatype Op =
    | AppendOp(message: NewMessage, now: u64)
    | PutOp(incoming: StoredMessage)
    | TombstoneOp(topic: string, origin: NodeId, from: u64, to: u64, now: u64)
    | DeleteOp(range: TombstoneRange, markerTopic: string, markerOrigin: NodeId, id: string, now: u64)
    | FetchOp(topic: string, origin: NodeId, from: u64, limit: u32)
    | GetHeadOp(topic: string, origin: NodeId)
    | ListHeadsOp

  datatype Reply =
    | Failed(error: MsgbusError)
    | Stored(message: StoredMessage)
    | Replicated(result: ReplicateResult)
    | Changed(count: nat)
    | Deleted(count: nat, marker: StoredMessage)
    | Fetched(messages: seq<StoredMessage>)
    | HeadIs(head: u64, found: bool)
    | Heads(entries: set<TopicHead>)

  function Step(s: Store, op: Op): (Store, Reply)
  {
    match op
    case AppendOp(message, now) =>
      var (s', m) := Append(s, message, now);
      (s', Stored(m))
    case PutOp(incoming) =>
      var (s', r) := PutReplicated(s, incoming);
      (s', if r.Ok? then Replicated(r.value) else Failed(r.error))
    case TombstoneOp(topic, origin, from, to, _) =>
      var (s', r) := Tombstone(s, Span(LogKey(topic, origin.Key()), from, to));
      (s', if r.Ok? then Changed(r.value) else Failed(r.error))
    case DeleteOp(range, markerTopic, markerOrigin, id, now) =>
      var (s', r) := TombstoneWithMarker(s, range, markerTopic, markerOrigin, id, now);
      (s', if r.Ok? then Deleted(r.value.0, r.value.1) else Failed(r.error))
    case FetchOp(topic, origin, from, limit) =>
      (s, Fetched(Page(s, LogKey(topic, origin.Key()), from, EffectiveLimit(limit))))
    case GetHeadOp(topic, origin) =>
      var log := LogKey(topic, origin.Key());
      (s, HeadIs(CurrentHead(s, log), log in s.heads))
    case ListHeadsOp =>
      var r := ListHeads(s);
      (s, if r.Ok? then Heads(r.value) else Failed(r.error))
  }

  function Run(s: Store, ops: seq<Op>): (r: (Store, seq<Reply>))
    ensures |r.1| == |ops|
    decreases |ops|
  {
    if ops == [] then
      (s, [])
    else
      var (s1, reply) := Step(s, ops[0]);
      var (s2, replies) := Run(s1, ops[1..]);
      (s2, [reply] + replies)
  }
}
