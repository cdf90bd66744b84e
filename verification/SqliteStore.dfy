/**
 * The SQLite backend: relational tables with signed 64-bit columns and a unique index on message ids.
 * Each method is one transaction; it works on copies of the tables and writes them back on commit.
 */
module Sqlite {
  import opened Domain
  import opened StoreModel
  import opened StoreLaws

  /** A row of `messages`; the primary key (topic, origin_key, head_id) is the slot it is stored under. */
  datatype Row = Row(origin: NodeId, id: string, payload: Payload, headers: map<string, string>, createdAtMs: u64,
      deleted: bool)

  function RowToMessage(slot: Slot, row: Row): StoredMessage {
    StoredMessage(row.id, slot.log.topic, row.origin, slot.head, row.payload, row.headers, row.createdAtMs, row.deleted)
  }

  function MessageToRow(m: StoredMessage): Row {
    Row(m.origin, m.id, m.payload, m.headers, m.createdAtMs, m.deleted)
  }

  /** `u64_to_i64` */
  predicate Fits(n: u64) {
    n <= I64_MAX
  }

  /** The unique index on message ids. */
  predicate IdInUse(s: Store, id: string) {
    exists slot :: slot in s.messages && s.messages[slot].id == id
  }

  /** What the operations do on the store the tables stand for, including what the column types refuse. */
  function SqlAppend(s: Store, message: NewMessage, now: u64): (Store, Outcome<StoredMessage>) {
    var (s', m) := Append(s, message, now);
    if !Fits(m.headId) || !Fits(now) then
      (s, Err(InvalidArgument))
    else if IdInUse(s, message.id) then
      (s, Err(Storage))
    else
      (s', Ok(m))
  }

  function SqlPut(s: Store, incoming: StoredMessage): (Store, Outcome<ReplicateResult>) {
    if incoming.headId == 0 || !Fits(incoming.headId) then
      (s, Err(InvalidArgument))
    else if incoming.Position() in s.messages || incoming.headId > Next(CurrentHead(s, incoming.Log())) then
      PutReplicated(s, incoming)
    else if !Fits(incoming.createdAtMs) then
      (s, Err(InvalidArgument))
    else if IdInUse(s, incoming.id) then
      (s, Err(Storage))
    else
      PutReplicated(s, incoming)
  }

  function SqlTombstone(s: Store, t: Span, now: u64): (Store, Outcome<nat>) {
    if t.from > t.to || !Fits(t.from) || !Fits(t.to) || !Fits(now) then (s, Err(InvalidArgument)) else Tombstone(s, t)
  }

  function SqlTombstoneWithMarker(s: Store, range: TombstoneRange, markerTopic: string, markerOrigin: NodeId,
      id: string, now: u64)
    : (Store, Outcome<(nat, StoredMessage)>)
  {
    var (s1, changed) := SqlTombstone(s, range.Extent(), range.createdAtMs);
    if changed.Err? then
      (s, Err(changed.error))
    else
      var (s2, marker) := SqlAppend(s1, MarkerFor(id, range, markerTopic, markerOrigin), now);
      if marker.Err? then (s, Err(marker.error)) else (s2, Ok((changed.value, marker.value)))
  }

  function SqlStep(s: Store, op: Op): (Store, Reply) {
    match op
    case AppendOp(message, now) =>
      var (s', r) := SqlAppend(s, message, now);
      (s', if r.Ok? then Stored(r.value) else Failed(r.error))
    case PutOp(incoming) =>
      var (s', r) := SqlPut(s, incoming);
      (s', if r.Ok? then Replicated(r.value) else Failed(r.error))
    case TombstoneOp(topic, origin, from, to, now) =>
      var (s', r) := SqlTombstone(s, Span(LogKey(topic, origin.Key()), from, to), now);
      (s', if r.Ok? then Changed(r.value) else Failed(r.error))
    case DeleteOp(range, markerTopic, markerOrigin, id, now) =>
      var (s', r) := SqlTombstoneWithMarker(s, range, markerTopic, markerOrigin, id, now);
      (s', if r.Ok? then Deleted(r.value.0, r.value.1) else Failed(r.error))
    case FetchOp(topic, origin, from, limit) =>
      (s, if Fits(from) then Fetched(Page(s, LogKey(topic, origin.Key()), from, EffectiveLimit(limit)))
        else Failed(InvalidArgument))
    case GetHeadOp(_, _) => Step(s, op)
    case ListHeadsOp => Step(s, op)
  }

  class SqliteStore {
    var heads: map<LogKey, u64>
    var messages: map<Slot, Row>
    var tombstones: map<Span, u64>

    ghost function Model(): Store
      reads this
    {
      ModelOf(heads, messages, tombstones)
    }

    /** Values read back are never negative or too large: everything stored went through `u64_to_i64`. */
    ghost predicate Inv()
      reads this
    {
      Valid(Model()) && forall log :: log in heads ==> Fits(heads[log])
    }

    constructor ()
      ensures Inv() && Model() == EMPTY
    {
      heads, messages, tombstones := map[], map[], map[];
    }

    method FetchMessages(topic: string, origin: NodeId, from: u64, limit: u32) returns (r: Outcome<seq<StoredMessage>>)
      requires Inv()
      ensures r == if Fits(from) then Ok(Page(Model(), LogKey(topic, origin.Key()), from, EffectiveLimit(limit)))
          else Err(InvalidArgument)
    {
      if Fits(from) {
        var out := SelectPage(messages, LogKey(topic, origin.Key()), from, EffectiveLimit(limit), Model());
        r := Ok(out);
      } else {
        r := Err(InvalidArgument);
      }
    }

    method GetHead(topic: string, origin: NodeId) returns (head: u64, found: bool)
      requires Inv()
      ensures head == CurrentHead(Model(), LogKey(topic, origin.Key()))
      ensures found == (LogKey(topic, origin.Key()) in Model().heads)
    {
      var log := LogKey(topic, origin.Key());
      found := log in heads;
      head := if found then heads[log] else 0;
    }

    /** heads JOIN messages on the head's slot */
    method ListHeads() returns (entries: set<TopicHead>)
      requires Inv()
      ensures StoreModel.ListHeads(Model()) == Ok(entries)
    {
      entries := set log | log in heads && Slot(log, heads[log]) in messages ::
        TopicHead(log.topic, messages[Slot(log, heads[log])].origin, heads[log]);
      forall log | log in heads ensures Slot(log, heads[log]) in messages {
        assert Slot(log, heads[log]) in Model().messages;
      }
      assert entries == StoreModel.ListHeads(Model()).value;
    }

    method AppendMessage(message: NewMessage, now: u64) returns (r: Outcome<StoredMessage>)
      requires Inv()
      modifies this
      ensures Inv() && (Model(), r) == SqlAppend(old(Model()), message, now)
    {
      var heads', messages';
      heads', messages', r := AppendInTx(heads, messages, tombstones, message, now);
      if r.Ok? {
        AppendKeepsValid(Model(), message, now);
        heads, messages := heads', messages';
      }
    }

    method PutReplicatedMessage(incoming: StoredMessage) returns (r: Outcome<ReplicateResult>)
      requires Inv()
      modifies this
      ensures Inv() && (Model(), r) == SqlPut(old(Model()), incoming)
    {
      var heads', messages';
      heads', messages', r := PutInTx(heads, messages, tombstones, incoming);
      if r.Ok? {
        PutKeepsValid(Model(), incoming);
        heads, messages := heads', messages';
      }
    }

    method TombstoneRange(topic: string, origin: NodeId, from: u64, to: u64, now: u64) returns (r: Outcome<nat>)
      requires Inv()
      modifies this
      ensures Inv() && (Model(), r) == SqlTombstone(old(Model()), Span(LogKey(topic, origin.Key()), from, to), now)
    {
      if from > to {
        return Err(InvalidArgument);
      }
      var t := Span(LogKey(topic, origin.Key()), from, to);
      var messages', tombstones';
      messages', tombstones', r := TombstoneInTx(heads, messages, tombstones, t, now);
      if r.Ok? {
        EraseKeepsValid(Model(), {t});
        messages, tombstones := messages', tombstones';
      }
    }

    method TombstoneRangeWithMarker(range: Domain.TombstoneRange, markerTopic: string, markerOrigin: NodeId,
        id: string, now: u64)
      returns (r: Outcome<(nat, StoredMessage)>)
      requires Inv()
      modifies this
      ensures Inv() && (Model(), r) == SqlTombstoneWithMarker(old(Model()), range, markerTopic, markerOrigin, id, now)
    {
      if range.from > range.to {
        return Err(InvalidArgument);
      }
      var messages1, tombstones1, changed := TombstoneInTx(heads, messages, tombstones, range.Extent(),
          range.createdAtMs);
      if changed.Err? {
        return Err(changed.error);
      }
      EraseKeepsValid(Model(), {range.Extent()});
      var message := MarkerFor(id, range, markerTopic, markerOrigin);
      AppendKeepsValid(ModelOf(heads, messages1, tombstones1), message, now);
      var heads2, messages2, marker := AppendInTx(heads, messages1, tombstones1, message, now);
      if marker.Err? {
        return Err(marker.error);
      }
      heads, messages, tombstones := heads2, messages2, tombstones1;
      r := Ok((changed.value, marker.value));
    }
  }

  ghost function ModelOf(heads: map<LogKey, u64>, messages: map<Slot, Row>, tombstones: map<Span, u64>): Store {
    Store(heads, map slot | slot in messages :: RowToMessage(slot, messages[slot]), tombstones.Keys)
  }

  lemma IdsOfRows(heads: map<LogKey, u64>, messages: map<Slot, Row>, tombstones: map<Span, u64>, id: string)
    ensures IdInUse(ModelOf(heads, messages, tombstones), id) <==>
            exists slot :: slot in messages && messages[slot].id == id
  {
    if slot :| slot in messages && messages[slot].id == id {
      assert ModelOf(heads, messages, tombstones).messages[slot].id == id;
    }
  }

  /** The rows of a log from head `from` on, in head order, up to the limit. */
  method SelectPage(messages: map<Slot, Row>, log: LogKey, from: u64, limit: nat, ghost s: Store)
    returns (out: seq<StoredMessage>)
    requires s.messages == map slot | slot in messages :: RowToMessage(slot, messages[slot])
    ensures out == Page(s, log, from, limit)
  {
    var matching := set slot | slot in messages && slot.log == log && slot.head >= from :: slot.head;
    assert matching == HeadsFrom(s, log, from);
    var selected := Ascending(matching);
    out := [];
    for i := 0 to Min(limit, |selected|)
      invariant |out| == i && forall j :: 0 <= j < i ==> out[j] == Page(s, log, from, limit)[j]
    {
      assert selected[i] in matching;
      out := out + [RowToMessage(Slot(log, selected[i]), messages[Slot(log, selected[i])])];
    }
  }

  /** Adding a row adds its message. */
  lemma RowInsert(heads: map<LogKey, u64>, messages: map<Slot, Row>, tombstones: map<Span, u64>, m: StoredMessage)
    ensures ModelOf(heads, messages[m.Position() := MessageToRow(m)], tombstones).messages
            == ModelOf(heads, messages, tombstones).messages[m.Position() := m]
  {
  }

  /** Looks for a recorded range of the message's log that covers its head. */
  method ApplyTombstoneMarkers(tombstones: map<Span, u64>, m: StoredMessage, ghost s: Store)
    returns (stamped: StoredMessage)
    requires s.tombstones == tombstones.Keys
    ensures stamped == Stamp(s, m)
  {
    stamped := m;
    if !m.deleted {
      var applies := exists t :: t in tombstones && t.Covers(m.Position());
      if applies {
        stamped := m.(deleted := true);
      }
    }
  }

  /** `append_message_in_tx` on the transaction's view of the tables. */
  method AppendInTx(heads: map<LogKey, u64>, messages: map<Slot, Row>, tombstones: map<Span, u64>,
      message: NewMessage, now: u64)
    returns (heads': map<LogKey, u64>, messages': map<Slot, Row>, r: Outcome<StoredMessage>)
    requires forall log :: log in heads ==> Fits(heads[log])
    ensures forall log :: log in heads' ==> Fits(heads'[log])
    ensures var (s, stored) := SqlAppend(ModelOf(heads, messages, tombstones), message, now);
            r == stored && (r.Ok? ==> ModelOf(heads', messages', tombstones) == s)
  {
    heads', messages' := heads, messages;
    var log := LogKey(message.topic, message.origin.Key());
    var next := Next(if log in heads then heads[log] else 0);
    if !Fits(next) {
      return heads', messages', Err(InvalidArgument);
    }
    heads' := heads[log := next];
    ghost var s := ModelOf(heads, messages, tombstones);
    var stored := ApplyTombstoneMarkers(
      tombstones, StoredMessage(message.id, message.topic, message.origin, next, message.payload, message.headers, now,
          false), s);
    if !Fits(now) {
      return heads', messages', Err(InvalidArgument);
    }
    IdsOfRows(heads, messages, tombstones, message.id);
    if exists other :: other in messages && messages[other].id == message.id {
      return heads', messages', Err(Storage);
    }
    RowInsert(heads, messages, tombstones, stored);
    messages' := messages[stored.Position() := MessageToRow(stored)];
    r := Ok(stored);
  }

  /** `put_replicated_message` on the transaction's view of the tables. */
  method PutInTx(heads: map<LogKey, u64>, messages: map<Slot, Row>, tombstones: map<Span, u64>, incoming: StoredMessage)
    returns (heads': map<LogKey, u64>, messages': map<Slot, Row>, r: Outcome<ReplicateResult>)
    requires Valid(ModelOf(heads, messages, tombstones)) && forall log :: log in heads ==> Fits(heads[log])
    ensures forall log :: log in heads' ==> Fits(heads'[log])
    ensures var (s, result) := SqlPut(ModelOf(heads, messages, tombstones), incoming);
            r == result && (r.Ok? ==> ModelOf(heads', messages', tombstones) == s)
    ensures r.Err? ==> SqlPut(ModelOf(heads, messages, tombstones), incoming).0 == ModelOf(heads, messages, tombstones)
  {
    heads', messages' := heads, messages;
    if incoming.headId == 0 || !Fits(incoming.headId) {
      return heads', messages', Err(InvalidArgument);
    }
    ghost var s := ModelOf(heads, messages, tombstones);
    var m := ApplyTombstoneMarkers(tombstones, incoming, s);
    var slot := m.Position();
    if slot in messages {
      var existing := RowToMessage(slot, messages[slot]);
      if existing == m {
        return heads', messages', Ok(AlreadyPresent);
      }
      if existing.Same(m) && m.deleted {
        RowInsert(heads, messages, tombstones, m);
        assert messages[slot].(deleted := true) == MessageToRow(m);
        assert slot in s.messages;
        messages' := messages[slot := messages[slot].(deleted := true)];
        return heads', messages', Ok(Inserted);
      }
      return heads', messages', Err(Conflict);
    }
    var current := if m.Log() in heads then heads[m.Log()] else 0;
    if m.headId > Next(current) {
      return heads', messages', Err(InvalidArgument);
    }
    if !Fits(m.createdAtMs) {
      return heads', messages', Err(InvalidArgument);
    }
    IdsOfRows(heads, messages, tombstones, m.id);
    if exists other :: other in messages && messages[other].id == m.id {
      return heads', messages', Err(Storage);
    }
    RowInsert(heads, messages, tombstones, m);
    messages' := messages[slot := MessageToRow(m)];
    if current < m.headId {
      heads' := heads[m.Log() := m.headId];
    }
    r := Ok(Inserted);
  }

  /** `tombstone_range_in_tx`: UPDATE the live rows of the range, INSERT OR IGNORE the tombstone. */
  method TombstoneInTx(heads: map<LogKey, u64>, messages: map<Slot, Row>, tombstones: map<Span, u64>, t: Span, now: u64)
    returns (messages': map<Slot, Row>, tombstones': map<Span, u64>, r: Outcome<nat>)
    requires t.from <= t.to
    ensures var (s, changed) := SqlTombstone(ModelOf(heads, messages, tombstones), t, now);
            r == changed && (r.Ok? ==> ModelOf(heads, messages', tombstones') == s)
  {
    messages', tombstones' := messages, tombstones;
    if !Fits(t.from) || !Fits(t.to) {
      return messages', tombstones', Err(InvalidArgument);
    }
    var matching := set slot | slot in messages && t.Covers(slot) && !messages[slot].deleted;
    messages' := map slot | slot in messages ::
      if slot in matching then messages[slot].(deleted := true) else messages[slot];
    if !Fits(now) {
      return messages', tombstones', Err(InvalidArgument);
    }
    tombstones' := if t in tombstones then tombstones else tombstones[t := now];
    r := Ok(|matching|);
    UpdateIsErase(heads, messages, tombstones, t, matching, messages', tombstones');
  }

  lemma UpdateIsErase(heads: map<LogKey, u64>, messages: map<Slot, Row>, tombstones: map<Span, u64>, t: Span,
      matching: set<Slot>,
      messages': map<Slot, Row>, tombstones': map<Span, u64>)
    requires matching == set slot | slot in messages && t.Covers(slot) && !messages[slot].deleted
    requires messages' == map slot | slot in messages ::
        if slot in matching then messages[slot].(deleted := true) else messages[slot]
    requires tombstones'.Keys == tombstones.Keys + {t}
    ensures matching == Live(ModelOf(heads, messages, tombstones), {t})
    ensures ModelOf(heads, messages', tombstones') == Erase(ModelOf(heads, messages, tombstones), {t})
  {
    var s, s' := ModelOf(heads, messages, tombstones), ModelOf(heads, messages', tombstones');
    forall slot ensures CoveredBy({t}, slot) <==> t.Covers(slot) {
      assert t in {t};
    }
    assert matching == Live(s, {t});
    assert s'.messages == Erase(s, {t}).messages;
    assert s'.tombstones == s.tombstones + {t};
  }
}
