/**
 * The redb backend: flat tables of string keys, read by ordered scans that stop at the first key
 * without the wanted prefix. Every operation is proved to be the abstract store's.
 */
module Redb {
  import opened Domain
  import opened StoreModel
  import opened StoreLaws
  import opened Lexicographic
  import opened TableKeys
  import opened KeyedTable

  lemma KeysAreInjective()
    ensures Injective(HeadKey) && Injective(MessageKey) && Injective(TombstoneKey)
  {
    forall a, b | HeadKey(a) == HeadKey(b) ensures a == b {
      HeadKeyInjective(a, b);
    }
    forall a, b | MessageKey(a) == MessageKey(b) ensures a == b {
      MessageKeyInjective(a, b);
    }
    forall a, b | TombstoneKey(a) == TombstoneKey(b) ensures a == b {
      TombstoneKeyInjective(a, b);
    }
  }

  lemma HeadEntryOf(table: map<string, u64>, heads: map<LogKey, u64>, log: LogKey, h: u64)
    requires Rep(table, heads, HeadKey)
    ensures HeadKey(log) in table <==> log in heads
    ensures log in heads ==> table[HeadKey(log)] == heads[log]
    ensures Rep(table[HeadKey(log) := h], heads[log := h], HeadKey)
  {
    KeysAreInjective();
    Lookup(table, heads, HeadKey, log);
    Insert(table, heads, HeadKey, log, h);
  }

  lemma MessageEntryOf(table: map<string, StoredMessage>, messages: map<Slot, StoredMessage>, slot: Slot,
      m: StoredMessage)
    requires Rep(table, messages, MessageKey)
    ensures MessageKey(slot) in table <==> slot in messages
    ensures slot in messages ==> table[MessageKey(slot)] == messages[slot]
    ensures Rep(table[MessageKey(slot) := m], messages[slot := m], MessageKey)
  {
    KeysAreInjective();
    Lookup(table, messages, MessageKey, slot);
    Insert(table, messages, MessageKey, slot, m);
  }

  lemma TombstoneEntryOf(table: map<string, TombstoneRange>, ranges: map<Span, TombstoneRange>, range: TombstoneRange)
    requires Rep(table, ranges, TombstoneKey)
    ensures Rep(table[TombstoneKey(range.Extent()) := range], ranges[range.Extent() := range], TombstoneKey)
  {
    KeysAreInjective();
    Insert(table, ranges, TombstoneKey, range.Extent(), range);
  }

  // ---- Scans ----

  /** How many messages of a log a store holds from head `from` on. */
  function Stored(s: Store, log: LogKey, from: u64): nat {
    if Max(from, 1) <= CurrentHead(s, log) then CurrentHead(s, log) - Max(from, 1) + 1 else 0
  }

  /** The stored slots of a log from head `from` on, in head order. */
  ghost function SlotsFrom(s: Store, log: LogKey, from: u64): (slots: seq<Slot>)
    ensures |slots| == Stored(s, log, from)
    ensures forall i :: 0 <= i < |slots| ==> slots[i].log == log && slots[i].head == Max(from, 1) + i
  {
    seq(Stored(s, log, from), i requires 0 <= i < Stored(s, log, from) => Slot(log, Max(from, 1) + i))
  }

  lemma SlotsInOrder(log: LogKey, slots: seq<Slot>)
    requires forall i :: 0 <= i < |slots| ==> slots[i].log == log
    requires forall i, j :: 0 <= i < j < |slots| ==> slots[i].head < slots[j].head
    ensures InOrder(slots, MessageKey)
  {
    forall i: nat, j: nat | i < j < |slots| ensures OrderedAt(slots, MessageKey, i, j) {
      assert slots[i] == Slot(log, slots[i].head) && slots[j] == Slot(log, slots[j].head);
      MessageKeyOrder(log, slots[i].head, slots[j].head);
      MessageKeyOrder(log, slots[j].head, slots[i].head);
    }
  }

  lemma InMessageBlock(log: LogKey, from: u64, slot: Slot)
    ensures InBlock(MessageKey, MessageKey(Slot(log, from)), MessagePrefix(log), slot) <==>
            slot.log == log && from <= slot.head
  {
    MessagePrefixTest(log, slot);
    if slot.log == log {
      assert slot == Slot(log, slot.head);
      MessageKeyOrder(log, from, slot.head);
    }
  }

  lemma MessageBlock(s: Store, log: LogKey, from: u64)
    requires Valid(s)
    ensures IsBlock(s.messages, MessageKey, MessageKey(Slot(log, from)), MessagePrefix(log), SlotsFrom(s, log, from))
  {
    var slots := SlotsFrom(s, log, from);
    forall i | 0 <= i < |slots|
      ensures slots[i] in s.messages && InBlock(MessageKey, MessageKey(Slot(log, from)), MessagePrefix(log), slots[i])
    {
      InMessageBlock(log, from, slots[i]);
    }
    forall slot | slot in s.messages && InBlock(MessageKey, MessageKey(Slot(log, from)), MessagePrefix(log), slot)
      ensures slot in slots
    {
      InMessageBlock(log, from, slot);
      assert slots[slot.head - Max(from, 1)] == slot;
    }
  }

  /**
   * Scanning the message table from a log's key at head `from` meets first exactly the stored messages
   * of that log from `from` on, in head order, and then a key without the log's prefix, if any.
   */
  lemma MessageScan(table: map<string, StoredMessage>, s: Store, log: LogKey, from: u64, scan: seq<string>)
    requires Valid(s) && Rep(table, s.messages, MessageKey) && Scans(table.Keys, MessageKey(Slot(log, from)), scan)
    ensures LeadsWith(scan, MessageKey, MessagePrefix(log), SlotsFrom(s, log, from))
  {
    MessageBlock(s, log, from);
    SlotsInOrder(log, SlotsFrom(s, log, from));
    ScanLeadsWith(table, s.messages, MessageKey, MessageKey(Slot(log, from)), MessagePrefix(log), scan,
        SlotsFrom(s, log, from));
  }

  /** The scan shows the messages `expected`, and then, if it goes on, a key without the prefix. */
  ghost predicate Shows(table: map<string, StoredMessage>, scan: seq<string>, prefix: string,
      expected: seq<StoredMessage>) {
    && |expected| <= |scan|
    && (forall i :: 0 <= i < |expected| ==> prefix <= scan[i] && scan[i] in table && table[scan[i]] == expected[i])
    && (|expected| < |scan| ==> !(prefix <= scan[|expected|]))
  }

  /** The messages of a log from head `from` on, which are what `fetch_messages` pages through. */
  ghost predicate IsLogFrom(s: Store, log: LogKey, from: u64, expected: seq<StoredMessage>) {
    && |expected| == Stored(s, log, from)
    && (forall i :: 0 <= i < |expected| ==>
          Slot(log, Max(from, 1) + i) in s.messages && expected[i] == s.messages[Slot(log, Max(from, 1) + i)])
  }

  lemma LogFrom(table: map<string, StoredMessage>, s: Store, log: LogKey, from: u64, scan: seq<string>)
    returns (expected: seq<StoredMessage>)
    requires Valid(s) && Rep(table, s.messages, MessageKey) && Scans(table.Keys, MessageKey(Slot(log, from)), scan)
    ensures Shows(table, scan, MessagePrefix(log), expected) && IsLogFrom(s, log, from, expected)
    ensures forall i :: 0 <= i < |expected| ==>
              expected[i].headId == Max(from, 1) + i && scan[i] == MessageKey(Slot(log, expected[i].headId))
  {
    MessageScan(table, s, log, from, scan);
    var slots := SlotsFrom(s, log, from);
    forall i | 0 <= i < |slots|
      ensures slots[i] in s.messages && slots[i] == Slot(log, Max(from, 1) + i)
      ensures s.messages[slots[i]].headId == slots[i].head
      ensures scan[i] in table && table[scan[i]] == s.messages[slots[i]]
    {
      assert Holds(table, MessageKey, slots[i], s.messages[slots[i]]);
      assert s.messages[slots[i]].Position() == slots[i];
    }
    expected := seq(|slots|, i requires 0 <= i < |slots| => s.messages[slots[i]]);
  }

  lemma PageOfLog(s: Store, log: LogKey, from: u64, limit: nat, expected: seq<StoredMessage>)
    requires Valid(s) && IsLogFrom(s, log, from, expected)
    ensures Page(s, log, from, limit) == expected[..Min(limit, |expected|)]
  {
    PageIsConsecutive(s, log, from, limit);
  }

  // ---- Marking a range deleted, one message at a time ----

  /** A map after a run of writes. */
  ghost function Written(content: map<Slot, StoredMessage>, slots: seq<Slot>,
      values: seq<StoredMessage>): map<Slot, StoredMessage>
    requires |slots| == |values|
    decreases |slots|
  {
    if slots == [] then content
    else Written(content, slots[..|slots| - 1], values[..|slots| - 1])[slots[|slots| - 1] := values[|slots| - 1]]
  }

  lemma {:induction false} WrittenContents(content: map<Slot, StoredMessage>, slots: seq<Slot>,
      values: seq<StoredMessage>)
    requires |slots| == |values|
    requires forall i :: 0 <= i < |slots| ==> slots[i] in content && values[i] == content[slots[i]].(deleted := true)
    ensures Written(content, slots, values).Keys == content.Keys
    ensures forall slot :: slot in content ==>
              Written(content, slots, values)[slot] == if slot in slots then content[slot].(deleted := true)
                else content[slot]
    decreases |slots|
  {
    if slots != [] {
      var n := |slots| - 1;
      WrittenContents(content, slots[..n], values[..n]);
      assert slots == slots[..n] + [slots[n]];
    }
  }

  /** The positions of a log's shown messages that a range delete has to update. */
  ghost predicate Picked(expected: seq<StoredMessage>, to: u64, n: nat, picked: seq<nat>) {
    && n <= |expected|
    && (forall i, j :: 0 <= i < j < |picked| ==> picked[i] < picked[j])
    && (forall i :: 0 <= i < |picked| ==> picked[i] < n && !expected[picked[i]].deleted)
    && (forall i :: 0 <= i < n && !expected[i].deleted ==> i in picked)
    && (forall i :: 0 <= i < n ==> expected[i].headId <= to)
  }

  ghost function SlotsOf(log: LogKey, expected: seq<StoredMessage>, picked: seq<nat>): (slots: seq<Slot>)
    requires forall i :: 0 <= i < |picked| ==> picked[i] < |expected|
    ensures |slots| == |picked| && forall i :: 0 <= i < |picked| ==> slots[i] == Slot(log, expected[picked[i]].headId)
  {
    seq(|picked|, i requires 0 <= i < |picked| => Slot(log, expected[picked[i]].headId))
  }

  /** The picked positions are exactly the live messages of the range. */
  lemma PickedIsLive(s: Store, t: Span, expected: seq<StoredMessage>, n: nat, picked: seq<nat>)
    requires Valid(s) && IsLogFrom(s, t.log, t.from, expected) && Picked(expected, t.to, n, picked)
    requires n == |expected| || t.to < expected[n].headId
    requires forall i :: 0 <= i < |expected| ==> expected[i].headId == Max(t.from, 1) + i
    ensures forall slot :: slot in SlotsOf(t.log, expected, picked) <==> slot in Live(s, {t})
  {
    var slots := SlotsOf(t.log, expected, picked);
    forall slot | slot in slots ensures slot in Live(s, {t}) {
      var i :| 0 <= i < |slots| && slots[i] == slot;
      assert t in {t} && t.Covers(slot);
    }
    forall slot | slot in Live(s, {t}) ensures slot in slots {
      assert t.Covers(slot);
      var i := slot.head - Max(t.from, 1);
      assert expected[i] == s.messages[slot];
      assert i < n;
      var j :| 0 <= j < |picked| && picked[j] == i;
      assert slots[j] == slot;
    }
  }

  lemma MarkedIsErased(s: Store, t: Span, slots: seq<Slot>, values: seq<StoredMessage>)
    requires |slots| == |values| && forall slot :: slot in slots <==> slot in Live(s, {t})
    requires forall i, j :: 0 <= i < j < |slots| ==> slots[i] != slots[j]
    requires forall i ::
        0 <= i < |slots| ==> slots[i] in s.messages && values[i] == s.messages[slots[i]].(deleted := true)
    ensures Written(s.messages, slots, values) == Erase(s, {t}).messages
    ensures |slots| == |Live(s, {t})|
  {
    WrittenContents(s.messages, slots, values);
    DistinctCount(slots, Live(s, {t}));
  }

  // ---- The store ----

  class RedbStore {
    var heads: map<string, u64>
    var messages: map<string, StoredMessage>
    var tombstones: map<string, Domain.TombstoneRange>

    /** The store the tables stand for, with the last range written under each tombstone key. */
    ghost var model: Store
    ghost var ranges: map<Span, Domain.TombstoneRange>

    ghost predicate Inv()
      reads this
    {
      && Valid(model)
      && Rep(heads, model.heads, HeadKey)
      && Rep(messages, model.messages, MessageKey)
      && TombstonesInv()
    }

    ghost predicate TombstonesInv()
      reads this
    {
      && Rep(tombstones, ranges, TombstoneKey)
      && ranges.Keys == model.tombstones
      && (forall t :: t in ranges ==> ranges[t].Extent() == t)
    }

    constructor ()
      ensures Inv() && model == EMPTY
    {
      heads, messages, tombstones := map[], map[], map[];
      model, ranges := EMPTY, map[];
    }

    method GetHead(topic: string, origin: NodeId) returns (head: u64, found: bool)
      requires Inv()
      ensures head == CurrentHead(model, LogKey(topic, origin.Key()))
      ensures found == (LogKey(topic, origin.Key()) in model.heads)
    {
      var log := LogKey(topic, origin.Key());
      HeadEntryOf(heads, model.heads, log, 0);
      found := HeadKey(log) in heads;
      head := if found then heads[HeadKey(log)] else 0;
    }

    method FetchMessages(topic: string, origin: NodeId, from: u64, limit: u32) returns (out: seq<StoredMessage>)
      requires Inv()
      ensures out == Page(model, LogKey(topic, origin.Key()), from, EffectiveLimit(limit))
    {
      var log := LogKey(topic, origin.Key());
      var scan := Range(messages.Keys, MessageKey(Slot(log, from)));
      ghost var expected := LogFrom(messages, model, log, from, scan);
      out := Collect(messages, scan, MessagePrefix(log), EffectiveLimit(limit), expected);
      PageOfLog(model, log, from, EffectiveLimit(limit), expected);
    }

    method ListHeads() returns (r: Outcome<seq<TopicHead>>)
      requires Inv()
      ensures r.Ok? && (set e | e in r.value) == StoreModel.ListHeads(model).value && |r.value| == |model.heads|
    {
      var scan := Range(heads.Keys, "");
      ghost var logs := LogsInOrder(model, heads, messages, scan);
      r := ResolveHeads(heads, messages, scan, logs);
      HeadsListed(model, logs, r.value);
    }

    /** `apply_tombstone_markers`: the message as the store would keep it. */
    method ApplyTombstoneMarkers(m: StoredMessage) returns (stamped: StoredMessage)
      requires TombstonesInv()
      ensures stamped == Stamp(model, m)
    {
      stamped := m;
      if !m.deleted {
        var prefix := TombstonePrefix(m.Log());
        var scan := Range(tombstones.Keys, prefix);
        ghost var entries := TombstonesOfLog(tombstones, ranges, m.Log(), scan);
        var covered := SomeCovers(tombstones, scan, prefix, m.headId, entries);
        stamped := m.(deleted := covered);
        CoveredByEntries(model.tombstones, m.Position(), entries);
      }
    }

    method AppendMessage(message: NewMessage, now: u64) returns (stored: StoredMessage)
      requires Inv()
      modifies this
      ensures Inv() && (model, stored) == Append(old(model), message, now)
    {
      var log := LogKey(message.topic, message.origin.Key());
      HeadEntryOf(heads, model.heads, log, Next(CurrentHead(model, log)));
      var next := Next(if HeadKey(log) in heads then heads[HeadKey(log)] else 0);
      heads := heads[HeadKey(log) := next];
      stored := ApplyTombstoneMarkers(
        StoredMessage(message.id, message.topic, message.origin, next, message.payload, message.headers, now, false));
      MessageEntryOf(messages, model.messages, stored.Position(), stored);
      messages := messages[MessageKey(stored.Position()) := stored];
      AppendKeepsValid(model, message, now);
      model := Append(model, message, now).0;
    }

    method PutReplicatedMessage(incoming: StoredMessage) returns (r: Outcome<ReplicateResult>)
      requires Inv()
      modifies this
      ensures Inv() && (model, r) == PutReplicated(old(model), incoming)
    {
      if incoming.headId == 0 {
        return Err(InvalidArgument);
      }
      var m := ApplyTombstoneMarkers(incoming);
      var key, headKey := MessageKey(m.Position()), HeadKey(m.Log());
      HeadEntryOf(heads, model.heads, m.Log(), m.headId);
      MessageEntryOf(messages, model.messages, m.Position(), m);
      var current := if headKey in heads then heads[headKey] else 0;
      if key in messages {
        if messages[key] == m {
          return Ok(AlreadyPresent);
        }
        if !(messages[key].Same(m) && m.deleted) {
          return Err(Conflict);
        }
      } else if m.headId > Next(current) {
        return Err(InvalidArgument);
      }
      r := Ok(Inserted);
      PutKeepsValid(model, incoming);
      messages := messages[key := m];
      if current < m.headId {
        heads := heads[headKey := m.headId];
      }
      model := Install(model, m);
    }

    method TombstoneRangeInTxn(range: Domain.TombstoneRange) returns (changed: nat)
      requires Inv() && range.from <= range.to
      modifies this
      ensures Inv() && model == Erase(old(model), {range.Extent()}) && changed == |Live(old(model), {range.Extent()})|
    {
      var t := range.Extent();
      messages, changed := MarkRange(messages, t, model);
      TombstoneEntryOf(tombstones, ranges, range);
      tombstones := tombstones[TombstoneKey(t) := range];
      ranges := ranges[t := range];
      EraseKeepsValid(model, {t});
      model := Erase(model, {t});
    }

    method TombstoneRange(topic: string, origin: NodeId, from: u64, to: u64, now: u64) returns (r: Outcome<nat>)
      requires Inv()
      modifies this
      ensures Inv() && (model, r) == Tombstone(old(model), Span(LogKey(topic, origin.Key()), from, to))
    {
      if from > to {
        return Err(InvalidArgument);
      }
      var changed := TombstoneRangeInTxn(Domain.TombstoneRange(topic, origin, from, to, now));
      r := Ok(changed);
    }

    method TombstoneRangeWithMarker(range: Domain.TombstoneRange, markerTopic: string, markerOrigin: NodeId,
        id: string, now: u64)
      returns (r: Outcome<(nat, StoredMessage)>)
      requires Inv()
      modifies this
      ensures Inv() && (model, r) == TombstoneWithMarker(old(model), range, markerTopic, markerOrigin, id, now)
    {
      if range.from > range.to {
        return Err(InvalidArgument);
      }
      var changed := TombstoneRangeInTxn(range);
      var marker := AppendMessage(MarkerFor(id, range, markerTopic, markerOrigin), now);
      r := Ok((changed, marker));
    }
  }

  /** The loop of `fetch_messages`: values in key order up to the first key without the prefix or the limit. */
  method Collect(table: map<string, StoredMessage>, scan: seq<string>, prefix: string, limit: nat,
      ghost expected: seq<StoredMessage>)
    returns (out: seq<StoredMessage>)
    requires limit >= 1 && Shows(table, scan, prefix, expected)
    ensures out == expected[..Min(limit, |expected|)]
  {
    out := [];
    var i := 0;
    while i < |scan|
      invariant i == |out| <= |expected| && i < limit
      invariant out == expected[..i]
    {
      var key := scan[i];
      if !(prefix <= key) {
        break;
      }
      out := out + [table[key]];
      i := i + 1;
      if |out| >= limit {
        break;
      }
    }
  }

  /** The scan loop of `tombstone_range_in_txn`: the updates that mark the range's live messages deleted. */
  method FindLive(table: map<string, StoredMessage>, scan: seq<string>, prefix: string, to: u64,
      ghost expected: seq<StoredMessage>)
    returns (updates: seq<(string, StoredMessage)>, ghost picked: seq<nat>, ghost n: nat)
    requires Shows(table, scan, prefix, expected)
    ensures Picked(expected, to, n, picked) && (n == |expected| || to < expected[n].headId)
    ensures |updates| == |picked|
    ensures forall i :: 0 <= i < |picked| ==> updates[i] == (scan[picked[i]], expected[picked[i]].(deleted := true))
  {
    updates, picked := [], [];
    var i := 0;
    while i < |scan|
      invariant 0 <= i <= |expected| && Picked(expected, to, i, picked)
      invariant |updates| == |picked|
      invariant forall j :: 0 <= j < |picked| ==> updates[j] == (scan[picked[j]], expected[picked[j]].(deleted := true))
    {
      var key := scan[i];
      if !(prefix <= key) {
        break;
      }
      var m := table[key];
      if m.headId > to {
        break;
      }
      if !m.deleted {
        updates := updates + [(key, m.(deleted := true))];
        picked := picked + [i];
      }
      i := i + 1;
    }
    n := i;
  }

  /** Scans a range for messages that are not deleted yet, then marks them. */
  method MarkRange(table: map<string, StoredMessage>, t: Span, ghost s: Store)
    returns (marked: map<string, StoredMessage>, changed: nat)
    requires Valid(s) && Rep(table, s.messages, MessageKey)
    ensures Rep(marked, Erase(s, {t}).messages, MessageKey) && changed == |Live(s, {t})|
  {
    var scan := Range(table.Keys, MessageKey(Slot(t.log, t.from)));
    ghost var expected := LogFrom(table, s, t.log, t.from, scan);
    var updates, picked, n := FindLive(table, scan, MessagePrefix(t.log), t.to, expected);
    ghost var slots, values := UpdatesAreLive(s, t, scan, expected, n, picked, updates);
    marked, changed := ApplyUpdates(table, updates, s.messages, slots, values);
  }

  lemma UpdatesAreLive(s: Store, t: Span, scan: seq<string>, expected: seq<StoredMessage>, n: nat, picked: seq<nat>,
      updates: seq<(string, StoredMessage)>)
    returns (slots: seq<Slot>, values: seq<StoredMessage>)
    requires Valid(s) && IsLogFrom(s, t.log, t.from, expected) && Picked(expected, t.to, n, picked)
    requires n == |expected| || t.to < expected[n].headId
    requires |expected| <= |scan| && |updates| == |picked|
    requires forall i :: 0 <= i < |picked| ==> updates[i] == (scan[picked[i]], expected[picked[i]].(deleted := true))
    requires forall i :: 0 <= i < |expected| ==>
               expected[i].headId == Max(t.from, 1) + i && scan[i] == MessageKey(Slot(t.log, expected[i].headId))
    ensures |slots| == |values| == |updates| <= U64_MAX
    ensures forall i :: 0 <= i < |updates| ==> updates[i] == (MessageKey(slots[i]), values[i])
    ensures Written(s.messages, slots, values) == Erase(s, {t}).messages && |slots| == |Live(s, {t})|
  {
    slots := SlotsOf(t.log, expected, picked);
    values := seq(|picked|, i requires 0 <= i < |picked| => expected[picked[i]].(deleted := true));
    PickedIsLive(s, t, expected, n, picked);
    if picked != [] {
      AscendingBound(picked, |picked| - 1);
    }
    MarkedIsErased(s, t, slots, values);
  }

  lemma {:induction false} AscendingBound(picked: seq<nat>, i: nat)
    requires i < |picked| && forall j, k :: 0 <= j < k < |picked| ==> picked[j] < picked[k]
    ensures i <= picked[i]
  {
    if i > 0 {
      AscendingBound(picked, i - 1);
    }
  }

  /** The update loop of `tombstone_range_in_txn`, counting the messages it marks. */
  method ApplyUpdates(before: map<string, StoredMessage>, updates: seq<(string, StoredMessage)>,
      ghost content: map<Slot, StoredMessage>, ghost slots: seq<Slot>, ghost values: seq<StoredMessage>)
    returns (table: map<string, StoredMessage>, changed: u64)
    requires Rep(before, content, MessageKey) && |slots| == |values| == |updates| <= U64_MAX
    requires forall i :: 0 <= i < |updates| ==> updates[i] == (MessageKey(slots[i]), values[i])
    ensures Rep(table, Written(content, slots, values), MessageKey) && changed == |updates|
  {
    table, changed := before, 0;
    var i := 0;
    while i < |updates|
      invariant 0 <= i <= |updates| && changed == i
      invariant Rep(table, Written(content, slots[..i], values[..i]), MessageKey)
    {
      MessageEntryOf(table, Written(content, slots[..i], values[..i]), slots[i], values[i]);
      assert slots[..i + 1][..i] == slots[..i] && values[..i + 1][..i] == values[..i];
      table := table[updates[i].0 := updates[i].1];
      changed := Next(changed);
      i := i + 1;
    }
    assert slots[..|slots|] == slots && values[..|slots|] == values;
  }

  /** The loop of `list_heads`: each head key leads to the message at that head. */
  method ResolveHeads(heads: map<string, u64>, messages: map<string, StoredMessage>, scan: seq<string>,
      ghost logs: seq<LogKey>)
    returns (r: Outcome<seq<TopicHead>>)
    requires |logs| == |scan| && forall i :: 0 <= i < |scan| ==> Resolves(heads, messages, scan[i], logs[i])
    ensures r.Ok? && |r.value| == |scan|
    ensures forall i :: 0 <= i < |scan| ==>
              && Resolves(heads, messages, scan[i], logs[i])
              && r.value[i] == Resolved(heads, messages, scan[i], logs[i])
  {
    var out := [];
    var i := 0;
    while i < |scan|
      invariant 0 <= i <= |scan| && |out| == i
      invariant forall j :: 0 <= j < i ==>
                  Resolves(heads, messages, scan[j], logs[j]) && out[j] == Resolved(heads, messages, scan[j], logs[j])
    {
      var key := scan[i];
      assert Resolves(heads, messages, key, logs[i]);
      HeadKeySplits(logs[i], heads[key]);
      var parts := HeadKeyParts(key);
      if parts.Err? {
        return Err(Storage);
      }
      var messageKey := RawMessageKey(parts.value.0, parts.value.1, heads[key]);
      if messageKey !in messages {
        return Err(Storage);
      }
      var m := messages[messageKey];
      out := out + [TopicHead(m.topic, m.origin, heads[key])];
      i := i + 1;
    }
    r := Ok(out);
  }

  ghost predicate Resolves(heads: map<string, u64>, messages: map<string, StoredMessage>, key: string, log: LogKey) {
    key == HeadKey(log) && key in heads && MessageKey(Slot(log, heads[key])) in messages
  }

  ghost function Resolved(heads: map<string, u64>, messages: map<string, StoredMessage>, key: string,
      log: LogKey): TopicHead
    requires Resolves(heads, messages, key, log)
  {
    var m := messages[MessageKey(Slot(log, heads[key]))];
    TopicHead(m.topic, m.origin, heads[key])
  }

  lemma LogsInOrder(s: Store, heads: map<string, u64>, messages: map<string, StoredMessage>, scan: seq<string>)
    returns (logs: seq<LogKey>)
    requires Valid(s) && Rep(heads, s.heads, HeadKey) && Rep(messages, s.messages, MessageKey)
    requires Scans(heads.Keys, "", scan)
    ensures |logs| == |scan|
    ensures forall i :: 0 <= i < |scan| ==>
              && Resolves(heads, messages, scan[i], logs[i])
              && logs[i] in s.heads && Slot(logs[i], s.heads[logs[i]]) in s.messages
              && Resolved(heads, messages, scan[i], logs[i]) == HeadEntry(s, logs[i])
    ensures forall i, j :: 0 <= i < j < |logs| ==> logs[i] != logs[j]
    ensures forall log :: log in s.heads ==> log in logs
  {
    KeysAreInjective();
    logs := PrefixScan(heads, s.heads, HeadKey, "", scan);
    forall i, j | 0 <= i < j < |logs| ensures logs[i] != logs[j] {
      assert OrderedAt(logs, HeadKey, i, j);
    }
    forall i | 0 <= i < |scan|
      ensures Resolves(heads, messages, scan[i], logs[i]) && Slot(logs[i], s.heads[logs[i]]) in s.messages
      ensures Resolved(heads, messages, scan[i], logs[i]) == HeadEntry(s, logs[i])
    {
      assert scan[i] == HeadKey(logs[i]) && logs[i] in s.heads;
      Lookup(heads, s.heads, HeadKey, logs[i]);
      Lookup(messages, s.messages, MessageKey, Slot(logs[i], s.heads[logs[i]]));
    }
  }

  lemma HeadsListed(s: Store, logs: seq<LogKey>, out: seq<TopicHead>)
    requires Valid(s) && |logs| == |out|
    requires forall i, j :: 0 <= i < j < |logs| ==> logs[i] != logs[j]
    requires forall i :: 0 <= i < |logs| ==>
               logs[i] in s.heads && Slot(logs[i], s.heads[logs[i]]) in s.messages && out[i] == HeadEntry(s, logs[i])
    requires forall log :: log in s.heads ==> log in logs
    ensures StoreModel.ListHeads(s).Ok? && (set e | e in out) == StoreModel.ListHeads(s).value && |out| == |s.heads|
  {
    forall log | log in s.heads ensures Slot(log, s.heads[log]) in s.messages {
    }
    var value := StoreModel.ListHeads(s).value;
    forall e | e in value ensures e in out {
      var log :| log in s.heads && e == HeadEntry(s, log);
      var i :| 0 <= i < |logs| && logs[i] == log;
      assert out[i] == e;
    }
    forall e | e in out ensures e in value {
      var i :| 0 <= i < |out| && out[i] == e;
      assert logs[i] in s.heads;
    }
    DistinctCount(logs, s.heads.Keys);
  }

  /** The loop of `apply_tombstone_markers`: whether some tombstone of the log covers the head id. */
  method SomeCovers(table: map<string, TombstoneRange>, scan: seq<string>, prefix: string, head: u64,
      ghost entries: seq<Span>)
    returns (covered: bool)
    requires LeadsWith(scan, TombstoneKey, prefix, entries)
    requires forall i :: 0 <= i < |entries| ==>
               scan[i] in table && table[scan[i]].from == entries[i].from && table[scan[i]].to == entries[i].to
    ensures covered <==> exists i :: 0 <= i < |entries| && entries[i].from <= head <= entries[i].to
  {
    covered := false;
    var i := 0;
    while i < |scan|
      invariant 0 <= i <= |entries| && !covered
      invariant forall j :: 0 <= j < i ==> !(entries[j].from <= head <= entries[j].to)
    {
      if !(prefix <= scan[i]) {
        break;
      }
      var range := table[scan[i]];
      if range.from <= head && head <= range.to {
        covered := true;
        break;
      }
      i := i + 1;
    }
  }

  /** Scanning the tombstone table from a log's prefix meets first exactly that log's tombstones. */
  lemma TombstonesOfLog(table: map<string, TombstoneRange>, ranges: map<Span, TombstoneRange>, log: LogKey,
      scan: seq<string>) returns (entries: seq<Span>)
    requires Rep(table, ranges, TombstoneKey) && Scans(table.Keys, TombstonePrefix(log), scan)
    requires forall t :: t in ranges ==> ranges[t].Extent() == t
    ensures LeadsWith(scan, TombstoneKey, TombstonePrefix(log), entries)
    ensures forall i :: 0 <= i < |entries| ==>
              scan[i] in table && table[scan[i]].from == entries[i].from && table[scan[i]].to == entries[i].to
    ensures forall t :: t in entries <==> t in ranges && t.log == log
  {
    KeysAreInjective();
    entries := PrefixScan(table, ranges, TombstoneKey, TombstonePrefix(log), scan);
    forall i | 0 <= i < |entries|
      ensures entries[i].log == log && table[scan[i]] == ranges[entries[i]] && ranges[entries[i]].Extent() == entries[i]
    {
      TombstonePrefixTest(log, entries[i]);
      Lookup(table, ranges, TombstoneKey, entries[i]);
    }
    forall t | t in ranges && t.log == log ensures t in entries {
      TombstonePrefixTest(log, t);
    }
  }

  lemma CoveredByEntries(spans: set<Span>, slot: Slot, entries: seq<Span>)
    requires forall t :: t in entries <==> t in spans && t.log == slot.log
    ensures CoveredBy(spans, slot) <==> exists i :: 0 <= i < |entries| && entries[i].from <= slot.head <= entries[i].to
  {
    if i :| 0 <= i < |entries| && entries[i].from <= slot.head <= entries[i].to {
      assert entries[i] in entries && entries[i].Covers(slot);
    }
    if t :| t in spans && t.Covers(slot) {
      assert t in entries;
    }
  }

  lemma {:induction false} DistinctCount<T>(logs: seq<T>, all: set<T>)
    requires forall i, j :: 0 <= i < j < |logs| ==> logs[i] != logs[j]
    requires forall log :: log in logs <==> log in all
    ensures |logs| == |all|
  {
    if logs == [] {
      assert all == {};
    } else {
      assert logs[0] in all;
      assert forall log :: log in logs[1..] <==> log in all - {logs[0]};
      DistinctCount(logs[1..], all - {logs[0]});
    }
  }
}
