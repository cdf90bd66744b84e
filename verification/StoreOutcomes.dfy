/** What each store operation answers and leaves behind, told from the contents of the store alone. */
module StoreOutcomes {
  import opened Domain
  import opened StoreModel
  import opened StoreLaws

  /** A recorded range reaches over a position. */
  ghost predicate InRecordedRange(s: Store, log: LogKey, head: nat) {
    exists t :: t in s.tombstones && t.log == log && t.from <= head <= t.to
  }

  lemma CoveredIff(s: Store, slot: Slot)
    ensures CoveredBy(s.tombstones, slot) <==> InRecordedRange(s, slot.log, slot.head)
  {
    if t :| t in s.tombstones && t.log == slot.log && t.from <= slot.head <= t.to {
      assert t.Covers(slot);
    }
  }

  /** The incoming message with the deleted flag raised if a recorded range reaches over its position. */
  ghost function Raised(s: Store, m: StoredMessage): StoredMessage {
    m.(deleted := m.deleted || InRecordedRange(s, LogKey(m.topic, m.origin.Key()), m.headId))
  }

  /** The position is taken, by a message that is not the incoming one. */
  ghost predicate HeldByOther(s: Store, slot: Slot, m: StoredMessage) {
    slot in s.messages && s.messages[slot] != m
  }

  /** The two differ in the deleted flag only, and the incoming one is deleted. */
  ghost predicate OnlyDeletes(held: StoredMessage, m: StoredMessage) {
    m.deleted && held.(deleted := true) == m
  }

  /**
   * A replicated message is reported present exactly when its position holds just that message, a conflict exactly when
   * it holds another one that the incoming one does not merely delete, and out of order exactly when the position is
   * free and lies beyond the next head. Otherwise it is stored; everything else stays as it was.
   */
  lemma ReplicationOutcome(s: Store, m: StoredMessage)
    requires Valid(s)
    ensures var slot := Slot(LogKey(m.topic, m.origin.Key()), m.headId);
            var raised := Raised(s, m);
            var head := CurrentHead(s, slot.log);
            var (s', r) := PutReplicated(s, m);
            && (r == Ok(AlreadyPresent) <==> slot in s.messages && s.messages[slot] == raised)
            && (r == Err(Conflict) <==> HeldByOther(s, slot, raised) && !OnlyDeletes(s.messages[slot], raised))
            && (r == Err(InvalidArgument) <==> m.headId == 0 || (slot !in s.messages && m.headId > head + 1))
            && (r == Ok(Inserted) <==>
                  if slot in s.messages then s.messages[slot] != raised && OnlyDeletes(s.messages[slot], raised)
                  else m.headId == head + 1)
            && (r != Ok(Inserted) ==> s' == s)
            && (r == Ok(Inserted) ==> s' == Store(s.heads[slot.log := Max(head, m.headId)],
                                                  s.messages[slot := raised], s.tombstones))
  {
    CoveredIff(s, m.Position());
    if m.Position() in s.messages {
      assert m.headId <= CurrentHead(s, m.Log());
    } else if 0 < m.headId {
      assert m.headId > CurrentHead(s, m.Log());
    }
  }

  /**
   * A fetch answers the stored messages of a log from the head asked for, or from the first, one after the other: as
   * many as there are up to the limit, a hundred if no limit is given, and never more than ten thousand.
   */
  lemma FetchOutcome(s: Store, topic: string, origin: NodeId, from: u64, limit: u32)
    requires Valid(s)
    ensures var log := LogKey(topic, origin.Key());
            var first := if from == 0 then 1 else from;
            var held := if first <= CurrentHead(s, log) then CurrentHead(s, log) - first + 1 else 0;
            var asked := if limit == 0 then 100 else if limit <= 10_000 then limit else 10_000;
            var (s', r) := Step(s, FetchOp(topic, origin, from, limit));
            && s' == s && r.Fetched? && |r.messages| == (if asked <= held then asked else held)
            && forall i :: 0 <= i < |r.messages| ==>
                 first + i <= U64_MAX && Slot(log, first + i) in s.messages
                 && r.messages[i] == s.messages[Slot(log, first + i)]
  {
    PageIsConsecutive(s, LogKey(topic, origin.Key()), from, EffectiveLimit(limit));
  }

  /** What a range delete leaves: everything as it was, but for the deleted flags in the range and the range itself. */
  ghost predicate RangeDeleted(s: Store, s': Store, log: LogKey, from: u64, to: u64) {
    && s'.heads == s.heads && s'.messages.Keys == s.messages.Keys
    && s'.tombstones == s.tombstones + {Span(log, from, to)}
    && forall slot :: slot in s.messages ==>
         s'.messages[slot] == if slot.log == log && from <= slot.head <= to then s.messages[slot].(deleted := true)
           else s.messages[slot]
  }

  lemma EraseOne(s: Store, log: LogKey, from: u64, to: u64)
    ensures RangeDeleted(s, Erase(s, {Span(log, from, to)}), log, from, to)
    ensures Live(s, {Span(log, from, to)}) ==
        set slot | slot in s.messages && slot.log == log && from <= slot.head <= to && !s.messages[slot].deleted
  {
    var t := Span(log, from, to);
    forall slot ensures CoveredBy({t}, slot) <==> slot.log == log && from <= slot.head <= to {
      assert t in {t};
    }
  }

  /** A range delete is refused exactly when the range is inverted, and reports how many messages it newly deleted. */
  lemma RangeDeleteOutcome(s: Store, topic: string, origin: NodeId, from: u64, to: u64, now: u64)
    ensures var log := LogKey(topic, origin.Key());
            var (s', r) := Step(s, TombstoneOp(topic, origin, from, to, now));
            && (r == Failed(InvalidArgument) <==> from > to) && (from > to ==> s' == s)
            && (from <= to ==>
                  && RangeDeleted(s, s', log, from, to)
                  && r == Changed(|set slot | slot in s.messages && slot.log == log && from <= slot.head <= to
                                     && !s.messages[slot].deleted|))
  {
    EraseOne(s, LogKey(topic, origin.Key()), from, to);
  }

  /**
   * A control message is acted on exactly if it is on the delete topic and not deleted. Then it has to hold a range of
   * its own origin that is not inverted, which it deletes; with anything else it fails and changes nothing.
   */
  lemma ControlOutcome(s: Store, m: StoredMessage)
    ensures var (s', r) := ApplyControl(s, m);
            if m.topic != DELETE_TOPIC || m.deleted then s' == s && r == Ok(())
            else if !m.payload.Encoded? then s' == s && r == Err(InvalidArgument)
            else
              var range := m.payload.range;
              if range.origin != m.origin then s' == s && r == Err(PermissionDenied)
              else if range.from > range.to then s' == s && r == Err(InvalidArgument)
              else r == Ok(()) && RangeDeleted(s, s', LogKey(range.topic, range.origin.Key()), range.from, range.to)
  {
    if m.payload.Encoded? {
      var range := m.payload.range;
      EraseOne(s, LogKey(range.topic, range.origin.Key()), range.from, range.to);
    }
  }

  /** An append takes the next head of its log; its message is deleted at once if a recorded range reaches there. */
  lemma AppendOutcome(s: Store, message: NewMessage, now: u64)
    requires CurrentHead(s, LogKey(message.topic, message.origin.Key())) < U64_MAX
    ensures var log := LogKey(message.topic, message.origin.Key());
            var head := if log in s.heads then s.heads[log] + 1 else 1;
            var m := StoredMessage(message.id, message.topic, message.origin, head, message.payload, message.headers,
                now, InRecordedRange(s, log, head));
            Step(s, AppendOp(message, now)) ==
            (Store(s.heads[log := head], s.messages[Slot(log, head) := m], s.tombstones), Stored(m))
  {
    var log := LogKey(message.topic, message.origin.Key());
    CoveredIff(s, Slot(log, Next(CurrentHead(s, log))));
  }

  /** A delete with a marker is a range delete followed by an append, both or none. */
  lemma DeleteOutcome(s: Store, range: TombstoneRange, topic: string, origin: NodeId, id: string, now: u64)
    ensures var (s', r) := Step(s, DeleteOp(range, topic, origin, id, now));
            var cut := TombstoneOp(range.topic, range.origin, range.from, range.to, range.createdAtMs);
            var (s1, changed) := Step(s, cut);
            var (s2, stored) := Step(s1, AppendOp(NewMessage(id, topic, origin, Encoded(range), map[]), now));
            if changed.Failed? then s' == s && r == changed
            else s' == s2 && r == Deleted(changed.count, stored.message)
  {
  }

  /** The head of a log is answered together with whether it has one. */
  lemma HeadOutcome(s: Store, topic: string, origin: NodeId)
    ensures var log := LogKey(topic, origin.Key());
            Step(s, GetHeadOp(topic, origin)) ==
            (s, if log in s.heads then HeadIs(s.heads[log], true) else HeadIs(0, false))
  {
  }

  /** The head with the topic and the origin of the message that stands there. */
  ghost predicate IsHeadOf(s: Store, e: TopicHead) {
    var slot := Slot(LogKey(e.topic, e.origin.Key()), e.headId);
    && slot.log in s.heads && s.heads[slot.log] == e.headId && slot in s.messages
    && s.messages[slot].topic == e.topic && s.messages[slot].origin == e.origin
  }

  /** A listing has exactly the heads. */
  lemma ListingOutcome(s: Store)
    requires Valid(s)
    ensures var (s', r) := Step(s, ListHeadsOp);
            s' == s && r.Heads? && forall e :: e in r.entries <==> IsHeadOf(s, e)
  {
    ListHeadsIsTheHeads(s);
    forall e ensures e in ListHeads(s).value <==> IsHeadOf(s, e) {
      var log := e.Log();
      if IsHeadOf(s, e) {
        assert e == HeadEntry(s, log);
      }
    }
  }
}
