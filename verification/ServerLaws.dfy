/** What a client of one daemon can rely on: which writes are accepted, and that they can be read back. */
module ServerLaws {
  import opened Domain
  import opened NodeKey
  import opened Server
  import opened StoreLaws
  import opened StoreModel

  /** A write may name no origin, an empty one, or the daemon's own node, if that is a valid node. */
  predicate OwnOrigin(node: NodeId, origin: NodeOption) {
    origin == NoNode || origin.node == NO_PARTS || (origin.node == node && ValidNode(node))
  }

  /**
   * A publish is accepted exactly for an application topic and the daemon's own origin; then it takes the next
   * head, and reading from there returns the message as it was published, deleted only if a range deleted
   * earlier reaches that far. A refused one changes nothing.
   */
  lemma PublishReadsBack(node: NodeId, s: Store, request: PublishRequest, id: string, now: u64, limit: u32)
    requires Valid(s) && CurrentHead(s, LogKey(request.topic, node.Key())) < U64_MAX
    ensures var log := LogKey(request.topic, node.Key());
            var (s', r) := Publish(node, s, request, id, now);
            && (r.Ok? <==> ValidPart(request.topic) && request.topic != DELETE_TOPIC && OwnOrigin(node, request.origin))
            && (r.Err? ==> s' == s)
            && (r.Ok? ==> var head := CurrentHead(s, log) + 1;
                 && CurrentHead(s', log) == head && s'.messages[Slot(log, head)] == r.value
                 && Page(s', log, head, EffectiveLimit(limit)) ==
                    [StoredMessage(id, request.topic, node, head, request.payload, request.headers, now,
                        CoveredBy(s.tombstones, Slot(log, head)))])
  {
    var log := LogKey(request.topic, node.Key());
    var (s', r) := Publish(node, s, request, id, now);
    if r.Ok? {
      AppendReadsBack(s, NewMessage(id, request.topic, node, request.payload, request.headers), now, limit);
    }
  }

  /** Why a write is refused: the topic is looked at first, then the origin. */
  function Refusal(node: NodeId, topic: string, origin: NodeOption): MsgbusError {
    if !ValidPart(topic) then InvalidArgument
    else if topic == DELETE_TOPIC then PermissionDenied
    else if origin.SomeNode? && !ValidNode(origin.node) then InvalidArgument
    else PermissionDenied
  }

  /**
   * A topic or an origin that is not well formed is an invalid argument, the delete topic and another node's origin are
   * not permitted; a range that is inverted is an invalid argument if the rest is in order.
   */
  lemma RefusedFor(node: NodeId, s: Store, post: PublishRequest, cut: DeleteRequest, id: string, createdAt: u64,
      now: u64)
    ensures var r := Publish(node, s, post, id, now).1;
            r.Err? ==> r.error == Refusal(node, post.topic, post.origin)
    ensures var r := DeleteRange(node, s, cut, id, createdAt, now).1;
            var accepted := ValidPart(cut.topic) && cut.topic != DELETE_TOPIC && OwnOrigin(node, cut.origin);
            r.Err? ==> r.error == if accepted then InvalidArgument else Refusal(node, cut.topic, cut.origin)
  {
  }

  lemma AppendReadsBack(s: Store, message: NewMessage, now: u64, limit: u32)
    requires Valid(s) && CurrentHead(s, LogKey(message.topic, message.origin.Key())) < U64_MAX
    ensures var log := LogKey(message.topic, message.origin.Key());
            var (s', m) := Append(s, message, now);
            && m.headId == CurrentHead(s, log) + 1 == CurrentHead(s', log)
            && Page(s', log, m.headId, EffectiveLimit(limit)) == [m]
  {
    var log := LogKey(message.topic, message.origin.Key());
    var (s', m) := Append(s, message, now);
    AppendKeepsValid(s, message, now);
    PageIsConsecutive(s', log, m.headId, EffectiveLimit(limit));
  }

  /**
   * A delete is accepted exactly for an application topic, the daemon's own origin and a range that is not
   * inverted. Then exactly the messages in the range are deleted, as many as it reports were not before, and
   * the delete log ends with a marker that makes any other store delete the same range.
   */
  lemma DeleteTakesEffect(node: NodeId, s: Store, request: DeleteRequest, id: string, createdAt: u64, now: u64,
      other: Store)
    requires Valid(s) && CurrentHead(s, LogKey(DELETE_TOPIC, node.Key())) < U64_MAX
    ensures var span := Span(LogKey(request.topic, node.Key()), request.from, request.to);
            var (s', r) := DeleteRange(node, s, request, id, createdAt, now);
            && (r.Ok? <==>
                  && ValidPart(request.topic) && request.topic != DELETE_TOPIC && OwnOrigin(node, request.origin)
                  && request.from <= request.to)
            && (r.Err? ==> s' == s)
            && (r.Ok? ==>
                 && (forall slot :: slot in s.messages ==>
                       && slot in s'.messages
                       && s'.messages[slot].Same(s.messages[slot])
                       && (s'.messages[slot].deleted <==> s.messages[slot].deleted || span.Covers(slot)))
                 && r.value.0 == |set slot | slot in s.messages && span.Covers(slot) && !s.messages[slot].deleted|
                 && var log := LogKey(DELETE_TOPIC, node.Key());
                 && var at := Slot(log, CurrentHead(s, log) + 1);
                 && r.value.1 == StoredMessage(id, DELETE_TOPIC, node, at.head,
                      Encoded(TombstoneRange(request.topic, node, request.from, request.to, createdAt)), map[], now,
                      CoveredBy(s.tombstones, at))
                 && s'.messages.Keys == s.messages.Keys + {at} && s'.messages[at] == r.value.1
                 && s'.heads == s.heads[at.log := at.head] && s'.tombstones == s.tombstones + {span}
                 && (!r.value.1.deleted ==> ApplyControl(other, r.value.1) == (Erase(other, {span}), Ok(()))))
  {
    var span := Span(LogKey(request.topic, node.Key()), request.from, request.to);
    var (s', r) := DeleteRange(node, s, request, id, createdAt, now);
    if r.Ok? {
      forall slot ensures CoveredBy({span}, slot) <==> span.Covers(slot) {
        assert span in {span};
      }
      assert Live(s, {span}) == set slot | slot in s.messages && span.Covers(slot) && !s.messages[slot].deleted;
      assert r.value.1.Position() !in s.messages;
      CoveredByUnion(s.tombstones, {span}, r.value.1.Position());
    }
  }
}
