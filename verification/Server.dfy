/** The write requests of one daemon: which of them reach the store, and what they do there. */
module Server {
  import opened Domain
  import opened StoreModel
  import opened NodeKey

  const NO_PARTS := NodeId("", "", "")

  /** The origin a write may use: absent or empty means the daemon's own node, anything else must be it. */
  function OwnedOrigin(node: NodeId, origin: NodeOption): Outcome<NodeId> {
    if origin.NoNode? || origin.node == NO_PARTS then
      Ok(node)
    else if !ValidNode(origin.node) then
      Err(InvalidArgument)
    else if origin.node == node then
      Ok(node)
    else
      Err(PermissionDenied)
  }

  function ApplicationTopic(topic: string): Outcome<string> {
    if !ValidPart(topic) then
      Err(InvalidArgument)
    else if topic == DELETE_TOPIC then
      Err(PermissionDenied)
    else
      Ok(topic)
  }

  datatype PublishRequest = PublishRequest(topic: string, origin: NodeOption, payload: Payload, headers: map<string,
      string>)

  datatype DeleteRequest = DeleteRequest(topic: string, origin: NodeOption, from: u64, to: u64)

  function Publish(node: NodeId, s: Store, request: PublishRequest, id: string, now: u64): (Store,
      Outcome<StoredMessage>) {
    var topic := ApplicationTopic(request.topic);
    var origin := OwnedOrigin(node, request.origin);
    if topic.Err? then
      (s, Err(topic.error))
    else if origin.Err? then
      (s, Err(origin.error))
    else
      var (s', m) := Append(s, NewMessage(id, topic.value, origin.value, request.payload, request.headers), now);
      (s', Ok(m))
  }

  function DeleteRange(node: NodeId, s: Store, request: DeleteRequest, id: string, createdAt: u64, now: u64)
    : (Store, Outcome<(nat, StoredMessage)>)
  {
    var topic := ApplicationTopic(request.topic);
    var origin := OwnedOrigin(node, request.origin);
    if topic.Err? then
      (s, Err(topic.error))
    else if origin.Err? then
      (s, Err(origin.error))
    else
      TombstoneWithMarker(s, TombstoneRange(topic.value, origin.value, request.from, request.to, createdAt),
          DELETE_TOPIC, node, id, now)
  }
}
