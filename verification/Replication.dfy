/** Pulling logs from peers: `sync_head`, `sync_peer` and `sync_once` against arbitrary answers. */
module Replication {
  import opened Domain
  import opened StoreModel
  import opened StoreLaws
  import opened StoreOutcomes

  /** A daemon's handle on its store, through the storage contract. */
  class StoreHandle {
    var state: Store
    /** The control messages acted on, in order. */
    ghost var acted: seq<StoredMessage>

    constructor (s: Store)
      ensures state == s && acted == []
    {
      state, acted := s, [];
    }

    method PutReplicatedMessage(m: StoredMessage) returns (r: Outcome<ReplicateResult>)
      modifies this`state
      ensures (state, r) == PutReplicated(old(state), m)
    {
      var result := PutReplicated(state, m);
      state, r := result.0, result.1;
    }

    method ApplyControlMessage(m: StoredMessage) returns (r: Outcome<()>)
      modifies this
      ensures (state, r) == ApplyControl(old(state), m) && acted == old(acted) + [m]
    {
      var result := ApplyControl(state, m);
      state, r, acted := result.0, result.1, acted + [m];
    }
  }

  // ---- Pulling one log ----

  datatype Item = Blank | Malformed | Envelope(message: StoredMessage)

  /** One answer to a fetch: refused, or a stream of items that may break off. */
  datatype Response = Refused | Stream(items: seq<Item>, broken: bool)

  predicate Intact(response: Response) {
    response.Stream? && !response.broken
  }

  /** A peer as the answers it gives: to the k-th fetch, asking for `limit` messages from head `from`. */
  type Peer = (nat, u64, u32) -> Response

  /** A message the cluster's daemons produce: a delete marker names a range of its own origin. */
  ghost predicate HonestMessage(m: StoredMessage) {
    m.topic == DELETE_TOPIC ==>
      m.deleted || (m.payload.Encoded? && m.payload.range.origin == m.origin &&
        m.payload.range.from <= m.payload.range.to)
  }

  /** The messages from head `from` on, as many as asked for or up to the advertised head at least. */
  ghost predicate HonestResponse(head: TopicHead, from: u64, limit: u32, response: Response) {
    && Intact(response)
    && MessageCount(response.items) <= EffectiveLimit(limit)
    && (MessageCount(response.items) == EffectiveLimit(limit) || head.headId < from + MessageCount(response.items))
    && HonestItems(head, from, response.items)
  }

  /** Consecutive messages of the log, possibly with blank responses between them. */
  ghost predicate HonestItems(head: TopicHead, from: nat, items: seq<Item>)
    decreases |items|
  {
    items == [] ||
    match items[0]
    case Blank => HonestItems(head, from, items[1..])
    case Malformed => false
    case Envelope(m) =>
      && m.topic == head.topic && m.origin == head.origin && m.headId == from && HonestMessage(m)
      && HonestItems(head, from + 1, items[1..])
  }

  function MessageCount(items: seq<Item>): nat {
    if items == [] then 0 else (if items[0].Envelope? then 1 else 0) + MessageCount(items[1..])
  }

  ghost predicate HonestPeer(peer: Peer, head: TopicHead) {
    forall k: nat, from: u64, limit: u32 {:trigger peer(k, from, limit)} ::
      1 <= from <= head.headId ==> HonestResponse(head, from, limit, peer(k, from, limit))
  }

  /** A control message changes the store only if it is a marker, and then it erases the range it names. */
  lemma ControlErases(s: Store, m: StoredMessage)
    ensures ApplyControl(s, m).0 == if m.IsMarker() then Erase(s, {m.payload.range.Extent()}) else s
    ensures HonestMessage(m) ==> ApplyControl(s, m).1.Ok?
  {
  }

  lemma ControlKeeps(s: Store, m: StoredMessage)
    requires Valid(s)
    ensures var s' := ApplyControl(s, m).0; Valid(s') && Extends(s, s') && s'.heads == s.heads
  {
    ControlErases(s, m);
    if m.IsMarker() {
      EraseKeepsValid(s, {m.payload.range.Extent()});
      EraseExtends(s, {m.payload.range.Extent()});
    }
  }

  // ---- What one item does ----

  /** Stores a message and acts on it; a blank response is skipped, anything wrong stops the sync. */
  function Take(s: Store, head: TopicHead, item: Item): (Store, bool) {
    match item
    case Blank => (s, true)
    case Malformed => (s, false)
    case Envelope(m) =>
      if m.topic != head.topic || m.origin != head.origin then
        (s, false)
      else
        var (s1, stored) := PutReplicated(s, m);
        if stored.Err? then
          (s1, false)
        else
          var (s2, applied) := ApplyControl(s1, m);
          (s2, applied.Ok?)
  }

  /** The store takes a message: its position holds it, is deleted by it, or is free and the next one. */
  ghost predicate Accepts(s: Store, m: StoredMessage) {
    var slot, raised := Slot(LogKey(m.topic, m.origin.Key()), m.headId), Raised(s, m);
    if slot in s.messages then s.messages[slot] == raised || OnlyDeletes(s.messages[slot], raised)
    else m.headId == CurrentHead(s, slot.log) + 1
  }

  /** A delete marker, not deleted itself. */
  ghost predicate ToBeActedOn(m: StoredMessage) {
    m.topic == DELETE_TOPIC && !m.deleted
  }

  /**
   * An item is taken exactly if it is blank, or a message of the log that the store accepts and that, if it is to be
   * acted on, names a proper range of its own origin. Nothing of it is stored if it is not of the log or not accepted;
   * a range it names is deleted once it is stored, also if it was there before.
   */
  lemma TakeOutcome(s: Store, head: TopicHead, item: Item)
    requires Valid(s)
    ensures var (s', ok) := Take(s, head, item);
            if item.Envelope? && item.message.topic == head.topic && item.message.origin == head.origin
              && Accepts(s, item.message) then
              var m, s1 := item.message, PutReplicated(s, item.message).0;
              && PutReplicated(s, m).1.Ok? && (ok <==> ToBeActedOn(m) ==> HonestMessage(m))
              && if ok && ToBeActedOn(m) then
                   var range := m.payload.range;
                   RangeDeleted(s1, s', LogKey(range.topic, range.origin.Key()), range.from, range.to)
                 else s' == s1
            else s' == s && (ok <==> item.Blank?)
  {
    if item.Envelope? {
      ReplicationOutcome(s, item.message);
      ControlOutcome(PutReplicated(s, item.message).0, item.message);
    }
  }

  /** The items of a stream, up to the first that fails. */
  function TakeAll(s: Store, head: TopicHead, items: seq<Item>): (Store, bool)
    decreases |items|
  {
    if items == [] then
      (s, true)
    else
      var (s', ok) := Take(s, head, items[0]);
      if ok then TakeAll(s', head, items[1..]) else (s', false)
  }

  lemma TakeKeeps(s: Store, head: TopicHead, item: Item)
    requires Valid(s)
    ensures var s' := Take(s, head, item).0; Valid(s') && Extends(s, s')
  {
    if item.Envelope? {
      PutKeepsValid(s, item.message);
      PutExtends(s, item.message);
      TakeAfterPut(s, PutReplicated(s, item.message).0, item.message);
    }
  }

  lemma TakeAfterPut(s: Store, s1: Store, m: StoredMessage)
    requires Extends(s, s1) && Valid(s1)
    ensures var s' := ApplyControl(s1, m).0; Valid(s') && Extends(s, s') && Extends(s, s)
  {
    ControlKeeps(s1, m);
    ExtendsTransitive(s, s1, ApplyControl(s1, m).0);
  }

  /** An accepted message raises the head of its log to its own, if that is higher. */
  lemma TakeRaisesHead(s: Store, head: TopicHead, item: Item)
    requires Valid(s) && Take(s, head, item).1
    ensures CurrentHead(Take(s, head, item).0, head.Log()) ==
            if item.Envelope? then Max(CurrentHead(s, head.Log()), item.message.headId) else CurrentHead(s, head.Log())
  {
    if item.Envelope? {
      PutKeepsValid(s, item.message);
      ReplicatedHead(s, item.message);
      ControlKeeps(PutReplicated(s, item.message).0, item.message);
    }
  }

  lemma ReplicatedHead(s: Store, m: StoredMessage)
    requires Valid(s) && PutReplicated(s, m).1.Ok?
    ensures CurrentHead(PutReplicated(s, m).0, m.Log()) == Max(CurrentHead(s, m.Log()), m.headId)
  {
    if m.Position() in s.messages {
      assert m.headId <= CurrentHead(s, m.Log());
    }
  }

  /** The next message of a log is taken. */
  lemma NextIsTaken(s: Store, head: TopicHead, m: StoredMessage)
    requires Valid(s) && m.topic == head.topic && m.origin == head.origin && HonestMessage(m)
    requires m.headId == CurrentHead(s, head.Log()) + 1
    ensures Take(s, head, Envelope(m)).1
  {
    assert m.Position() !in s.messages;
    ControlErases(PutReplicated(s, m).0, m);
  }

  lemma {:induction false} HonestStreamIsTaken(s: Store, head: TopicHead, items: seq<Item>)
    requires Valid(s) && HonestItems(head, CurrentHead(s, head.Log()) + 1, items)
    ensures TakeAll(s, head, items).1
    ensures CurrentHead(TakeAll(s, head, items).0, head.Log()) == CurrentHead(s, head.Log()) + MessageCount(items)
    decreases |items|
  {
    if items != [] {
      if items[0].Envelope? {
        NextIsTaken(s, head, items[0].message);
      }
      TakeKeeps(s, head, items[0]);
      TakeRaisesHead(s, head, items[0]);
      HonestStreamIsTaken(Take(s, head, items[0]).0, head, items[1..]);
    }
  }

  lemma {:induction false} BlankStreamChangesNothing(s: Store, head: TopicHead, items: seq<Item>)
    requires MessageCount(items) == 0
    ensures TakeAll(s, head, items).0 == s
    decreases |items|
  {
    if items != [] {
      BlankStreamChangesNothing(s, head, items[1..]);
    }
  }

  /** One iteration of the batch loop. */
  method Receive(store: StoreHandle, head: TopicHead, item: Item, before: u64)
    returns (local: u64, counted: bool, ok: bool)
    requires Valid(store.state) && before == CurrentHead(store.state, head.Log())
    modifies store
    ensures (store.state, ok) == Take(old(store.state), head, item)
    ensures ok ==> local == CurrentHead(store.state, head.Log()) && counted == item.Envelope?
  {
    local, counted, ok := before, false, true;
    if Take(store.state, head, item).1 {
      TakeRaisesHead(store.state, head, item);
    }
    if item.Blank? {
      return;
    }
    if item.Malformed? || item.message.topic != head.topic || item.message.origin != head.origin {
      ok := false;
      return;
    }
    var m := item.message;
    var result := store.PutReplicatedMessage(m);
    if result.Err? {
      ok := false;
      return;
    }
    var applied := store.ApplyControlMessage(m);
    if applied.Err? {
      ok := false;
      return;
    }
    local := Max(before, m.headId);
    counted := true;
  }

  /** The stream of one fetch: exactly its items are taken, and counted as they should be. */
  method ReceiveAll(store: StoreHandle, head: TopicHead, items: seq<Item>, before: u64)
    returns (local: u64, fetched: nat, ok: bool)
    requires Valid(store.state) && before == CurrentHead(store.state, head.Log())
    modifies store
    ensures Valid(store.state) && Extends(old(store.state), store.state)
    ensures (store.state, ok) == TakeAll(old(store.state), head, items)
    ensures ok ==> local == CurrentHead(store.state, head.Log()) && fetched == MessageCount(items)
  {
    local, fetched, ok := before, 0, true;
    var i := 0;
    while i < |items|
      invariant 0 <= i <= |items| && ok && Valid(store.state) && Extends(old(store.state), store.state)
      invariant local == CurrentHead(store.state, head.Log())
      invariant TakeAll(store.state, head, items[i..]) == TakeAll(old(store.state), head, items)
      invariant fetched + MessageCount(items[i..]) == MessageCount(items)
    {
      assert items[i..][0] == items[i] && items[i..][1..] == items[i + 1..];
      label iteration:
      TakeKeeps(store.state, head, items[i]);
      var counted;
      local, counted, ok := Receive(store, head, items[i], local);
      ExtendsTransitive(old(store.state), old@iteration(store.state), store.state);
      if !ok {
        return;
      }
      if counted {
        fetched := fetched + 1;
      }
      i := i + 1;
    }
  }

  /** The answer came through whole, and every item of it was taken. */
  ghost predicate WentWell(s: Store, head: TopicHead, response: Response) {
    response.Stream? && !response.broken && TakeAll(s, head, response.items).1
  }

  /** What is left of the store once an answer is taken in, as far as that goes. */
  ghost function AfterAnswer(s: Store, head: TopicHead, response: Response): Store {
    if response.Stream? then TakeAll(s, head, response.items).0 else s
  }

  /** One fetch: the peer's answer, taken in. */
  method Pull(store: StoreHandle, head: TopicHead, limit: u32, response: Response, before: u64, ghost start: Store)
    returns (local: u64, fetched: nat, ok: bool)
    requires Valid(store.state) && Extends(start, store.state)
    requires before == CurrentHead(store.state, head.Log()) < U64_MAX
    modifies store
    ensures Valid(store.state) && Extends(start, store.state)
    ensures store.state == AfterAnswer(old(store.state), head, response)
    ensures ok <==> WentWell(old(store.state), head, response)
    ensures ok ==> local == CurrentHead(store.state, head.Log()) && before <= local
    ensures ok && fetched == 0 ==> local == before
    ensures HonestResponse(head, before + 1, limit, response) ==>
              ok && local == before + fetched && fetched <= EffectiveLimit(limit) &&
                (fetched == EffectiveLimit(limit) || head.headId <= local)
  {
    local, fetched, ok := before, 0, false;
    if response.Stream? {
      if MessageCount(response.items) == 0 {
        BlankStreamChangesNothing(store.state, head, response.items);
      }
      if HonestItems(head, before + 1, response.items) {
        HonestStreamIsTaken(store.state, head, response.items);
      }
      local, fetched, ok := ReceiveAll(store, head, response.items, before);
      ok := ok && !response.broken;
      HeadsGrow(old(store.state), store.state, head.Log());
      ExtendsTransitive(start, old(store.state), store.state);
    }
  }

  lemma HeadsGrow(s: Store, s': Store, log: LogKey)
    requires Extends(s, s')
    ensures CurrentHead(s, log) <= CurrentHead(s', log)
  {
  }

  // ---- A pull, told from the answers ----

  ghost function AnswerTo(s: Store, head: TopicHead, limit: u32, peer: Peer, k: nat): Response {
    peer(k, Next(CurrentHead(s, head.Log())), limit)
  }

  /** The fetch with number `k` takes one store to the next; it is made only while the log is behind. */
  ghost predicate FetchAt(trail: seq<Store>, head: TopicHead, limit: u32, peer: Peer, k: nat)
    requires k + 1 < |trail|
  {
    && CurrentHead(trail[k], head.Log()) < head.headId
    && trail[k + 1] == AfterAnswer(trail[k], head, AnswerTo(trail[k], head, limit, peer, k))
  }

  ghost predicate WellAt(trail: seq<Store>, head: TopicHead, limit: u32, peer: Peer, k: nat)
    requires k < |trail|
  {
    WentWell(trail[k], head, AnswerTo(trail[k], head, limit, peer, k))
  }

  ghost predicate NewAt(trail: seq<Store>, head: TopicHead, k: nat)
    requires k + 1 < |trail|
  {
    CurrentHead(trail[k], head.Log()) < CurrentHead(trail[k + 1], head.Log())
  }

  /** All fetches so far went well and brought something new. */
  ghost predicate Going(trail: seq<Store>, head: TopicHead, limit: u32, peer: Peer) {
    trail != [] && forall k: nat {:trigger FetchAt(trail, head, limit, peer, k)} :: k + 1 < |trail| ==>
      FetchAt(trail, head, limit, peer, k) && WellAt(trail, head, limit, peer, k) && NewAt(trail, head, k)
  }

  /**
   * The stores a pull of a log goes through, one after each fetch: it fails exactly if an answer does not come through
   * whole or holds an item that cannot be taken, which ends it; and it ends well exactly if the log reaches the
   * advertised head, or an answer that went well brought nothing new.
   */
  ghost predicate IsPull(trail: seq<Store>, head: TopicHead, limit: u32, peer: Peer, ok: bool) {
    || (Going(trail, head, limit, peer) && head.headId <= CurrentHead(trail[|trail| - 1], head.Log()) && ok)
    || (|trail| > 1 && Going(trail[..|trail| - 1], head, limit, peer) &&
        EndsAt(trail, head, limit, peer, |trail| - 2, ok))
  }

  ghost predicate EndsAt(trail: seq<Store>, head: TopicHead, limit: u32, peer: Peer, k: nat, ok: bool)
    requires k + 1 < |trail|
  {
    && FetchAt(trail, head, limit, peer, k) && (ok <==> WellAt(trail, head, limit, peer, k))
    && (ok ==> !NewAt(trail, head, k))
  }

  lemma GoingOn(trail: seq<Store>, s: Store, head: TopicHead, limit: u32, peer: Peer)
    requires Going(trail, head, limit, peer)
    requires var k := |trail| - 1;
             && FetchAt(trail + [s], head, limit, peer, k) && WellAt(trail + [s], head, limit, peer, k)
             && NewAt(trail + [s], head, k)
    ensures Going(trail + [s], head, limit, peer)
  {
    forall k: nat | k + 1 < |trail + [s]|
      ensures FetchAt(trail + [s], head, limit, peer, k) && WellAt(trail + [s], head, limit, peer, k)
      ensures NewAt(trail + [s], head, k)
    {
      if k + 1 < |trail| {
        assert FetchAt(trail, head, limit, peer, k);
      }
    }
  }

  /** One more fetch: the pull goes on, fails, or ends for want of anything new. */
  lemma OneMoreFetch(trail: seq<Store>, s: Store, head: TopicHead, limit: u32, peer: Peer, ok: bool)
    requires Going(trail, head, limit, peer)
    requires var last, k := trail[|trail| - 1], |trail| - 1;
             var answer := AnswerTo(last, head, limit, peer, k);
             && CurrentHead(last, head.Log()) < head.headId
             && s == AfterAnswer(last, head, answer) && (ok <==> WentWell(last, head, answer))
    ensures var grew := CurrentHead(trail[|trail| - 1], head.Log()) < CurrentHead(s, head.Log());
            if ok && grew then Going(trail + [s], head, limit, peer) else IsPull(trail + [s], head, limit, peer, ok)
  {
    var longer := trail + [s];
    assert longer[..|longer| - 1] == trail;
    assert FetchAt(longer, head, limit, peer, |trail| - 1);
    if ok && CurrentHead(trail[|trail| - 1], head.Log()) < CurrentHead(s, head.Log()) {
      GoingOn(trail, s, head, limit, peer);
    } else {
      assert EndsAt(longer, head, limit, peer, |longer| - 2, ok);
    }
  }

  /** How many heads a log lacks. */
  function Missing(local: nat, goal: nat): nat {
    if local < goal then goal - local else 0
  }

  function CeilDiv(a: nat, b: nat): nat
    requires b > 0
  {
    (a + b - 1) / b
  }

  lemma CeilDivUnique(a: nat, b: nat, k: nat)
    requires b > 0 && k > 0 && (k - 1) * b < a <= k * b
    ensures k == CeilDiv(a, b)
  {
    var n := a + b - 1;
    assert k * b <= n < (k + 1) * b;
    DivUnique(n, b, k);
  }

  lemma DivUnique(n: nat, b: nat, k: nat)
    requires b > 0 && k * b <= n < (k + 1) * b
    ensures n / b == k
  {
    var q := n / b;
    assert q * b <= n < (q + 1) * b;
    if q < k {
      MulLe(q + 1, k, b);
    } else if q > k {
      MulLe(k + 1, q, b);
    }
  }

  lemma MulLe(x: nat, y: nat, b: nat)
    requires x <= y
    ensures x * b <= y * b
  {
  }

  /** How many messages a fetch asks for. */
  function Asked(batchLimit: u32): u32 {
    if batchLimit == 0 then 1 else batchLimit
  }

  /** The next fetch of a pull. */
  method Fetch(store: StoreHandle, head: TopicHead, batchLimit: u32, peer: Peer, fetches: nat, before: u64,
      ghost start: Store, ghost trail: seq<Store>)
    returns (local: u64, fetched: nat, ok: bool, ghost trail': seq<Store>)
    requires Valid(store.state) && Extends(start, store.state)
    requires before == CurrentHead(store.state, head.Log()) < head.headId
    requires Going(trail, head, Asked(batchLimit), peer)
    requires |trail| == fetches + 1 && trail[fetches] == store.state
    modifies store
    ensures Valid(store.state) && Extends(start, store.state) && trail' == trail + [store.state]
    ensures ok ==> local == CurrentHead(store.state, head.Log()) && before <= local
    ensures ok && fetched == 0 ==> local == before
    ensures if ok && before < local then Going(trail', head, Asked(batchLimit), peer)
            else IsPull(trail', head, Asked(batchLimit), peer, ok)
    ensures HonestPeer(peer, head) ==> ok && FullOrDone(before, local, fetched, Min(Max(batchLimit, 1), 10_000), head)
  {
    var response := peer(fetches, Next(before), Max(batchLimit, 1));
    assert HonestPeer(peer, head) ==> HonestResponse(head, before + 1, Max(batchLimit, 1), response);
    local, fetched, ok := Pull(store, head, Max(batchLimit, 1), response, before, start);
    OneMoreFetch(trail, store.state, head, Asked(batchLimit), peer, ok);
    trail' := trail + [store.state];
  }

  /** A full batch, or one that reaches the advertised head. */
  ghost predicate FullOrDone(before: nat, local: nat, fetched: nat, b: nat, head: TopicHead) {
    local == before + fetched && fetched <= b && (fetched == b || head.headId <= local)
  }

  /**
   * `sync_head`: pulls a log until its head reaches the advertised one, a fetch brings nothing new, or
   * something fails. It ends for every peer, and its idea of the local head is always the store's.
   * Against an honest peer it reaches the advertised head in exactly as many fetches as batches fit.
   */
  method SyncHead(store: StoreHandle, head: TopicHead, batchLimit: u32, peer: Peer)
    returns (local: u64, fetches: nat, ok: bool, ghost trail: seq<Store>)
    requires Valid(store.state)
    modifies store
    ensures Valid(store.state) && Extends(old(store.state), store.state)
    ensures ok ==> local == CurrentHead(store.state, head.Log())
    ensures IsPull(trail, head, Asked(batchLimit), peer, ok)
    ensures |trail| == fetches + 1 && trail[0] == old(store.state) && trail[fetches] == store.state
    ensures HonestPeer(peer, head) ==> ok && head.headId <= local
    ensures HonestPeer(peer, head) ==>
              fetches == CeilDiv(Missing(CurrentHead(old(store.state), head.Log()), head.headId),
                  if batchLimit == 0 then 1 else if batchLimit <= 10_000 then batchLimit else 10_000)
  {
    local := CurrentHead(store.state, head.Log());
    fetches, ok, trail := 0, true, [store.state];
    ghost var base, start, b := store.state, local, Min(Max(batchLimit, 1), 10_000);
    while local < head.headId
      invariant Valid(store.state) && Extends(base, store.state) && ok
      invariant local == CurrentHead(store.state, head.Log()) && start <= local
      invariant |trail| == fetches + 1 && trail[0] == base && trail[fetches] == store.state
      invariant Going(trail, head, Asked(batchLimit), peer)
      invariant HonestPeer(peer, head) ==> Counted(start, head.headId, local, b, fetches)
      decreases Max(head.headId, local) - local
    {
      var before := local;
      var fetched;
      local, fetched, ok, trail := Fetch(store, head, batchLimit, peer, fetches, local, base, trail);
      fetches := fetches + 1;
      if !ok {
        return;
      }
      if HonestPeer(peer, head) {
        CountBatch(start, head.headId, before, b, fetches, fetched, local);
      }
      if fetched == 0 || local == before {
        return;
      }
    }
    if HonestPeer(peer, head) {
      CountAll(start, head.headId, local, b, fetches);
    }
  }

  /** After some fetches of an honest peer: full batches so far, the last possibly partial. */
  ghost predicate Counted(start: nat, goal: nat, local: nat, b: nat, fetches: nat) {
    if fetches == 0 then local == start
    else start + (fetches - 1) * b < goal && (if local < goal then local == start + fetches * b
      else local <= start + fetches * b)
  }

  lemma CountBatch(start: nat, goal: nat, before: nat, b: nat, fetches: nat, fetched: nat, local: nat)
    requires fetches > 0 && b > 0 && start <= before < goal && Counted(start, goal, before, b, fetches - 1)
    requires fetched <= b && local == before + fetched && (fetched == b || goal <= local)
    ensures Counted(start, goal, local, b, fetches) && fetched > 0 && local > before
  {
    assert before == start + (fetches - 1) * b;
    assert fetches * b == (fetches - 1) * b + b;
  }

  lemma CountAll(start: nat, goal: nat, local: nat, b: nat, fetches: nat)
    requires b > 0 && goal <= local && Counted(start, goal, local, b, fetches) && start <= local
    ensures fetches == CeilDiv(Missing(start, goal), b)
  {
    if fetches > 0 {
      CeilDivUnique(goal - start, b, fetches);
    }
  }

  // ---- Pulling all logs of all peers ----

  /** An entry of a peer's head listing: a head, or one that does not convert. */
  datatype Listed = BadHead | Head(head: TopicHead)

  /** A peer that cannot be reached or identified, or its listing and its answers for each listed log. */
  datatype Session = NoSession | Session(listing: seq<Listed>, logs: nat -> Peer)

  ghost predicate Reached(s: Store, listed: Listed) {
    listed.Head? ==> listed.head.headId <= CurrentHead(s, listed.head.Log())
  }

  ghost predicate HonestLog(session: Session, i: nat)
    requires session.Session? && i < |session.listing|
  {
    session.listing[i].Head? && HonestPeer(session.logs(i), session.listing[i].head)
  }

  ghost predicate LogPulled(s: Store, session: Session, i: nat)
    requires session.Session? && i < |session.listing|
  {
    HonestLog(session, i) ==> Reached(s, session.listing[i])
  }

  /** Of the first `n` logs a session lists, the store holds those it answers honestly for, up to the listed heads. */
  ghost predicate Pulled(s: Store, session: Session, n: nat)
    requires session.Session? && n <= |session.listing|
  {
    forall i: nat {:trigger LogPulled(s, session, i)} :: i < n ==> LogPulled(s, session, i)
  }

  lemma StaysPulled(s: Store, s': Store, session: Session, n: nat)
    requires session.Session? && n <= |session.listing| && Pulled(s, session, n) && Extends(s, s')
    ensures Pulled(s', session, n)
  {
    forall i: nat | i < n ensures LogPulled(s', session, i) {
      assert LogPulled(s, session, i);
    }
  }

  lemma PullsOn(s: Store, s': Store, session: Session, n: nat)
    requires session.Session? && n < |session.listing| && Pulled(s, session, n) && Extends(s, s')
    requires LogPulled(s', session, n)
    ensures Pulled(s', session, n + 1)
  {
    StaysPulled(s, s', session, n);
    forall i: nat | i < n + 1 ensures LogPulled(s', session, i) {
    }
  }

  /** How a peer's turn went: whether it succeeded, how many of its listed logs it got through, and the pulls made. */
  datatype Turn = Turn(ok: bool, stop: nat, pulls: seq<seq<Store>>)

  /**
   * A turn fails only for want of a session or at a log that is not answered honestly; the honest ones before are
   * pulled.
   */
  ghost predicate TurnOk(s: Store, session: Session, turn: Turn) {
    if session.NoSession? then !turn.ok
    else
      && turn.stop <= |session.listing| && Pulled(s, session, turn.stop)
      && (if turn.ok then turn.stop == |session.listing|
        else turn.stop < |session.listing| && !HonestLog(session, turn.stop))
  }

  /** The store after the first `n` pulls. */
  ghost function StoreAfter(s: Store, pulls: seq<seq<Store>>, n: nat): Store
    requires n <= |pulls|
  {
    if n == 0 || pulls[n - 1] == [] then s else pulls[n - 1][|pulls[n - 1]| - 1]
  }

  /** The pull of the log with number `i`, from where the one before left the store. */
  ghost predicate PullAt(s: Store, session: Session, limit: u32, pulls: seq<seq<Store>>, i: nat, ok: bool) {
    && session.Session? && i < |session.listing| && i < |pulls| && session.listing[i].Head? && pulls[i] != []
    && pulls[i][0] == StoreAfter(s, pulls, i)
    && IsPull(pulls[i], session.listing[i].head, limit, session.logs(i), ok)
  }

  ghost predicate PullsWell(s: Store, session: Session, limit: u32, pulls: seq<seq<Store>>, n: nat) {
    forall i: nat {:trigger PullAt(s, session, limit, pulls, i, true)} :: i < n ==>
      PullAt(s, session, limit, pulls, i, true)
  }

  /**
   * A turn takes one store to another. It succeeds exactly if there is a session, every entry of its listing is a head,
   * and the pull of every listed log, one after the other, ends well; otherwise it stops at the first that does not.
   */
  ghost predicate IsTurn(s: Store, s': Store, session: Session, limit: u32, turn: Turn) {
    if session.NoSession? then turn == Turn(false, 0, []) && s' == s
    else
      && turn.stop <= |session.listing| && PullsWell(s, session, limit, turn.pulls, turn.stop)
      && s' == StoreAfter(s, turn.pulls, |turn.pulls|)
      && (if turn.ok then turn.stop == |session.listing| == |turn.pulls|
          else if turn.stop < |session.listing| && session.listing[turn.stop].BadHead? then |turn.pulls| == turn.stop
          else |turn.pulls| == turn.stop + 1 && PullAt(s, session, limit, turn.pulls, turn.stop, false))
  }

  lemma StillPullsWell(s: Store, session: Session, limit: u32, pulls: seq<seq<Store>>, trail: seq<Store>, ok: bool)
    requires PullsWell(s, session, limit, pulls, |pulls|) && session.Session? && |pulls| < |session.listing|
    requires session.listing[|pulls|].Head? && trail != [] && trail[0] == StoreAfter(s, pulls, |pulls|)
    requires IsPull(trail, session.listing[|pulls|].head, limit, session.logs(|pulls|), ok)
    ensures PullsWell(s, session, limit, pulls + [trail], if ok then |pulls| + 1 else |pulls|)
    ensures PullAt(s, session, limit, pulls + [trail], |pulls|, ok)
    ensures StoreAfter(s, pulls + [trail], |pulls| + 1) == trail[|trail| - 1]
  {
    var longer := pulls + [trail];
    assert StoreAfter(s, longer, |pulls|) == StoreAfter(s, pulls, |pulls|);
    assert PullAt(s, session, limit, longer, |pulls|, ok);
    forall i: nat | i < |pulls| ensures PullAt(s, session, limit, longer, i, true) {
      assert PullAt(s, session, limit, pulls, i, true);
      assert StoreAfter(s, longer, i) == StoreAfter(s, pulls, i);
    }
  }

  /** `sync_peer`: the listed logs in turn, up to the first that fails. */
  method SyncPeer(store: StoreHandle, session: Session, batchLimit: u32) returns (ok: bool, ghost turn: Turn)
    requires Valid(store.state)
    modifies store
    ensures Valid(store.state) && Extends(old(store.state), store.state)
    ensures ok == turn.ok && TurnOk(store.state, session, turn)
    ensures IsTurn(old(store.state), store.state, session, Asked(batchLimit), turn)
  {
    if session.NoSession? {
      return false, Turn(false, 0, []);
    }
    var i := 0;
    ghost var pulls: seq<seq<Store>> := [];
    while i < |session.listing|
      invariant 0 <= i == |pulls| <= |session.listing| && Valid(store.state) && Extends(old(store.state), store.state)
      invariant Pulled(store.state, session, i)
      invariant PullsWell(old(store.state), session, Asked(batchLimit), pulls, i)
      invariant store.state == StoreAfter(old(store.state), pulls, i)
    {
      var listed, peer := session.listing[i], session.logs(i);
      if listed.BadHead? {
        return false, Turn(false, i, pulls);
      }
      label log:
      ghost var trail;
      var local, fetches, done;
      local, fetches, done, trail := SyncHead(store, listed.head, batchLimit, peer);
      ExtendsTransitive(old(store.state), old@log(store.state), store.state);
      StillPullsWell(old(store.state), session, Asked(batchLimit), pulls, trail, done);
      pulls := pulls + [trail];
      if !done {
        StaysPulled(old@log(store.state), store.state, session, i);
        return false, Turn(false, i, pulls);
      }
      PullsOn(old@log(store.state), store.state, session, i);
      i := i + 1;
    }
    return true, Turn(true, i, pulls);
  }

  ghost predicate TurnsOk(s: Store, sessions: seq<Session>, turns: seq<Turn>) {
    && |turns| <= |sessions|
    && forall i {:trigger TurnOk(s, sessions[i], turns[i])} :: 0 <= i < |turns| ==> TurnOk(s, sessions[i], turns[i])
  }

  lemma TurnsExtend(s: Store, s': Store, sessions: seq<Session>, turns: seq<Turn>, turn: Turn)
    requires TurnsOk(s, sessions, turns) && Extends(s, s') && |turns| < |sessions|
    requires TurnOk(s', sessions[|turns|], turn)
    ensures TurnsOk(s', sessions, turns + [turn])
  {
    forall i | 0 <= i <= |turns| ensures TurnOk(s', sessions[i], (turns + [turn])[i]) {
      if i < |turns| {
        assert TurnOk(s, sessions[i], turns[i]);
        if sessions[i].Session? {
          StaysPulled(s, s', sessions[i], turns[i].stop);
        }
      }
    }
  }

  method TryPeer(store: StoreHandle, sessions: seq<Session>, i: nat, batchLimit: u32, ghost start: Store,
      ghost turns: seq<Turn>)
    returns (ok: bool, ghost turn: Turn)
    requires Valid(store.state) && Extends(start, store.state) && TurnsOk(store.state, sessions, turns)
    requires i == |turns| < |sessions|
    modifies store
    ensures Valid(store.state) && Extends(start, store.state) && TurnsOk(store.state, sessions, turns + [turn])
    ensures ok == turn.ok && IsTurn(old(store.state), store.state, sessions[i], Asked(batchLimit), turn)
  {
    ok, turn := SyncPeer(store, sessions[i], batchLimit);
    ExtendsTransitive(start, old(store.state), store.state);
    TurnsExtend(old(store.state), store.state, sessions, turns, turn);
  }

  ghost predicate IsFirstError(turns: seq<Turn>, firstError: nat) {
    firstError <= |turns| && (forall i ::
      0 <= i < firstError ==> turns[i].ok) && (firstError < |turns| ==> !turns[firstError].ok)
  }

  /** The turns were taken one after the other, each from the store the one before left. */
  ghost predicate TurnsTaken(stores: seq<Store>, sessions: seq<Session>, limit: u32, turns: seq<Turn>) {
    && |stores| == |turns| + 1 && |turns| <= |sessions|
    && forall i {:trigger TurnAt(stores, sessions, limit, turns, i)} :: 0 <= i < |turns| ==>
         TurnAt(stores, sessions, limit, turns, i)
  }

  ghost predicate TurnAt(stores: seq<Store>, sessions: seq<Session>, limit: u32, turns: seq<Turn>, i: nat)
    requires i < |turns| && i < |sessions| && i + 1 < |stores|
  {
    IsTurn(stores[i], stores[i + 1], sessions[i], limit, turns[i])
  }

  lemma OneMoreTurn(stores: seq<Store>, s: Store, sessions: seq<Session>, limit: u32, turns: seq<Turn>, turn: Turn)
    requires TurnsTaken(stores, sessions, limit, turns) && |turns| < |sessions|
    requires IsTurn(stores[|turns|], s, sessions[|turns|], limit, turn)
    ensures TurnsTaken(stores + [s], sessions, limit, turns + [turn])
  {
    var stores', turns' := stores + [s], turns + [turn];
    forall i | 0 <= i < |turns'| ensures TurnAt(stores', sessions, limit, turns', i) {
      if i < |turns| {
        assert TurnAt(stores, sessions, limit, turns, i);
      }
    }
  }

  /**
   * `sync_once`: every peer gets its turn, whatever the others do, and the first that failed is reported. Each
   * peer's honest logs are pulled up to the point where its own turn failed, if it did.
   */
  method SyncOnce(store: StoreHandle, sessions: seq<Session>, batchLimit: u32)
    returns (firstError: nat, ghost turns: seq<Turn>, ghost stores: seq<Store>)
    requires Valid(store.state)
    modifies store
    ensures Valid(store.state) && Extends(old(store.state), store.state)
    ensures |turns| == |sessions| && TurnsOk(store.state, sessions, turns) && IsFirstError(turns, firstError)
    ensures TurnsTaken(stores, sessions, Asked(batchLimit), turns)
    ensures stores[0] == old(store.state) && stores[|sessions|] == store.state
  {
    firstError, turns, stores := 0, [], [store.state];
    ghost var start := store.state;
    var failed, i := false, 0;
    while i < |sessions|
      invariant 0 <= i == |turns| <= |sessions| && Valid(store.state) && Extends(start, store.state)
      invariant TurnsOk(store.state, sessions, turns)
      invariant TurnsTaken(stores, sessions, Asked(batchLimit), turns) && stores[0] == start && stores[i] == store.state
      invariant IsFirstError(turns, firstError) && (failed <==> firstError < i)
    {
      ghost var turn;
      var ok;
      ok, turn := TryPeer(store, sessions, i, batchLimit, start, turns);
      OneMoreTurn(stores, store.state, sessions, Asked(batchLimit), turns, turn);
      turns, stores := turns + [turn], stores + [store.state];
      if !failed {
        failed, firstError := !ok, if ok then i + 1 else i;
      }
      i := i + 1;
    }
  }
}
