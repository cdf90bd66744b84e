/**
 * A cluster of daemons as a state machine. Each daemon owns a store and at most one peer-sync task;
 * the steps of a task (advertise, fetch, store, apply) interleave freely with every other daemon's
 * steps, with client writes, with lost connections and with crashes.
 */
module Cluster {
  import opened Domain
  import opened StoreModel
  import Server

  /** Where a sync task stands. A batch is a snapshot of the peer's log taken when it was fetched. */
  datatype Phase =
    | Choosing
    | Pulling(head: TopicHead, local: u64, batch: seq<StoredMessage>)
    | Applying(head: TopicHead, local: u64, message: StoredMessage, batch: seq<StoredMessage>)

  datatype Task =
    | Down
    | Idle
    | Syncing(peer: NodeId, todo: seq<TopicHead>, phase: Phase)

  datatype Cluster = Cluster(stores: map<NodeId, Store>, tasks: map<NodeId, Task>)

  datatype Event =
    | Publish(node: NodeId, post: Server.PublishRequest, id: string, now: u64)
    | Delete(node: NodeId, cut: Server.DeleteRequest, id: string, createdAt: u64, now: u64)
    | Start(node: NodeId, peer: NodeId, listing: seq<TopicHead>)
    | NextHead(node: NodeId)
    | Fetch(node: NodeId, limit: u32)
    | Put(node: NodeId)
    | Apply(node: NodeId)
    | EndHead(node: NodeId)
    | Finish(node: NodeId)
    | Abort(node: NodeId)
    | Crash(node: NodeId)
    | ReplayOne(node: NodeId, slot: Slot)
    | Restart(node: NodeId)

  predicate Serving(c: Cluster, n: NodeId) {
    n in c.stores && n in c.tasks && !c.tasks[n].Down?
  }

  predicate InPhase(c: Cluster, n: NodeId) {
    Serving(c, n) && c.tasks[n].Syncing?
  }

  /** The listing names the store's heads, in some order. */
  predicate Lists(listing: seq<TopicHead>, s: Store) {
    var heads := ListHeads(s);
    heads.Ok? && (set h | h in listing) == heads.value
  }

  /** When a step can be taken. Heads are assumed to stay below the largest 64-bit value. */
  predicate Enabled(c: Cluster, e: Event) {
    match e
    case Publish(n, post, _, _) => Serving(c, n) && CurrentHead(c.stores[n], LogKey(post.topic, n.Key())) < U64_MAX
    case Delete(n, _, _, _, _) => Serving(c, n) && CurrentHead(c.stores[n], LogKey(DELETE_TOPIC, n.Key())) < U64_MAX
    case Start(n, p, listing) =>
      Serving(c, n) && c.tasks[n].Idle? && Serving(c, p) && p != n && Lists(listing, c.stores[p])
    case NextHead(n) => InPhase(c, n) && c.tasks[n].phase.Choosing? && c.tasks[n].todo != []
    case Fetch(n, _) =>
      InPhase(c, n) && c.tasks[n].phase.Pulling? && c.tasks[n].phase.batch == []
      && c.tasks[n].phase.local < c.tasks[n].phase.head.headId && Serving(c, c.tasks[n].peer)
    case Put(n) => InPhase(c, n) && c.tasks[n].phase.Pulling? && c.tasks[n].phase.batch != []
    case Apply(n) => InPhase(c, n) && c.tasks[n].phase.Applying?
    case EndHead(n) =>
      InPhase(c, n) && c.tasks[n].phase.Pulling? && c.tasks[n].phase.batch == []
      && c.tasks[n].phase.head.headId <= c.tasks[n].phase.local
    case Finish(n) => InPhase(c, n) && c.tasks[n].phase.Choosing? && c.tasks[n].todo == []
    case Abort(n) => InPhase(c, n) && !c.tasks[n].phase.Applying?
    case Crash(n) => Serving(c, n)
    case ReplayOne(n, slot) => n in c.stores && n in c.tasks && c.tasks[n].Down? && slot in c.stores[n].messages
    case Restart(n) => n in c.stores && n in c.tasks && c.tasks[n].Down? && ReplayEnds(c.stores[n])
  }

  /** The startup replay ends: no delete log stands at the largest head, where it reads the last page for ever. */
  predicate ReplayEnds(s: Store) {
    forall log :: log in s.heads && log.topic == DELETE_TOPIC ==> s.heads[log] < U64_MAX
  }

  function With(c: Cluster, n: NodeId, s: Store, task: Task): Cluster {
    Cluster(c.stores[n := s], c.tasks[n := task])
  }

  /** One iteration of the batch loop up to the store write; a refused message ends the sync. */
  function PutStep(s: Store, task: Task): (Store, Task)
    requires task.Syncing? && task.phase.Pulling? && task.phase.batch != []
  {
    var m := task.phase.batch[0];
    if m.topic != task.phase.head.topic || m.origin != task.phase.head.origin then
      (s, Idle)
    else
      var (s', r) := PutReplicated(s, m);
      (s', if r.Err? then Idle
        else task.(phase := Applying(task.phase.head, task.phase.local, m, task.phase.batch[1..])))
  }

  /** The rest of the iteration: act on a delete marker and move on to the next message. */
  function ApplyStep(s: Store, task: Task): (Store, Task)
    requires task.Syncing? && task.phase.Applying?
  {
    var (s', r) := ApplyControl(s, task.phase.message);
    (s', if r.Err? then Idle
         else task.(phase := Pulling(task.phase.head, Max(task.phase.local, task.phase.message.headId),
             task.phase.batch)))
  }

  function Do(c: Cluster, e: Event): Cluster
    requires Enabled(c, e)
  {
    var n := e.node;
    var s, task := c.stores[n], c.tasks[n];
    match e
    case Publish(_, post, id, now) => With(c, n, Server.Publish(n, s, post, id, now).0, task)
    case Delete(_, cut, id, createdAt, now) => With(c, n, Server.DeleteRange(n, s, cut, id, createdAt, now).0, task)
    case Start(_, p, listing) => With(c, n, s, Syncing(p, listing, Choosing))
    case NextHead(_) =>
      var head := task.todo[0];
      With(c, n, s, Syncing(task.peer, task.todo[1..], Pulling(head, CurrentHead(s, head.Log()), [])))
    case Fetch(_, limit) =>
      var batch := Page(c.stores[task.peer], task.phase.head.Log(), Next(task.phase.local),
          EffectiveLimit(Max(limit, 1)));
      With(c, n, s, task.(phase := if batch == [] then Choosing else Pulling(task.phase.head, task.phase.local, batch)))
    case Put(_) =>
      var (s', task') := PutStep(s, task);
      With(c, n, s', task')
    case Apply(_) =>
      var (s', task') := ApplyStep(s, task);
      With(c, n, s', task')
    case EndHead(_) => With(c, n, s, task.(phase := Choosing))
    case Finish(_) => With(c, n, s, Idle)
    case Abort(_) => With(c, n, s, Idle)
    case Crash(_) => With(c, n, s, Down)
    case ReplayOne(_, slot) => With(c, n, ApplyControl(s, s.messages[slot]).0, Down)
    case Restart(_) => With(c, n, Erase(s, Markers(s)), Idle)
  }

  /** The steps that read or write a store, which may fail. */
  predicate Fallible(e: Event) {
    !e.EndHead? && !e.Finish? && !e.Abort? && !e.Crash?
  }

  /** What a step leaves when its store operation fails: nothing written, a running sync ended, a daemon still down. */
  function Fail(c: Cluster, e: Event): Cluster
    requires Enabled(c, e)
  {
    var ends := e.NextHead? || e.Fetch? || e.Put? || e.Apply?;
    With(c, e.node, c.stores[e.node], if ends then Idle else c.tasks[e.node])
  }

  predicate IsInit(c: Cluster) {
    && c.tasks.Keys == c.stores.Keys
    && (forall n :: n in c.stores ==> c.stores[n] == EMPTY && c.tasks[n] == Idle)
    && (forall a, b :: a in c.stores && b in c.stores && a.Key() == b.Key() ==> a == b)
  }

  predicate Moves(c: Cluster, e: Event, c': Cluster) {
    Enabled(c, e) && c' == Do(c, e)
  }

  /** The step does what it is meant to, or fails. */
  predicate Attempts(c: Cluster, e: Event, c': Cluster) {
    Enabled(c, e) && (c' == Do(c, e) || (Fallible(e) && c' == Fail(c, e)))
  }

  /** The states a run passes through and the steps between them. */
  datatype Trace = Trace(states: seq<Cluster>, events: seq<Event>)

  predicate MovesAt(t: Trace, i: nat)
    requires |t.states| == |t.events| + 1 && i < |t.events|
  {
    Moves(t.states[i], t.events[i], t.states[i + 1])
  }

  predicate AttemptsAt(t: Trace, i: nat)
    requires |t.states| == |t.events| + 1 && i < |t.events|
  {
    Attempts(t.states[i], t.events[i], t.states[i + 1])
  }

  /** A run, any of whose store operations may fail. */
  predicate IsRun(t: Trace) {
    |t.states| == |t.events| + 1 && forall i :: 0 <= i < |t.events| ==> AttemptsAt(t, i)
  }

  /** A run in which none fails. */
  predicate IsTrace(t: Trace) {
    |t.states| == |t.events| + 1 && forall i :: 0 <= i < |t.events| ==> MovesAt(t, i)
  }

  lemma TraceIsRun(t: Trace)
    requires IsTrace(t)
    ensures IsRun(t)
  {
    forall i | 0 <= i < |t.events| ensures AttemptsAt(t, i) {
      assert MovesAt(t, i);
    }
  }

  function End(t: Trace): Cluster
    requires t.states != []
  {
    t.states[|t.states| - 1]
  }
}
