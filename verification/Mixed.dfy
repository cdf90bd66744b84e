/**
 * Clusters in which each daemon keeps its store in redb or in SQLite. A SQLite store does what the contract says or
 * fails and stays as it was, so every run of a mixed cluster is a run of the cluster with failures.
 */
module Mixed {
  import opened Domain
  import opened StoreModel
  import opened StoreLaws
  import opened Cluster
  import opened ClusterInvariant
  import opened ClusterSafety
  import Portability
  import Server
  import Sqlite

  datatype Backend = OnRedb | OnSqlite

  /** Which backend each node runs. */
  type Fleet = map<NodeId, Backend>

  function Operate(b: Backend, s: Store, op: Op): (Store, Reply) {
    if b.OnRedb? then Step(s, op) else Sqlite.SqlStep(s, op)
  }

  // ---- The steps of a daemon, as operations on its backend ----

  function PublishOn(b: Backend, n: NodeId, s: Store, post: Server.PublishRequest, id: string, now: u64): Store {
    if Server.ApplicationTopic(post.topic).Err? || Server.OwnedOrigin(n, post.origin).Err? then s
    else Operate(b, s, AppendOp(NewMessage(id, post.topic, n, post.payload, post.headers), now)).0
  }

  function RangeOf(n: NodeId, cut: Server.DeleteRequest, createdAt: u64): TombstoneRange {
    TombstoneRange(cut.topic, n, cut.from, cut.to, createdAt)
  }

  function DeleteOn(b: Backend, n: NodeId, s: Store, cut: Server.DeleteRequest, id: string, createdAt: u64,
      now: u64): Store {
    if Server.ApplicationTopic(cut.topic).Err? || Server.OwnedOrigin(n, cut.origin).Err? then s
    else Operate(b, s, DeleteOp(RangeOf(n, cut, createdAt), DELETE_TOPIC, n, id, now)).0
  }

  function RangeOp(range: TombstoneRange, clock: u64): Op {
    TombstoneOp(range.topic, range.origin, range.from, range.to, clock)
  }

  /** `apply_control_message` on a backend. */
  function ControlOn(b: Backend, s: Store, m: StoredMessage, clock: u64): (Store, bool) {
    if m.topic != DELETE_TOPIC || m.deleted then (s, true)
    else if !m.payload.Encoded? || m.origin != m.payload.range.origin then (s, false)
    else
      var (s', reply) := Operate(b, s, RangeOp(m.payload.range, clock));
      (s', !reply.Failed?)
  }

  function FetchOn(b: Backend, s: Store, task: Task, limit: u32): Task
    requires task.Syncing? && task.phase.Pulling?
  {
    var head, local := task.phase.head, task.phase.local;
    var reply := Operate(b, s, FetchOp(head.topic, head.origin, Next(local), Max(limit, 1))).1;
    if !reply.Fetched? then Idle
    else task.(phase := if reply.messages == [] then Choosing else Pulling(head, local, reply.messages))
  }

  function PutOn(b: Backend, s: Store, task: Task): (Store, Task)
    requires task.Syncing? && task.phase.Pulling? && task.phase.batch != []
  {
    var m := task.phase.batch[0];
    if m.topic != task.phase.head.topic || m.origin != task.phase.head.origin then (s, Idle)
    else
      var (s', reply) := Operate(b, s, PutOp(m));
      (s', if reply.Failed? then Idle
           else task.(phase := Applying(task.phase.head, task.phase.local, m, task.phase.batch[1..])))
  }

  function ApplyOn(b: Backend, s: Store, task: Task, clock: u64): (Store, Task)
    requires task.Syncing? && task.phase.Applying?
  {
    var (s', ok) := ControlOn(b, s, task.phase.message, clock);
    (s', if !ok then Idle
         else task.(phase := Pulling(task.phase.head, Max(task.phase.local, task.phase.message.headId),
             task.phase.batch)))
  }

  /** A backend acts on every marker a store holds. */
  predicate TakesMarkers(b: Backend, s: Store, clock: u64) {
    forall slot :: slot in s.messages && s.messages[slot].IsMarker() ==> ControlOn(b, s, s.messages[slot], clock).1
  }

  /** A daemon serves only after its replay succeeded; one that fails leaves it down. */
  function RestartOn(b: Backend, s: Store, clock: u64): (Store, Task) {
    if TakesMarkers(b, s, clock) then (Erase(s, Markers(s)), Idle) else (s, Down)
  }

  predicate Covers(fleet: Fleet, c: Cluster) {
    c.stores.Keys <= fleet.Keys
  }

  /** A step of the cluster on its nodes' own backends; `clock` is what a clock reads during it. */
  function DoOn(fleet: Fleet, c: Cluster, e: Event, clock: u64): Cluster
    requires Enabled(c, e) && Covers(fleet, c)
  {
    var n := e.node;
    var s, task, b := c.stores[n], c.tasks[n], fleet[n];
    match e
    case Publish(_, post, id, now) => With(c, n, PublishOn(b, n, s, post, id, now), task)
    case Delete(_, cut, id, createdAt, now) => With(c, n, DeleteOn(b, n, s, cut, id, createdAt, now), task)
    case Fetch(_, limit) => With(c, n, s, FetchOn(fleet[task.peer], c.stores[task.peer], task, limit))
    case Put(_) =>
      var (s', task') := PutOn(b, s, task);
      With(c, n, s', task')
    case Apply(_) =>
      var (s', task') := ApplyOn(b, s, task, clock);
      With(c, n, s', task')
    case ReplayOne(_, slot) => With(c, n, ControlOn(b, s, s.messages[slot], clock).0, Down)
    case Restart(_) =>
      var (s', task') := RestartOn(b, s, clock);
      With(c, n, s', task')
    case Start(_, _, _) => Do(c, e)
    case NextHead(_) => Do(c, e)
    case EndHead(_) => Do(c, e)
    case Finish(_) => Do(c, e)
    case Abort(_) => Do(c, e)
    case Crash(_) => Do(c, e)
  }

  // ---- A step of a mixed cluster does what the contract says or fails ----

  lemma OperatesOrFails(b: Backend, s: Store, op: Op)
    ensures Operate(b, s, op) == Step(s, op) || (Operate(b, s, op).0 == s && Operate(b, s, op).1.Failed?)
  {
    Portability.DoesOrFails(s, op);
  }

  lemma ControlsOrFails(b: Backend, s: Store, m: StoredMessage, clock: u64)
    ensures || ControlOn(b, s, m, clock) == (ApplyControl(s, m).0, ApplyControl(s, m).1.Ok?)
            || ControlOn(b, s, m, clock) == (s, false)
  {
    if m.payload.Encoded? {
      OperatesOrFails(b, s, RangeOp(m.payload.range, clock));
    }
  }

  lemma WritesOrFails(fleet: Fleet, c: Cluster, e: Event, clock: u64)
    requires Enabled(c, e) && Covers(fleet, c) && (e.Publish? || e.Delete?)
    ensures Attempts(c, e, DoOn(fleet, c, e, clock))
  {
    var n, s := e.node, c.stores[e.node];
    if e.Publish? {
      OperatesOrFails(fleet[n], s, AppendOp(NewMessage(e.id, e.post.topic, n, e.post.payload, e.post.headers), e.now));
    } else {
      OperatesOrFails(fleet[n], s, DeleteOp(RangeOf(n, e.cut, e.createdAt), DELETE_TOPIC, n, e.id, e.now));
    }
  }

  /** Whatever the mix of backends, a step does what it does on the storage contract or fails and writes nothing. */
  lemma MixedStepAttempts(fleet: Fleet, c: Cluster, e: Event, clock: u64)
    requires Enabled(c, e) && Covers(fleet, c)
    ensures Attempts(c, e, DoOn(fleet, c, e, clock))
  {
    var n := e.node;
    var s, task := c.stores[n], c.tasks[n];
    match e
    case Publish(_, _, _, _) => WritesOrFails(fleet, c, e, clock);
    case Delete(_, _, _, _, _) => WritesOrFails(fleet, c, e, clock);
    case Fetch(_, limit) =>
      var head, local := task.phase.head, task.phase.local;
      OperatesOrFails(fleet[task.peer], c.stores[task.peer],
          FetchOp(head.topic, head.origin, Next(local), Max(limit, 1)));
    case Put(_) => OperatesOrFails(fleet[n], s, PutOp(task.phase.batch[0]));
    case Apply(_) => ControlsOrFails(fleet[n], s, task.phase.message, clock);
    case ReplayOne(_, slot) => ControlsOrFails(fleet[n], s, s.messages[slot], clock);
    case _ =>
  }

  // ---- Runs of a mixed cluster ----

  ghost predicate MovesOnAt(fleet: Fleet, t: Trace, clocks: seq<u64>, i: nat)
    requires |t.states| == |t.events| + 1 == |clocks| + 1 && i < |t.events|
  {
    MovesOn(fleet, t.states[i], t.events[i], clocks[i], t.states[i + 1])
  }

  ghost predicate MovesOn(fleet: Fleet, c: Cluster, e: Event, clock: u64, c': Cluster) {
    Enabled(c, e) && Covers(fleet, c) && c' == DoOn(fleet, c, e, clock)
  }

  ghost predicate IsMixedRun(fleet: Fleet, t: Trace, clocks: seq<u64>) {
    && |t.states| == |t.events| + 1 == |clocks| + 1 && IsInit(t.states[0])
    && forall i {:trigger MovesOnAt(fleet, t, clocks, i)} :: 0 <= i < |t.events| ==> MovesOnAt(fleet, t, clocks, i)
  }

  /** Every run of every mix of backends is a run of the cluster in which some steps fail. */
  lemma MixedRunIsRun(fleet: Fleet, t: Trace, clocks: seq<u64>)
    requires IsMixedRun(fleet, t, clocks)
    ensures IsRun(t) && forall i :: 0 <= i < |t.states| ==> Reachable(t.states[i])
  {
    forall i | 0 <= i < |t.events| ensures AttemptsAt(t, i) {
      assert MovesOnAt(fleet, t, clocks, i);
      MixedStepAttempts(fleet, t.states[i], t.events[i], clocks[i]);
    }
    forall i | 0 <= i < |t.states| ensures Reachable(t.states[i]) {
      PartOfRun(t, i);
    }
  }

  /**
   * So, at any point of any such run, what a node holds its origin holds too, up to the deleted flag, with the whole
   * log before it, and it is deleted only if a marker in the origin's own delete log covers it.
   */
  lemma MixedRunsAreSafe(fleet: Fleet, t: Trace, clocks: seq<u64>, i: nat, n: NodeId, slot: Slot)
    requires IsMixedRun(fleet, t, clocks) && i < |t.states| && n in t.states[i].stores
    requires slot in t.states[i].stores[n].messages
    ensures var c := t.states[i];
            var m := c.stores[n].messages[slot];
            && m.origin in c.stores && slot in c.stores[m.origin].messages
            && m.Same(c.stores[m.origin].messages[slot])
            && CurrentHead(c.stores[n], slot.log) <= CurrentHead(c.stores[m.origin], slot.log)
            && (m.deleted ==> exists h :: MarkedByOrigin(c, slot, m.origin, h))
  {
    var c := t.states[i];
    MixedRunIsRun(fleet, t, clocks);
    ReachableInv(c);
    assert NodeOk(c, n, c.stores[n], c.tasks[n]);
    var m := c.stores[n].messages[slot];
    assert Genuine(c, m) && m.Position() == slot;
    BehindOrigin(c, n, m.origin, slot.log);
    if m.deleted {
      DeletedOnlyByOrigin(c, n, slot);
    }
  }
}
