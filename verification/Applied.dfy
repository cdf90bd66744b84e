/** Delete markers take effect: which of its markers a node that is up has not acted on. */
module Applied {
  import opened Domain
  import opened StoreModel
  import opened StoreLaws
  import opened Cluster
  import opened ClusterInvariant
  import Server

  /** The range a sync has stored the marker of and is about to delete. */
  function Pending(task: Task): set<Span> {
    if task.Syncing? && task.phase.Applying? then Extents(task.phase.message) else {}
  }

  /** The ranges whose markers a node that is up holds, has not recorded, and is not about to record. */
  function Overdue(s: Store, task: Task): set<Span> {
    if task.Down? then {} else Markers(s) - s.tombstones - Pending(task)
  }

  ghost predicate NothingOverdue(c: Cluster) {
    forall n {:trigger c.tasks[n]} :: n in c.stores && n in c.tasks ==> Overdue(c.stores[n], c.tasks[n]) == {}
  }

  /** A node that is up and not between storing a marker and acting on it; it may well be syncing. */
  ghost predicate Settled(c: Cluster, n: NodeId) {
    Serving(c, n) && Pending(c.tasks[n]) == {}
  }

  ghost predicate AllSettled(c: Cluster) {
    forall n {:trigger Settled(c, n)} :: n in c.stores ==> Settled(c, n)
  }

  /** A settled node has deleted what a marker it holds covers, unless the marker is overdue. */
  lemma RecordedUnlessOverdue(c: Cluster, n: NodeId, at: Slot)
    requires Inv(c) && Settled(c, n) && at in c.stores[n].messages && c.stores[n].messages[at].IsMarker()
    ensures var t := c.stores[n].messages[at].payload.range.Extent();
            && (t in c.stores[n].tombstones <==> t !in Overdue(c.stores[n], c.tasks[n]))
            && (t in c.stores[n].tombstones ==> forall slot ::
                  slot in c.stores[n].messages && t.Covers(slot) ==> c.stores[n].messages[slot].deleted)
  {
    var s := c.stores[n];
    assert NodeOk(c, n, s, c.tasks[n]);
    var t := s.messages[at].payload.range.Extent();
    assert t in Markers(s);
    forall slot | t in s.tombstones && slot in s.messages && t.Covers(slot) ensures s.messages[slot].deleted {
      assert CoveredBy(s.tombstones, slot);
    }
  }

  /** A restart leaves nothing overdue, whatever was before. */
  lemma RestartLeavesNothingOverdue(s: Store)
    ensures Overdue(Erase(s, Markers(s)), Idle) == {}
  {
  }

  lemma PublishLeavesOverdue(s: Store, message: NewMessage, now: u64, task: Task)
    requires message.topic != DELETE_TOPIC
    ensures Overdue(Append(s, message, now).0, task) <= Overdue(s, task)
  {
  }

  lemma DeleteLeavesOverdue(s: Store, range: TombstoneRange, id: string, now: u64, task: Task)
    ensures Overdue(TombstoneWithMarker(s, range, DELETE_TOPIC, range.origin, id, now).0, task) <= Overdue(s, task)
  {
  }

  /** A marker just stored is pending. */
  lemma PutLeavesOverdue(s: Store, task: Task)
    requires task.Syncing? && task.phase.Pulling? && task.phase.batch != []
    ensures Overdue(PutStep(s, task).0, PutStep(s, task).1) <= Overdue(s, task)
  {
  }

  /** A pending marker is recorded. */
  lemma ApplyLeavesOverdue(s: Store, task: Task)
    requires task.Syncing? && task.phase.Applying?
    ensures Overdue(ApplyStep(s, task).0, ApplyStep(s, task).1) <= Overdue(s, task)
  {
  }

  /** A step that succeeds leaves no marker unapplied that was not so before. */
  lemma StepLeavesOverdue(c: Cluster, e: Event)
    requires Enabled(c, e)
    ensures Overdue(Do(c, e).stores[e.node], Do(c, e).tasks[e.node]) <= Overdue(c.stores[e.node], c.tasks[e.node])
  {
    var n := e.node;
    var s, task := c.stores[n], c.tasks[n];
    match e
    case Publish(_, post, id, now) =>
      if Server.ApplicationTopic(post.topic).Ok? {
        PublishLeavesOverdue(s, NewMessage(id, post.topic, n, post.payload, post.headers), now, task);
      }
    case Delete(_, cut, id, createdAt, now) =>
      DeleteLeavesOverdue(s, TombstoneRange(cut.topic, n, cut.from, cut.to, createdAt), id, now, task);
    case Put(_) => PutLeavesOverdue(s, task);
    case Apply(_) => ApplyLeavesOverdue(s, task);
    case Restart(_) => RestartLeavesNothingOverdue(s);
    case _ =>
  }

  /** One that fails leaves at most the marker behind that it was to act on. */
  lemma FailLeavesOverdue(c: Cluster, e: Event)
    requires Enabled(c, e)
    ensures Overdue(Fail(c, e).stores[e.node], Fail(c, e).tasks[e.node])
            <= Overdue(c.stores[e.node], c.tasks[e.node]) + if e.Apply? then Pending(c.tasks[e.node]) else {}
  {
  }

  lemma StepKeepsApplied(c: Cluster, e: Event)
    requires Enabled(c, e) && NothingOverdue(c)
    ensures NothingOverdue(Do(c, e))
  {
    StepLeavesOverdue(c, e);
  }

  /** In a run in which nothing fails, no marker of a node that is up is ever left unapplied. */
  lemma {:induction false} TraceKeepsApplied(t: Trace, i: nat)
    requires IsTrace(t) && IsInit(t.states[0]) && i < |t.states|
    ensures Inv(t.states[i]) && NothingOverdue(t.states[i])
  {
    if i == 0 {
      InitInv(t.states[0]);
    } else {
      TraceKeepsApplied(t, i - 1);
      assert MovesAt(t, i - 1);
      StepKeepsInv(t.states[i - 1], t.events[i - 1]);
      StepKeepsApplied(t.states[i - 1], t.events[i - 1]);
    }
  }
}
