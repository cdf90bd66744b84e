/**
 * Nothing blocks convergence: a sync left alone finishes, so write-free rounds always exist, from every state that any
 * run reaches.
 */
module Progress {
  import opened Domain
  import opened StoreModel
  import opened StoreLaws
  import opened Cluster
  import opened ClusterInvariant
  import opened Applied
  import opened Convergence
  import Server

  function Gap(phase: Phase): nat {
    if phase.Choosing? || phase.head.headId <= phase.local then 0 else phase.head.headId - phase.local
  }

  /** Work left in the current batch: decreases until the gap does, or until the batch is used up. */
  function Work(phase: Phase): nat {
    match phase
    case Choosing => 0
    case Pulling(_, _, batch) => if Gap(phase) == 0 then 2 * |batch| + 1 else if batch == [] then 2 else 1
    case Applying(_, _, _, batch) => if Gap(phase) == 0 then 2 * |batch| + 2 else 0
  }

  /** The next step of a running sync task. */
  function NextStep(task: Task, n: NodeId): Event
    requires task.Syncing?
  {
    match task.phase
    case Choosing => if task.todo == [] then Finish(n) else NextHead(n)
    case Applying(_, _, _, _) => Apply(n)
    case Pulling(head, local, batch) =>
      if batch != [] then Put(n) else if local < head.headId then Fetch(n, 0) else EndHead(n)
  }

  ghost predicate Progressed(c: Cluster, c': Cluster, n: NodeId, finished: bool) {
    && n in c.tasks && n in c'.tasks && c'.tasks == c.tasks[n := c'.tasks[n]] && c'.stores.Keys == c.stores.Keys
    && if finished then c'.tasks[n] == Idle
       else
         && c.tasks[n].Syncing? && c'.tasks[n].Syncing? && c'.tasks[n].peer == c.tasks[n].peer
         && Decreases(c.tasks[n], c'.tasks[n])
  }

  ghost predicate AllIdle(c: Cluster) {
    forall n :: n in c.stores ==> n in c.tasks && c.tasks[n].Idle?
  }

  /** A node with nothing to do and every marker applied. */
  ghost predicate AtRest(c: Cluster, n: NodeId) {
    n in c.stores && n in c.tasks && c.tasks[n].Idle? && Overdue(c.stores[n], c.tasks[n]) == {}
  }

  lemma IdleIsSettled(c: Cluster)
    requires AllIdle(c)
    ensures AllSettled(c)
  {
    forall n | n in c.stores ensures Settled(c, n) {
    }
  }

  lemma PullingProgresses(c: Cluster, n: NodeId)
    requires Inv(c) && InPhase(c, n) && Serving(c, c.tasks[n].peer) && c.tasks[n].phase.Pulling?
    ensures Enabled(c, NextStep(c.tasks[n], n)) && Progressed(c, Do(c, NextStep(c.tasks[n], n)), n, false)
  {
    var task := c.tasks[n];
    assert NodeOk(c, n, c.stores[n], task);
    if task.phase.batch != [] {
      PutSucceeds(c, n);
    } else if task.phase.local < task.phase.head.headId {
      FetchBatch(c, n, 0);
    }
  }

  lemma ApplyingProgresses(c: Cluster, n: NodeId)
    requires Inv(c) && InPhase(c, n) && c.tasks[n].phase.Applying?
    ensures Enabled(c, Apply(n)) && Progressed(c, Do(c, Apply(n)), n, false)
  {
    var task := c.tasks[n];
    assert NodeOk(c, n, c.stores[n], task);
    ApplyKeepsInv(c, n);
    assert task.phase.local < task.phase.message.headId;
  }

  lemma NextStepProgresses(c: Cluster, n: NodeId)
    requires Inv(c) && InPhase(c, n) && Serving(c, c.tasks[n].peer)
    ensures var e := NextStep(c.tasks[n], n);
            && Enabled(c, e) && e.node == n && !e.Publish? && !e.Delete? && !e.Crash? && !e.Abort?
            && Progressed(c, Do(c, e), n, e.Finish?)
  {
    match c.tasks[n].phase
    case Choosing =>
    case Pulling(_, _, _) => PullingProgresses(c, n);
    case Applying(_, _, _, _) => ApplyingProgresses(c, n);
  }

  ghost predicate Decreases(task: Task, task': Task)
    requires task.Syncing? && task'.Syncing?
  {
    || |task'.todo| < |task.todo|
    || (|task'.todo| == |task.todo| && task'.phase.Choosing? && !task.phase.Choosing?)
    || (|task'.todo| == |task.todo| && task'.phase.Choosing? == task.phase.Choosing?
        && (Gap(task'.phase) < Gap(task.phase) || (Gap(task'.phase) == Gap(task.phase) &&
          Work(task'.phase) < Work(task.phase))))
  }

  // ---- What can happen at any time ----

  /** A node that is up can take a write at any point of its sync, as long as its log has room; it does what it does. */
  lemma WritesAreSteps(c: Cluster, n: NodeId, post: Server.PublishRequest, cut: Server.DeleteRequest, id: string,
      createdAt: u64, now: u64)
    requires n in c.stores && n in c.tasks && !c.tasks[n].Down?
    ensures var e := Publish(n, post, id, now);
            CurrentHead(c.stores[n], LogKey(post.topic, n.Key())) < U64_MAX ==>
              && Enabled(c, e)
              && Do(c, e) == Cluster(c.stores[n := Server.Publish(n, c.stores[n], post, id, now).0], c.tasks)
    ensures var e := Delete(n, cut, id, createdAt, now);
            CurrentHead(c.stores[n], LogKey(DELETE_TOPIC, n.Key())) < U64_MAX ==>
              && Enabled(c, e)
              && Do(c, e) ==
                 Cluster(c.stores[n := Server.DeleteRange(n, c.stores[n], cut, id, createdAt, now).0], c.tasks)
  {
  }

  /** A node that is up can go down at any point, and one that is down can act on any message it holds meanwhile. */
  lemma CrashesAreSteps(c: Cluster, n: NodeId, slot: Slot)
    requires n in c.stores && n in c.tasks
    ensures !c.tasks[n].Down? ==> Enabled(c, Crash(n)) && Do(c, Crash(n)) == Cluster(c.stores, c.tasks[n := Down])
    ensures c.tasks[n].Down? && slot in c.stores[n].messages ==>
              && Enabled(c, ReplayOne(n, slot))
              && Do(c, ReplayOne(n, slot)) ==
                 Cluster(c.stores[n := ApplyControl(c.stores[n], c.stores[n].messages[slot]).0], c.tasks)
  {
  }

  // ---- Continuing a run ----

  function Then(t: Trace, e: Event, c: Cluster): Trace {
    Trace(t.states + [c], t.events + [e])
  }

  /** `t'` continues `t` without writes and without failures. */
  ghost predicate Follows(t: Trace, t': Trace) {
    && IsRun(t) && IsRun(t') && t.states <= t'.states && t.events <= t'.events
    && Quiet(t', |t.events|, |t'.events|)
    && forall i :: |t.events| <= i < |t'.events| ==> MovesAt(t', i)
  }

  /** And without a crash. */
  ghost predicate Continues(t: Trace, t': Trace) {
    Follows(t, t') && forall i :: |t.events| <= i < |t'.events| ==> !t'.events[i].Crash?
  }

  lemma FollowsTransitive(a: Trace, b: Trace, c: Trace)
    requires Follows(a, b) && Follows(b, c)
    ensures Follows(a, c)
  {
    forall i | |a.events| <= i < |c.events| ensures MovesAt(c, i) {
      if i < |b.events| {
        assert MovesAt(b, i);
      }
    }
  }

  lemma ContinuesTransitive(a: Trace, b: Trace, c: Trace)
    requires Continues(a, b) && Continues(b, c)
    ensures Continues(a, c)
  {
    FollowsTransitive(a, b, c);
  }

  lemma OneStep(t: Trace, e: Event)
    requires IsRun(t) && Enabled(End(t), e) && !e.Publish? && !e.Delete?
    ensures Follows(t, Then(t, e, Do(End(t), e))) && End(Then(t, e, Do(End(t), e))) == Do(End(t), e)
  {
    var t' := Then(t, e, Do(End(t), e));
    assert Moves(End(t), e, Do(End(t), e));
    forall i | 0 <= i < |t'.events| ensures AttemptsAt(t', i) {
      if i < |t.events| {
        assert AttemptsAt(t, i);
      }
    }
  }

  /** The sync of `n` goes on until its last step, which finishes it. */
  ghost predicate RunsUntilFinish(t: Trace, t': Trace, n: NodeId) {
    && Continues(t, t') && |t.events| < |t'.events| && t'.events[|t'.events| - 1] == Finish(n)
    && forall i :: |t.events| <= i < |t'.events| ==> InPhase(t'.states[i], n)
  }

  ghost predicate Running(c: Cluster, n: NodeId) {
    Inv(c) && InPhase(c, n) && Serving(c, c.tasks[n].peer)
  }

  lemma TaskStepOn(t: Trace, n: NodeId) returns (t': Trace, e: Event)
    requires IsRun(t) && Running(End(t), n)
    ensures Continues(t, t') && t'.events == t.events + [e]
    ensures Progressed(End(t), End(t'), n, e.Finish?) && Inv(End(t'))
    ensures e != Finish(n) ==> Running(End(t'), n)
  {
    var c := End(t);
    e := NextStep(c.tasks[n], n);
    NextStepProgresses(c, n);
    StepKeepsInv(c, e);
    OneStep(t, e);
    t' := Then(t, e, Do(c, e));
    assert NodeOk(c, n, c.stores[n], c.tasks[n]);
  }

  lemma FinishLater(t: Trace, t1: Trace, t': Trace, n: NodeId)
    requires Continues(t, t1) && |t1.events| == |t.events| + 1 && InPhase(End(t), n)
    requires RunsUntilFinish(t1, t', n)
    ensures RunsUntilFinish(t, t', n)
  {
    ContinuesTransitive(t, t1, t');
    assert t'.states[|t.events|] == End(t);
  }

  /** A sync task whose peer stays up can always run to its end. */
  lemma {:induction false} TaskCanFinish(t: Trace, n: NodeId) returns (t': Trace)
    requires IsRun(t) && Running(End(t), n)
    ensures RunsUntilFinish(t, t', n) && Inv(End(t'))
    ensures End(t').tasks == End(t).tasks[n := Idle] && End(t').stores.Keys == End(t).stores.Keys
    decreases |End(t).tasks[n].todo|, !End(t).tasks[n].phase.Choosing?, Gap(End(t).tasks[n].phase),
              Work(End(t).tasks[n].phase)
  {
    var e;
    t', e := TaskStepOn(t, n);
    if e != Finish(n) {
      var t1 := t';
      t' := TaskCanFinish(t1, n);
      FinishLater(t, t1, t', n);
    }
  }

  /** A valid store's heads can be listed. */
  lemma Listing(s: Store) returns (listing: seq<TopicHead>)
    requires Valid(s)
    ensures Lists(listing, s)
  {
    ListHeadsIsTheHeads(s);
    listing := Enumerate(ListHeads(s).value);
  }

  lemma Enumerate(heads: set<TopicHead>) returns (listing: seq<TopicHead>)
    ensures (set h | h in listing) == heads
    decreases heads
  {
    if heads == {} {
      listing := [];
    } else {
      var h :| h in heads;
      var rest := Enumerate(heads - {h});
      listing := [h] + rest;
      forall x ensures x in (set y | y in listing) <==> x in heads {
        assert x in (set y | y in rest) <==> x in heads - {h};
      }
    }
  }

  lemma SyncCanStart(c: Cluster, n: NodeId, p: NodeId) returns (e: Event)
    requires Inv(c) && AllIdle(c) && n in c.stores && p in c.stores && n != p
    ensures Enabled(c, e) && e.Start? && e.node == n && e.peer == p
    ensures InPhase(Do(c, e), n) && Do(c, e).tasks[n].peer == p && Serving(Do(c, e), p)
    ensures Do(c, e).stores == c.stores && Do(c, e).tasks[n := Idle] == c.tasks
  {
    assert NodeOk(c, p, c.stores[p], c.tasks[p]);
    var listing := Listing(c.stores[p]);
    e := Start(n, p, listing);
  }

  lemma SyncCanComplete(t: Trace, n: NodeId, p: NodeId) returns (t': Trace)
    requires IsRun(t) && Inv(End(t)) && AllIdle(End(t)) && n in End(t).stores && p in End(t).stores && n != p
    ensures Continues(t, t') && Inv(End(t')) && AllIdle(End(t')) && End(t').stores.Keys == End(t).stores.Keys
    ensures Completes(t', |t.events|, |t'.events|, n, p)
  {
    var e := SyncCanStart(End(t), n, p);
    StepKeepsInv(End(t), e);
    OneStep(t, e);
    var t1 := Then(t, e, Do(End(t), e));
    t' := TaskCanFinish(t1, n);
    ContinuesTransitive(t, t1, t');
    assert t'.events[|t.events|] == t1.events[|t.events|] == e;
    assert CompletesAt(t', |t.events|, |t'.events|, n, p, |t.events|, |t'.events| - 1);
  }

  /** A completed sync stays one when the stretch is widened and the run goes on. */
  lemma StillCompletes(t: Trace, t': Trace, lo: nat, mid: nat, hi: nat, hi': nat, n: NodeId, p: NodeId)
    requires Completes(t, mid, hi, n, p) && t.events <= t'.events && t.states <= t'.states
    requires lo <= mid && hi <= hi' <= |t'.events| < |t'.states|
    ensures Completes(t', lo, hi', n, p)
  {
    var i, j :| CompletesAt(t, mid, hi, n, p, i, j);
    assert forall k :: 0 <= k < |t.events| ==> t'.events[k] == t.events[k];
    assert forall k :: 0 <= k < |t.states| ==> t'.states[k] == t.states[k];
    assert CompletesAt(t', lo, hi', n, p, i, j);
  }

  ghost predicate Links(c: Cluster, links: set<(NodeId, NodeId)>) {
    forall n, p :: (n, p) in links ==> n in c.stores && p in c.stores && n != p
  }

  lemma {:induction false} LinksCanComplete(t: Trace, links: set<(NodeId, NodeId)>) returns (t': Trace)
    requires IsRun(t) && Inv(End(t)) && AllIdle(End(t)) && Links(End(t), links)
    ensures Continues(t, t') && Inv(End(t')) && AllIdle(End(t')) && End(t').stores.Keys == End(t).stores.Keys
    ensures forall n, p :: (n, p) in links ==> Completes(t', |t.events|, |t'.events|, n, p)
    decreases links
  {
    if links == {} {
      t' := t;
    } else {
      var link :| link in links;
      var t1 := SyncCanComplete(t, link.0, link.1);
      t' := LinksCanComplete(t1, links - {link});
      ContinuesTransitive(t, t1, t');
      forall x, y | (x, y) in links ensures Completes(t', |t.events|, |t'.events|, x, y) {
        if (x, y) == link {
          StillCompletes(t1, t', |t.events|, |t.events|, |t1.events|, |t'.events|, x, y);
        } else {
          StillCompletes(t', t', |t.events|, |t1.events|, |t'.events|, |t'.events|, x, y);
        }
      }
    }
  }

  ghost predicate PeersOk(c: Cluster, peers: Peers) {
    forall n, p :: n in peers && p in peers[n] ==> n in c.stores && p in c.stores && n != p
  }

  lemma SamePeers(c: Cluster, c': Cluster, peers: Peers)
    requires PeersOk(c, peers) && c.stores.Keys == c'.stores.Keys
    ensures PeersOk(c', peers)
  {
  }

  lemma RoundCanHappen(t: Trace, peers: Peers) returns (t': Trace)
    requires IsRun(t) && Inv(End(t)) && AllIdle(End(t)) && PeersOk(End(t), peers)
    ensures Continues(t, t') && Inv(End(t')) && AllIdle(End(t')) && End(t').stores.Keys == End(t).stores.Keys
    ensures Round(t', |t.events|, |t'.events|, peers)
  {
    var links := set n, p | n in peers && p in peers[n] :: (n, p);
    t' := LinksCanComplete(t, links);
    forall n, p | n in peers && p in peers[n] ensures Completes(t', |t.events|, |t'.events|, n, p) {
      assert (n, p) in links;
    }
  }

  lemma RoundsContinue(t: Trace, t': Trace, marks: seq<nat>, peers: Peers)
    requires Rounds(t, marks, peers) && Continues(t, t')
    ensures Rounds(t', marks, peers)
  {
    forall i | 0 <= i < |marks| - 1 ensures RoundAt(t', marks, i, peers) {
      assert RoundAt(t, marks, i, peers);
      forall n, p | n in peers && p in peers[n] ensures Completes(t', marks[i], marks[i + 1], n, p) {
        assert Completes(t, marks[i], marks[i + 1], n, p);
        StillCompletes(t, t', marks[i], marks[i], marks[i + 1], marks[i + 1], n, p);
      }
    }
  }

  ghost predicate IdlePoint(t: Trace, peers: Peers) {
    IsRun(t) && Inv(End(t)) && AllIdle(End(t)) && PeersOk(End(t), peers)
  }

  lemma OneMoreRound(t: Trace, marks: seq<nat>, peers: Peers) returns (t': Trace)
    requires IdlePoint(t, peers) && Rounds(t, marks, peers) && marks[|marks| - 1] == |t.events|
    ensures Continues(t, t') && IdlePoint(t', peers)
    ensures Rounds(t', marks + [|t'.events|], peers)
  {
    t' := RoundCanHappen(t, peers);
    SamePeers(End(t), End(t'), peers);
    RoundsContinue(t, t', marks, peers);
    MarkRound(t', marks, |t'.events|, peers);
  }

  /** From any idle point of a run, any number of write-free rounds can follow. */
  lemma {:induction false} RoundsCanHappen(t: Trace, peers: Peers, k: nat) returns (t': Trace, marks: seq<nat>)
    requires IdlePoint(t, peers)
    ensures Continues(t, t') && IdlePoint(t', peers)
    ensures Rounds(t', marks, peers) && |marks| == k + 1 && marks[0] == |t.events| && marks[k] == |t'.events|
    decreases k
  {
    if k == 0 {
      t', marks := t, [|t.events|];
    } else {
      var t1, marks1 := RoundsCanHappen(t, peers, k - 1);
      t' := OneMoreRound(t1, marks1, peers);
      ContinuesTransitive(t, t1, t');
      marks := marks1 + [|t'.events|];
    }
  }

  lemma MarkRound(t: Trace, marks: seq<nat>, hi: nat, peers: Peers)
    requires Rounds(t, marks, peers) && marks[|marks| - 1] <= hi < |t.states| && Round(t, marks[|marks| - 1], hi, peers)
    ensures Rounds(t, marks + [hi], peers)
  {
    var longer := marks + [hi];
    forall i | 0 <= i < |longer| - 1 ensures RoundAt(t, longer, i, peers) {
      if i < |marks| - 1 {
        assert RoundAt(t, marks, i, peers);
      }
    }
  }

  // ---- Coming to rest ----

  /** The step, taken. */
  lemma Take(t: Trace, e: Event) returns (t': Trace)
    requires IsRun(t) && Inv(End(t)) && Enabled(End(t), e) && !e.Publish? && !e.Delete?
    ensures Follows(t, t') && t'.events == t.events + [e] && End(t') == Do(End(t), e) && Inv(End(t'))
    ensures Overdue(End(t').stores[e.node], End(t').tasks[e.node])
            <= Overdue(End(t).stores[e.node], End(t).tasks[e.node])
  {
    OneStep(t, e);
    StepKeepsInv(End(t), e);
    StepLeavesOverdue(End(t), e);
    t' := Then(t, e, Do(End(t), e));
  }

  /** All other nodes are as they were. */
  ghost predicate OnlyChanges(c: Cluster, c': Cluster, nodes: set<NodeId>) {
    && c'.stores.Keys == c.stores.Keys && c'.tasks.Keys == c.tasks.Keys
    && (forall x :: x in c.stores && x !in nodes ==> c'.stores[x] == c.stores[x])
    && (forall x :: x in c.tasks && x !in nodes ==> c'.tasks[x] == c.tasks[x])
  }

  ghost predicate IsOverdue(c: Cluster, n: NodeId) {
    n in c.stores && n in c.tasks && Overdue(c.stores[n], c.tasks[n]) != {}
  }

  /** Nodes crash only where a marker is overdue. */
  ghost predicate CrashesOverdueOnly(t: Trace, t': Trace)
    requires Follows(t, t')
  {
    forall i :: |t.events| <= i < |t'.events| && t'.events[i].Crash? ==> IsOverdue(End(t), t'.events[i].node)
  }

  lemma Reboot(t: Trace, n: NodeId) returns (t': Trace)
    requires IsRun(t) && Inv(End(t)) && Enabled(End(t), Restart(n))
    ensures Follows(t, t') && t'.events == t.events + [Restart(n)] && Inv(End(t'))
    ensures AtRest(End(t'), n) && OnlyChanges(End(t), End(t'), {n})
  {
    t' := Take(t, Restart(n));
    RestartLeavesNothingOverdue(End(t).stores[n]);
  }

  /** A running sync with nothing overdue can end after at most one step. */
  lemma SyncCanEnd(t: Trace, n: NodeId) returns (t': Trace)
    requires IsRun(t) && Inv(End(t)) && InPhase(End(t), n) && !IsOverdue(End(t), n)
    ensures Continues(t, t') && Inv(End(t')) && AtRest(End(t'), n) && OnlyChanges(End(t), End(t'), {n})
  {
    if End(t).tasks[n].phase.Applying? {
      ApplyingProgresses(End(t), n);
      var t1 := Take(t, Apply(n));
      ApplyKeepsInv(End(t), n);
      t' := Take(t1, Abort(n));
      FollowsTransitive(t, t1, t');
    } else {
      t' := Take(t, Abort(n));
    }
  }

  /** Nodes that need a restart can come back up. */
  ghost predicate CanRecover(c: Cluster) {
    forall n {:trigger IsOverdue(c, n)} :: n in c.stores && n in c.tasks && (c.tasks[n].Down? || IsOverdue(c, n)) ==>
      ReplayEnds(c.stores[n])
  }

  lemma OverdueCanRest(t: Trace, n: NodeId) returns (t': Trace)
    requires IsRun(t) && Inv(End(t)) && IsOverdue(End(t), n) && ReplayEnds(End(t).stores[n])
    ensures Follows(t, t') && t'.events == t.events + [Crash(n), Restart(n)] && Inv(End(t'))
    ensures AtRest(End(t'), n) && OnlyChanges(End(t), End(t'), {n})
  {
    var t1 := Take(t, Crash(n));
    t' := Reboot(t1, n);
    FollowsTransitive(t, t1, t');
  }

  lemma NodeCanRest(t: Trace, n: NodeId) returns (t': Trace)
    requires IsRun(t) && Inv(End(t)) && n in End(t).stores && CanRecover(End(t))
    ensures Follows(t, t') && Inv(End(t')) && AtRest(End(t'), n) && OnlyChanges(End(t), End(t'), {n})
    ensures CrashesOverdueOnly(t, t')
  {
    if IsOverdue(End(t), n) {
      t' := OverdueCanRest(t, n);
    } else if End(t).tasks[n].Down? {
      t' := Reboot(t, n);
    } else if End(t).tasks[n].Syncing? {
      t' := SyncCanEnd(t, n);
    } else {
      t' := t;
    }
  }

  lemma {:induction false} NodesCanRest(t: Trace, nodes: set<NodeId>) returns (t': Trace)
    requires IsRun(t) && Inv(End(t)) && nodes <= End(t).stores.Keys && CanRecover(End(t))
    ensures Follows(t, t') && Inv(End(t')) && OnlyChanges(End(t), End(t'), nodes) && CrashesOverdueOnly(t, t')
    ensures forall n :: n in nodes ==> AtRest(End(t'), n)
    decreases nodes
  {
    if nodes == {} {
      t' := t;
    } else {
      var n :| n in nodes;
      var t1 := NodeCanRest(t, n);
      StillCanRecover(End(t), End(t1), n);
      t' := NodesCanRest(t1, nodes - {n});
      FollowsTransitive(t, t1, t');
      CrashesAddUp(t, t1, t', n);
    }
  }

  lemma StillCanRecover(c: Cluster, c': Cluster, n: NodeId)
    requires CanRecover(c) && OnlyChanges(c, c', {n}) && AtRest(c', n)
    ensures CanRecover(c')
  {
    forall x | x in c'.stores && x in c'.tasks && (c'.tasks[x].Down? || IsOverdue(c', x))
      ensures ReplayEnds(c'.stores[x])
    {
      assert x != n && (IsOverdue(c, x) <==> IsOverdue(c', x));
    }
  }

  lemma CrashesAddUp(t: Trace, t1: Trace, t': Trace, n: NodeId)
    requires Follows(t, t1) && Follows(t1, t') && Follows(t, t') && OnlyChanges(End(t), End(t1), {n})
    requires AtRest(End(t1), n) && CrashesOverdueOnly(t, t1) && CrashesOverdueOnly(t1, t')
    ensures CrashesOverdueOnly(t, t')
  {
    forall i | |t.events| <= i < |t'.events| && t'.events[i].Crash? ensures IsOverdue(End(t), t'.events[i].node) {
      if i < |t1.events| {
        assert t'.events[i] == t1.events[i];
      } else {
        assert IsOverdue(End(t1), t'.events[i].node);
      }
    }
  }

  /** Steps that succeed leave nothing overdue. */
  lemma {:induction false} AppliedAlong(t: Trace, t': Trace, i: nat)
    requires Follows(t, t') && NothingOverdue(End(t)) && |t.events| <= i < |t'.states|
    ensures NothingOverdue(t'.states[i])
  {
    if i == |t.events| {
      assert t'.states[i] == End(t);
    } else {
      AppliedAlong(t, t', i - 1);
      assert MovesAt(t', i - 1);
      StepKeepsApplied(t'.states[i - 1], t'.events[i - 1]);
    }
  }

  lemma AllCanRest(t: Trace) returns (t': Trace)
    requires IsRun(t) && Inv(End(t)) && CanRecover(End(t))
    ensures Follows(t, t') && Inv(End(t')) && AllIdle(End(t')) && NothingOverdue(End(t')) && CrashesOverdueOnly(t, t')
    ensures End(t').stores.Keys == End(t).stores.Keys
  {
    t' := NodesCanRest(t, End(t).stores.Keys);
    forall n | n in End(t').stores ensures AtRest(End(t'), n) {
    }
  }

  /** From any point at rest, syncs alone can bring all stores to equality. */
  lemma RestConverges(t: Trace, peers: Peers, k: nat) returns (t': Trace)
    requires IsRun(t) && IsInit(t.states[0]) && AllIdle(End(t)) && NothingOverdue(End(t))
    requires PeersOk(End(t), peers) && Connected(End(t), peers, k)
    ensures Continues(t, t')
    ensures forall a, b :: a in End(t').stores && b in End(t').stores ==> End(t').stores[a] == End(t').stores[b]
  {
    InitInv(t.states[0]);
    RunKeepsInv(t, |t.states| - 1);
    SameNodes(t, |t.states| - 1);
    var marks;
    t', marks := RoundsCanHappen(t, peers, k);
    SameNodes(t', |t'.states| - 1);
    assert t'.states[0] == t.states[0];
    IdleIsSettled(End(t'));
    AppliedAlong(t, t', |t'.events|);
    forall a, b | a in End(t').stores && b in End(t').stores ensures End(t').stores[a] == End(t').stores[b] {
      assert Settled(End(t'), a) && Settled(End(t'), b);
      UpToDateStoresConverge(t', marks, peers, a, b);
    }
  }

  /**
   * From every state of every run, whatever has failed, whoever is down and whatever is under way, all stores can be
   * brought to equality without a write. Only nodes that are down or overdue with a marker have to be restarted.
   */
  lemma ConvergenceIsAttainable(t: Trace, peers: Peers, k: nat) returns (t': Trace)
    requires IsRun(t) && IsInit(t.states[0]) && CanRecover(End(t))
    requires PeersOk(End(t), peers) && Connected(End(t), peers, k)
    ensures Follows(t, t') && CrashesOverdueOnly(t, t')
    ensures forall a, b :: a in End(t').stores && b in End(t').stores ==> End(t').stores[a] == End(t').stores[b]
  {
    InitInv(t.states[0]);
    RunKeepsInv(t, |t.states| - 1);
    var t1 := AllCanRest(t);
    SamePeers(End(t), End(t1), peers);
    SameLinks(End(t), End(t1), peers, k);
    t' := RestConverges(t1, peers, k);
    FollowsTransitive(t, t1, t');
    forall i | |t.events| <= i < |t'.events| && t'.events[i].Crash? ensures IsOverdue(End(t), t'.events[i].node) {
      assert i < |t1.events| && t'.events[i] == t1.events[i];
    }
  }

  lemma SameLinks(c: Cluster, c': Cluster, peers: Peers, k: nat)
    requires Connected(c, peers, k) && c.stores.Keys == c'.stores.Keys
    ensures Connected(c', peers, k)
  {
  }
}
