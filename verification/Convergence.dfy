/**
 * Eventual convergence with a bound. A round is any stretch of a run in which every node completes a
 * sync of each of its peers, interleaved with anything else, failures included. After k rounds a node has everything
 * that nodes at distance at most k had at the start; without new writes all stores end up equal, as far as their
 * nodes have acted on the delete markers they hold.
 */
module Convergence {
  import opened Domain
  import opened StoreModel
  import opened StoreLaws
  import opened Cluster
  import opened ClusterInvariant
  import opened Applied
  import opened ClusterSafety
  import Server

  // ---- Heads only grow ----

  ghost predicate Ahead(s: Store, s': Store) {
    forall log {:trigger CurrentHead(s', log)} :: CurrentHead(s, log) <= CurrentHead(s', log)
  }

  lemma ExtendsAhead(s: Store, s': Store)
    requires Extends(s, s')
    ensures Ahead(s, s')
  {
  }

  lemma StoreStepExtends(c: Cluster, e: Event)
    requires Inv(c) && Enabled(c, e)
    ensures Extends(c.stores[e.node], Do(c, e).stores[e.node])
  {
    var n := e.node;
    var s := c.stores[n];
    assert NodeOk(c, n, s, c.tasks[n]);
    match e
    case Publish(_, post, id, now) => PublishExtends(n, s, post, id, now);
    case Delete(_, cut, id, createdAt, now) =>
      DeleteExtends(n, s, cut, id, createdAt, now);
    case Put(_) => PutExtends(s, c.tasks[n].phase.batch[0]);
    case Apply(_) => ControlExtends(s, c.tasks[n].phase.message);
    case ReplayOne(_, slot) => ControlExtends(s, s.messages[slot]);
    case Restart(_) => EraseExtends(s, Markers(s));
    case _ =>
  }

  lemma AttemptExtends(c: Cluster, e: Event, c': Cluster)
    requires Inv(c) && Attempts(c, e, c')
    ensures c'.stores.Keys == c.stores.Keys && forall n :: n in c.stores ==> Ahead(c.stores[n], c'.stores[n])
  {
    StoreStepExtends(c, e);
    ExtendsAhead(c.stores[e.node], Do(c, e).stores[e.node]);
  }

  lemma PublishExtends(n: NodeId, s: Store, post: Server.PublishRequest, id: string, now: u64)
    requires Valid(s) && CurrentHead(s, LogKey(post.topic, n.Key())) < U64_MAX
    ensures Extends(s, Server.Publish(n, s, post, id, now).0)
  {
    AppendExtends(s, NewMessage(id, post.topic, n, post.payload, post.headers), now);
  }

  lemma DeleteExtends(n: NodeId, s: Store, cut: Server.DeleteRequest, id: string, createdAt: u64, now: u64)
    requires Valid(s) && CurrentHead(s, LogKey(DELETE_TOPIC, n.Key())) < U64_MAX
    ensures Extends(s, Server.DeleteRange(n, s, cut, id, createdAt, now).0)
  {
    var range := TombstoneRange(cut.topic, n, cut.from, cut.to, createdAt);
    var deleted := TombstoneWithMarker(s, range, DELETE_TOPIC, n, id, now).0;
    assert Server.DeleteRange(n, s, cut, id, createdAt, now).0 in {s, deleted};
    StepExtends(s, DeleteOp(range, DELETE_TOPIC, n, id, now));
  }

  lemma ControlExtends(s: Store, m: StoredMessage)
    ensures Extends(s, ApplyControl(s, m).0)
  {
    if m.payload.Encoded? {
      EraseExtends(s, {m.payload.range.Extent()});
    }
  }

  /** Heads never go back, on any node, in any run, whatever fails. */
  lemma {:induction false} TraceGoesAhead(t: Trace, i: nat, j: nat, n: NodeId)
    requires IsRun(t) && Inv(t.states[0]) && i <= j < |t.states| && n in t.states[0].stores
    ensures n in t.states[i].stores && n in t.states[j].stores && Ahead(t.states[i].stores[n], t.states[j].stores[n])
    decreases j
  {
    SameNodes(t, i);
    SameNodes(t, j);
    if i < j {
      TraceGoesAhead(t, i, j - 1, n);
      RunKeepsInv(t, j - 1);
      SameNodes(t, j - 1);
      assert AttemptsAt(t, j - 1);
      AttemptExtends(t.states[j - 1], t.events[j - 1], t.states[j]);
      AheadTransitive(t.states[i].stores[n], t.states[j - 1].stores[n], t.states[j].stores[n]);
    }
  }

  lemma {:induction false} SameNodes(t: Trace, i: nat)
    requires IsRun(t) && i < |t.states|
    ensures t.states[i].stores.Keys == t.states[0].stores.Keys
  {
    if i > 0 {
      SameNodes(t, i - 1);
      assert AttemptsAt(t, i - 1);
    }
  }

  lemma AheadTransitive(a: Store, b: Store, c: Store)
    requires Ahead(a, b) && Ahead(b, c)
    ensures Ahead(a, c)
  {
    forall log ensures CurrentHead(a, log) <= CurrentHead(c, log) {
      assert CurrentHead(a, log) <= CurrentHead(b, log);
    }
  }

  // ---- One completed sync ----

  /** Every advertised head is still to do, being pulled, or reached. */
  ghost predicate Tracks(c: Cluster, n: NodeId, heads: set<TopicHead>) {
    && InPhase(c, n)
    && forall h :: h in heads ==> Accounted(c.stores[n], c.tasks[n], h)
  }

  ghost predicate Accounted(s: Store, task: Task, h: TopicHead)
    requires task.Syncing?
  {
    || h in task.todo
    || (!task.phase.Choosing? && task.phase.head == h)
    || h.headId <= CurrentHead(s, h.Log())
  }

  /** As long as the sync goes on, every head stays accounted for. */
  lemma TracksStep(c: Cluster, e: Event, c': Cluster, n: NodeId, heads: set<TopicHead>)
    requires Inv(c) && Attempts(c, e, c') && Tracks(c, n, heads) && InPhase(c', n)
    ensures Tracks(c', n, heads)
  {
    AttemptExtends(c, e, c');
    if e.node == n && c' == Do(c, e) {
      TaskStep(c, e, n);
    }
    forall h | h in heads ensures Accounted(c'.stores[n], c'.tasks[n], h) {
      assert Accounted(c.stores[n], c.tasks[n], h);
      assert CurrentHead(c.stores[n], h.Log()) <= CurrentHead(c'.stores[n], h.Log());
    }
  }

  /** A step of the sync itself drops no head before it is reached. */
  lemma TaskStep(c: Cluster, e: Event, n: NodeId)
    requires Inv(c) && Enabled(c, e) && e.node == n && InPhase(c, n) && InPhase(Do(c, e), n)
    ensures forall h :: Accounted(c.stores[n], c.tasks[n], h) ==>
              Accounted(Do(c, e).stores[n], Do(c, e).tasks[n], h)
  {
    var task := c.tasks[n];
    assert NodeOk(c, n, c.stores[n], task);
    StoreStepExtends(c, e);
    ExtendsAhead(c.stores[n], Do(c, e).stores[n]);
    match e
    case NextHead(_) =>
      assert task.todo == [task.todo[0]] + task.todo[1..];
    case Fetch(_, limit) => FetchBatch(c, n, limit);
    case Put(_) => PutSucceeds(c, n);
    case Apply(_) => ApplyKeepsInv(c, n);
    case EndHead(_) => PulledHeadReached(c, n);
    case _ =>
  }

  lemma PulledHeadReached(c: Cluster, n: NodeId)
    requires Inv(c) && Enabled(c, EndHead(n))
    ensures c.tasks[n].phase.head.headId <= CurrentHead(c.stores[n], c.tasks[n].phase.head.Log())
  {
    var task := c.tasks[n];
    assert NodeOk(c, n, c.stores[n], task);
    if task.phase.head.origin == n {
      BehindOrigin(c, task.peer, n, task.phase.head.Log());
    }
  }

  lemma {:induction false} TracksAlong(t: Trace, i: nat, j: nat, n: NodeId, heads: set<TopicHead>)
    requires IsRun(t) && Inv(t.states[0]) && i <= j < |t.states| && Tracks(t.states[i], n, heads)
    requires forall k :: i <= k <= j ==> InPhase(t.states[k], n)
    ensures Tracks(t.states[j], n, heads)
    decreases j
  {
    if i < j {
      TracksAlong(t, i, j - 1, n, heads);
      RunKeepsInv(t, j - 1);
      assert AttemptsAt(t, j - 1);
      TracksStep(t.states[j - 1], t.events[j - 1], t.states[j], n, heads);
    }
  }

  /** Between steps `lo` and `hi`, node `n` starts a sync of `p` and finishes it. */
  ghost predicate Completes(t: Trace, lo: nat, hi: nat, n: NodeId, p: NodeId) {
    exists i, j :: CompletesAt(t, lo, hi, n, p, i, j)
  }

  /** It starts at step `i`, goes on all the while, and finishes at step `j`. */
  ghost predicate CompletesAt(t: Trace, lo: nat, hi: nat, n: NodeId, p: NodeId, i: int, j: int) {
    && lo <= i < j < hi <= |t.events| < |t.states|
    && t.events[i].Start? && t.events[i].node == n && t.events[i].peer == p
    && t.events[j] == Finish(n)
    && forall k :: i < k <= j ==> InPhase(t.states[k], n)
  }

  lemma StartTracks(c: Cluster, e: Event)
    requires Inv(c) && Enabled(c, e) && e.Start?
    ensures e.peer in c.stores && ListHeads(c.stores[e.peer]).Ok?
    ensures Tracks(Do(c, e), e.node, ListHeads(c.stores[e.peer]).value)
  {
  }

  lemma FinishReaches(c: Cluster, n: NodeId, s: Store, heads: set<TopicHead>)
    requires Inv(c) && Enabled(c, Finish(n)) && Tracks(c, n, heads)
    requires Valid(s) && ListHeads(s).Ok? && heads == ListHeads(s).value
    ensures Ahead(s, c.stores[n])
  {
    ListHeadsIsTheHeads(s);
    forall log ensures CurrentHead(s, log) <= CurrentHead(c.stores[n], log) {
      if log in s.heads {
        var h := HeadEntry(s, log);
        assert h in heads && h.Log() == log && Accounted(c.stores[n], c.tasks[n], h);
      }
    }
  }

  /** After a completed sync of `p`, node `n` holds at least what `p` held when the stretch began. */
  lemma CompletedSyncCatchesUp(t: Trace, lo: nat, hi: nat, n: NodeId, p: NodeId)
    requires IsRun(t) && Inv(t.states[0]) && Completes(t, lo, hi, n, p)
    ensures n in t.states[hi].stores && p in t.states[lo].stores
    ensures Ahead(t.states[lo].stores[p], t.states[hi].stores[n])
  {
    var i, j :| CompletesAt(t, lo, hi, n, p, i, j);
    var started, finishing := t.states[i], t.states[j];
    RunKeepsInv(t, i);
    RunKeepsInv(t, j);
    assert AttemptsAt(t, i) && AttemptsAt(t, j) && InPhase(t.states[i + 1], n);
    StartTracks(started, t.events[i]);
    TracksAlong(t, i + 1, j, n, ListHeads(started.stores[p]).value);
    assert NodeOk(started, p, started.stores[p], started.tasks[p]);
    FinishReaches(finishing, n, started.stores[p], ListHeads(started.stores[p]).value);
    SameNodes(t, i);
    SameNodes(t, j);
    TraceGoesAhead(t, lo, i, p);
    TraceGoesAhead(t, j, hi, n);
    AheadTransitive(t.states[lo].stores[p], started.stores[p], finishing.stores[n]);
    AheadTransitive(t.states[lo].stores[p], finishing.stores[n], t.states[hi].stores[n]);
  }

  // ---- Rounds ----

  type Peers = map<NodeId, set<NodeId>>

  ghost predicate Round(t: Trace, lo: nat, hi: nat, peers: Peers) {
    forall n, p {:trigger Completes(t, lo, hi, n, p)} :: n in peers && p in peers[n] ==> Completes(t, lo, hi, n, p)
  }

  /** The run passes through one round between each mark and the next. */
  ghost predicate Rounds(t: Trace, marks: seq<nat>, peers: Peers) {
    && marks != []
    && (forall i :: 0 <= i < |marks| ==> marks[i] < |t.states|)
    && (forall i :: 0 <= i < |marks| - 1 ==> RoundAt(t, marks, i, peers))
  }

  ghost predicate RoundAt(t: Trace, marks: seq<nat>, i: nat, peers: Peers)
    requires i + 1 < |marks|
  {
    marks[i] <= marks[i + 1] && Round(t, marks[i], marks[i + 1], peers)
  }

  /** Node `n` can reach `q` over at most `k` peer links. */
  ghost predicate Within(peers: Peers, n: NodeId, q: NodeId, k: nat)
    decreases k
  {
    n == q || (k > 0 && n in peers && exists p :: p in peers[n] && Within(peers, p, q, k - 1))
  }

  ghost predicate Connected(c: Cluster, peers: Peers, k: nat) {
    forall n, q {:trigger Within(peers, n, q, k)} :: n in c.stores && q in c.stores ==> Within(peers, n, q, k)
  }

  lemma {:induction false} MarksAscend(t: Trace, marks: seq<nat>, peers: Peers, k: nat)
    requires Rounds(t, marks, peers) && k < |marks|
    ensures marks[0] <= marks[k]
  {
    if k > 0 {
      MarksAscend(t, marks, peers, k - 1);
      assert RoundAt(t, marks, k - 1, peers);
    }
  }

  /**
   * After k rounds, whatever else happened in between, a node holds for every log at least the head
   * that any node within distance k held at the start.
   */
  lemma {:induction false} RoundsSpreadHeads(t: Trace, marks: seq<nat>, peers: Peers, k: nat, n: NodeId, q: NodeId)
    requires IsRun(t) && Inv(t.states[0]) && Rounds(t, marks, peers) && k < |marks|
    requires n in t.states[0].stores && q in t.states[0].stores && Within(peers, n, q, k)
    ensures n in t.states[marks[k]].stores && q in t.states[marks[0]].stores
    ensures Ahead(t.states[marks[0]].stores[q], t.states[marks[k]].stores[n])
    decreases k
  {
    MarksAscend(t, marks, peers, k);
    SameNodes(t, marks[0]);
    if n == q {
      TraceGoesAhead(t, marks[0], marks[k], n);
    } else {
      var p :| p in peers[n] && Within(peers, p, q, k - 1);
      assert RoundAt(t, marks, k - 1, peers);
      assert Completes(t, marks[k - 1], marks[k], n, p);
      CompletedSyncCatchesUp(t, marks[k - 1], marks[k], n, p);
      SameNodes(t, marks[k - 1]);
      RoundsSpreadHeads(t, marks, peers, k - 1, p, q);
      AheadTransitive(t.states[marks[0]].stores[q], t.states[marks[k - 1]].stores[p], t.states[marks[k]].stores[n]);
    }
  }

  // ---- Quiescence ----

  predicate Quiet(t: Trace, lo: nat, hi: nat) {
    forall i :: lo <= i < hi && i < |t.events| ==> !t.events[i].Publish? && !t.events[i].Delete?
  }

  lemma QuietStep(c: Cluster, e: Event, a: NodeId, log: LogKey)
    requires Inv(c) && Enabled(c, e) && !e.Publish? && !e.Delete? && a in c.stores && a.Key() == log.origin
    ensures CurrentHead(Do(c, e).stores[a], log) == CurrentHead(c.stores[a], log)
  {
    if e.node == a && e.Put? {
      PutSucceeds(c, a);
      var m := c.tasks[a].phase.batch[0];
      assert NodeOk(c, a, c.stores[a], c.tasks[a]) && Genuine(c, m);
      OtherOriginsLog(c, m.origin, a);
    }
  }

  /** Without writes the origin's own logs do not grow. */
  lemma {:induction false} QuietAlong(t: Trace, lo: nat, hi: nat, a: NodeId, log: LogKey)
    requires IsRun(t) && Inv(t.states[0]) && lo <= hi < |t.states| && Quiet(t, lo, hi)
    requires a in t.states[0].stores && a.Key() == log.origin
    ensures a in t.states[lo].stores && a in t.states[hi].stores
    ensures CurrentHead(t.states[hi].stores[a], log) == CurrentHead(t.states[lo].stores[a], log)
    decreases hi
  {
    SameNodes(t, lo);
    SameNodes(t, hi);
    if lo < hi {
      QuietAlong(t, lo, hi - 1, a, log);
      RunKeepsInv(t, hi - 1);
      SameNodes(t, hi - 1);
      assert AttemptsAt(t, hi - 1);
      QuietStep(t.states[hi - 1], t.events[hi - 1], a, log);
    }
  }

  // ---- Equal heads make equal stores ----

  ghost predicate SameHeads(s: Store, s': Store) {
    forall log {:trigger CurrentHead(s', log)} :: CurrentHead(s, log) == CurrentHead(s', log)
  }

  lemma SameSlots(s: Store, s': Store)
    requires Valid(s) && Valid(s') && SameHeads(s, s')
    ensures s.heads == s'.heads && s.messages.Keys == s'.messages.Keys
  {
    forall log ensures log in s.heads <==> log in s'.heads {
      assert CurrentHead(s, log) == CurrentHead(s', log);
    }
    forall log | log in s.heads ensures s.heads[log] == s'.heads[log] {
      assert CurrentHead(s, log) == CurrentHead(s', log);
    }
    assert forall slot :: slot in s.messages <==> slot in s'.messages;
  }

  ghost predicate Level(c: Cluster) {
    forall x, y :: x in c.stores && y in c.stores ==> SameHeads(c.stores[x], c.stores[y])
  }

  /** A node with everyone's heads holds a marker for every declared range. */
  lemma DeclaredIsHeld(c: Cluster, n: NodeId, t: Span)
    requires Inv(c) && Level(c) && n in c.stores && Declared(c, t)
    ensures t in Markers(c.stores[n])
  {
    var a :| a in c.stores && a.Key() == t.log.origin && t in Markers(c.stores[a]);
    var s, sa := c.stores[n], c.stores[a];
    assert NodeOk(c, n, s, c.tasks[n]) && NodeOk(c, a, sa, c.tasks[a]);
    SameSlots(sa, s);
    var at :| at in sa.messages && sa.messages[at].IsMarker() && sa.messages[at].payload.range.Extent() == t;
    SlotsAgree(c, a, n, at);
    var m := s.messages[at];
    assert Genuine(c, m) && m.Position() == at;
    if m.deleted {
      var u :| Declared(c, u) && u.Covers(at);
      MarkersAreLive(c, u);
    }
    assert m.IsMarker();
  }

  /** A node that is up, is not about to act on a marker, and has left none unapplied. */
  ghost predicate UpToDate(c: Cluster, n: NodeId) {
    Settled(c, n) && Overdue(c.stores[n], c.tasks[n]) == {}
  }

  /** With everyone's heads, such a node has recorded every declared range. */
  lemma DeclaredIsRecorded(c: Cluster, n: NodeId, t: Span)
    requires Inv(c) && Level(c) && UpToDate(c, n) && Declared(c, t)
    ensures t in c.stores[n].tombstones
  {
    DeclaredIsHeld(c, n, t);
    assert t !in Overdue(c.stores[n], c.tasks[n]);
  }

  lemma SettledStoresAreEqual(c: Cluster, a: NodeId, b: NodeId)
    requires Inv(c) && Level(c) && UpToDate(c, a) && UpToDate(c, b)
    ensures c.stores[a] == c.stores[b]
  {
    var sa, sb := c.stores[a], c.stores[b];
    assert NodeOk(c, a, sa, c.tasks[a]) && NodeOk(c, b, sb, c.tasks[b]);
    SameSlots(sa, sb);
    RecordedSubset(c, a, b);
    RecordedSubset(c, b, a);
    forall slot | slot in sa.messages ensures sa.messages[slot] == sb.messages[slot] {
      SlotsAgree(c, a, b, slot);
      if sa.messages[slot].deleted {
        DeletedSubset(c, a, b, slot);
      } else if sb.messages[slot].deleted {
        DeletedSubset(c, b, a, slot);
      }
    }
    assert sa.messages == sb.messages;
  }

  /** Whatever is recorded at `a` is recorded at `b`. */
  lemma RecordedSubset(c: Cluster, a: NodeId, b: NodeId)
    requires Inv(c) && Level(c) && a in c.stores && UpToDate(c, b)
    ensures c.stores[a].tombstones <= c.stores[b].tombstones
  {
    assert NodeOk(c, a, c.stores[a], c.tasks[a]);
    forall t | t in c.stores[a].tombstones ensures t in c.stores[b].tombstones {
      assert Declared(c, t);
      DeclaredIsRecorded(c, b, t);
    }
  }

  /** Whatever is deleted at `a` is deleted at `b`. */
  lemma DeletedSubset(c: Cluster, a: NodeId, b: NodeId, slot: Slot)
    requires Inv(c) && Level(c) && a in c.stores && UpToDate(c, b)
    requires slot in c.stores[a].messages && slot in c.stores[b].messages && c.stores[a].messages[slot].deleted
    ensures c.stores[b].messages[slot].deleted
  {
    var sa, sb := c.stores[a], c.stores[b];
    assert NodeOk(c, a, sa, c.tasks[a]) && NodeOk(c, b, sb, c.tasks[b]);
    assert Genuine(c, sa.messages[slot]) && sa.messages[slot].Position() == slot;
    var t :| Declared(c, t) && t.Covers(slot);
    DeclaredIsRecorded(c, b, t);
    assert CoveredBy(sb.tombstones, slot);
  }

  /** The run holds one write-free round per step of the peer graph's width, from its first mark to its last. */
  ghost predicate Settles(t: Trace, marks: seq<nat>, peers: Peers) {
    && IsRun(t) && Rounds(t, marks, peers)
    && Connected(t.states[0], peers, |marks| - 1)
    && Quiet(t, marks[0], marks[|marks| - 1])
  }

  /** Each node ends level with the origin of each log. */
  lemma RoundsLevelHeads(t: Trace, marks: seq<nat>, peers: Peers, n: NodeId, a: NodeId, log: LogKey)
    requires Settles(t, marks, peers) && Inv(t.states[0])
    requires n in t.states[0].stores && a in t.states[0].stores && a.Key() == log.origin
    ensures var end := t.states[marks[|marks| - 1]];
            n in end.stores && a in end.stores && CurrentHead(end.stores[n], log) == CurrentHead(end.stores[a], log)
  {
    var k := |marks| - 1;
    var start, end := t.states[marks[0]], t.states[marks[k]];
    assert Within(peers, n, a, k);
    RoundsSpreadHeads(t, marks, peers, k, n, a);
    assert CurrentHead(start.stores[a], log) <= CurrentHead(end.stores[n], log);
    MarksAscend(t, marks, peers, k);
    RunKeepsInv(t, marks[k]);
    QuietAlong(t, marks[0], marks[k], a, log);
    BehindOrigin(end, n, a, log);
  }

  lemma LogsHaveOrigins(c: Cluster, n: NodeId, log: LogKey)
    requires Inv(c) && n in c.stores && log in c.stores[n].heads
    ensures exists a :: a in c.stores && a.Key() == log.origin
  {
    var s := c.stores[n];
    assert NodeOk(c, n, s, c.tasks[n]);
    var m := s.messages[Slot(log, s.heads[log])];
    assert Genuine(c, m) && m.Position().log == log;
  }

  function LastOf(t: Trace, marks: seq<nat>): Cluster
    requires marks != [] && marks[|marks| - 1] < |t.states|
  {
    t.states[marks[|marks| - 1]]
  }

  lemma RoundsLevelNodes(t: Trace, marks: seq<nat>, peers: Peers)
    requires Settles(t, marks, peers) && Inv(t.states[0])
    ensures Inv(LastOf(t, marks)) && Level(LastOf(t, marks)) && LastOf(t, marks).stores.Keys == t.states[0].stores.Keys
  {
    var end := LastOf(t, marks);
    RunKeepsInv(t, marks[|marks| - 1]);
    SameNodes(t, marks[|marks| - 1]);
    forall x, y, log | x in end.stores && y in end.stores
      ensures CurrentHead(end.stores[x], log) == CurrentHead(end.stores[y], log)
    {
      if log in end.stores[x].heads || log in end.stores[y].heads {
        LogsHaveOrigins(end, if log in end.stores[x].heads then x else y, log);
        var a :| a in end.stores && a.Key() == log.origin;
        RoundsLevelHeads(t, marks, peers, x, a, log);
        RoundsLevelHeads(t, marks, peers, y, a, log);
      }
    }
  }

  /**
   * Convergence: in any run from empty stores, whatever fails, once as many write-free rounds have passed as the peer
   * graph is wide, any two nodes that are up to date with their own markers have stores equal in heads, messages,
   * deleted flags and tombstones.
   */
  lemma UpToDateStoresConverge(t: Trace, marks: seq<nat>, peers: Peers, a: NodeId, b: NodeId)
    requires Settles(t, marks, peers) && IsInit(t.states[0])
    requires UpToDate(LastOf(t, marks), a) && UpToDate(LastOf(t, marks), b)
    ensures LastOf(t, marks).stores[a] == LastOf(t, marks).stores[b]
  {
    InitInv(t.states[0]);
    RoundsLevelNodes(t, marks, peers);
    SettledStoresAreEqual(LastOf(t, marks), a, b);
  }

  /** Where nothing fails, nodes need only be up and not between storing a marker and acting on it. */
  lemma StoresConverge(t: Trace, marks: seq<nat>, peers: Peers, a: NodeId, b: NodeId)
    requires Settles(t, marks, peers) && IsInit(t.states[0]) && IsTrace(t)
    requires Settled(LastOf(t, marks), a) && Settled(LastOf(t, marks), b)
    ensures LastOf(t, marks).stores[a] == LastOf(t, marks).stores[b]
  {
    TraceKeepsApplied(t, marks[|marks| - 1]);
    UpToDateStoresConverge(t, marks, peers, a, b);
  }
}
