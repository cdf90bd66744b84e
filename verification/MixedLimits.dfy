/**
 * Where a mixed cluster goes wrong, and how far: a SQLite node can hold a delete marker whose range it cannot record.
 * Everything else it holds takes effect, in every run, also after such a marker.
 */
module MixedLimits {
  import opened Domain
  import opened StoreModel
  import opened StoreLaws
  import opened Cluster
  import opened ClusterInvariant
  import opened Applied
  import opened ClusterSafety
  import opened Convergence
  import opened Mixed

  // ---- One marker ----

  /** A SQLite node can act on a marker exactly when its range ends, and the clock reads, within a signed column. */
  lemma MarkerAppliesIff(s: Store, m: StoredMessage, clock: u64)
    requires m.IsMarker()
    ensures ControlOn(OnSqlite, s, m, clock).1 <==> m.payload.range.to <= I64_MAX && clock <= I64_MAX
    ensures ControlOn(OnSqlite, s, m, clock).0 ==
        if ControlOn(OnSqlite, s, m, clock).1 then Erase(s, {m.payload.range.Extent()}) else s
  {
  }

  lemma TakesMarkersIff(s: Store, clock: u64)
    ensures TakesMarkers(OnSqlite, s, clock) <==> forall t :: t in Markers(s) ==> t.to <= I64_MAX && clock <= I64_MAX
  {
    if TakesMarkers(OnSqlite, s, clock) {
      forall t | t in Markers(s) ensures t.to <= I64_MAX && clock <= I64_MAX {
        var slot :| slot in s.messages && s.messages[slot].IsMarker() && s.messages[slot].payload.range.Extent() == t;
        MarkerAppliesIff(s, s.messages[slot], clock);
      }
    } else {
      var slot :| slot in s.messages && s.messages[slot].IsMarker() &&
        !ControlOn(OnSqlite, s, s.messages[slot], clock).1;
      MarkerAppliesIff(s, s.messages[slot], clock);
      assert s.messages[slot].payload.range.Extent() in Markers(s);
    }
  }

  /**
   * At any point of any run, a SQLite node whose replay ends comes back up exactly when all ranges its markers name,
   * and the clock, fit; otherwise it stays down.
   */
  lemma ServesAgainIff(fleet: Fleet, c: Cluster, n: NodeId, clock: u64)
    requires Inv(c) && Enabled(c, Restart(n)) && Covers(fleet, c) && fleet[n].OnSqlite?
    ensures var c' := DoOn(fleet, c, Restart(n), clock);
            && (c'.tasks[n] == Idle <==> forall t :: t in Markers(c.stores[n]) ==> t.to <= I64_MAX && clock <= I64_MAX)
            && (c'.tasks[n] != Idle ==> c' == c)
  {
    TakesMarkersIff(c.stores[n], clock);
    if !TakesMarkers(OnSqlite, c.stores[n], clock) {
      assert With(c, n, c.stores[n], Down) == c;
    }
  }

  /**
   * At any point of any run, a SQLite node that has just stored a marker records its range exactly when it fits;
   * otherwise the sync ends there, and the next one of that log starts past the marker.
   */
  lemma StoredMarkerIsAppliedIff(fleet: Fleet, c: Cluster, n: NodeId, clock: u64)
    requires Inv(c) && Enabled(c, Apply(n)) && Covers(fleet, c) && fleet[n].OnSqlite?
    requires c.tasks[n].phase.message.IsMarker()
    requires c.tasks[n].phase.message.payload.range.Extent() !in c.stores[n].tombstones
    ensures var m, c' := c.tasks[n].phase.message, DoOn(fleet, c, Apply(n), clock);
            && (m.payload.range.Extent() in c'.stores[n].tombstones <==>
                  m.payload.range.to <= I64_MAX && clock <= I64_MAX)
            && (m.payload.range.Extent() !in c'.stores[n].tombstones ==>
                  c' == With(c, n, c.stores[n], Idle) && m.headId <= CurrentHead(c'.stores[n], m.Log()))
  {
    assert NodeOk(c, n, c.stores[n], c.tasks[n]);
    MarkerAppliesIff(c.stores[n], c.tasks[n].phase.message, clock);
  }

  // ---- All markers, in every run ----

  /** The ranges a backend can record. */
  predicate Records(b: Backend, t: Span) {
    b.OnRedb? || t.to <= I64_MAX
  }

  /** A node has recorded no range it cannot, and is overdue with no range it can. */
  ghost predicate RecordOk(b: Backend, s: Store, task: Task) {
    && (forall t :: t in s.tombstones ==> Records(b, t))
    && (forall t :: t in Overdue(s, task) ==> !Records(b, t))
  }

  ghost predicate RecordsOk(fleet: Fleet, c: Cluster) {
    forall n {:trigger RecordOk(fleet[n], c.stores[n], c.tasks[n])} ::
      n in c.stores && n in c.tasks && n in fleet ==> RecordOk(fleet[n], c.stores[n], c.tasks[n])
  }

  lemma ControlRecords(s: Store, m: StoredMessage, clock: u64, t: Span)
    requires t in ControlOn(OnSqlite, s, m, clock).0.tombstones
    ensures t in s.tombstones || t.to <= I64_MAX
  {
  }

  /** What a step adds to the tombstones of a SQLite node fits. */
  lemma NewTombstonesFit(fleet: Fleet, c: Cluster, e: Event, clock: u64, t: Span)
    requires Enabled(c, e) && Covers(fleet, c) && fleet[e.node].OnSqlite?
    requires t in DoOn(fleet, c, e, clock).stores[e.node].tombstones
    ensures t in c.stores[e.node].tombstones || t.to <= I64_MAX
  {
    var s := c.stores[e.node];
    match e
    case Apply(_) => ControlRecords(s, c.tasks[e.node].phase.message, clock, t);
    case ReplayOne(_, slot) => ControlRecords(s, s.messages[slot], clock, t);
    case Restart(_) => TakesMarkersIff(s, clock);
    case _ =>
  }

  /** A step leaves a marker overdue only if the node cannot record its range. */
  lemma NewOverdueDoNotFit(fleet: Fleet, c: Cluster, e: Event, clock: u64, t: Span)
    requires Inv(c) && Enabled(c, e) && Covers(fleet, c) && clock <= I64_MAX
    requires t in Overdue(DoOn(fleet, c, e, clock).stores[e.node], DoOn(fleet, c, e, clock).tasks[e.node])
    ensures t in Overdue(c.stores[e.node], c.tasks[e.node]) || !Records(fleet[e.node], t)
  {
    var n := e.node;
    MixedStepAttempts(fleet, c, e, clock);
    if DoOn(fleet, c, e, clock) == Do(c, e) {
      StepLeavesOverdue(c, e);
    } else {
      FailLeavesOverdue(c, e);
      if e.Apply? && t in Pending(c.tasks[n]) {
        FailedApply(fleet, c, n, clock);
      }
    }
  }

  lemma FailedApply(fleet: Fleet, c: Cluster, n: NodeId, clock: u64)
    requires Inv(c) && Enabled(c, Apply(n)) && Covers(fleet, c) && clock <= I64_MAX
    requires DoOn(fleet, c, Apply(n), clock) != Do(c, Apply(n))
    ensures forall t :: t in Pending(c.tasks[n]) ==> !Records(fleet[n], t)
  {
    var m := c.tasks[n].phase.message;
    assert NodeOk(c, n, c.stores[n], c.tasks[n]);
    ApplySucceeds(c.stores[n], m);
    if m.IsMarker() && fleet[n].OnSqlite? {
      MarkerAppliesIff(c.stores[n], m, clock);
    }
  }

  lemma StepKeepsRecords(fleet: Fleet, c: Cluster, e: Event, clock: u64)
    requires Inv(c) && Enabled(c, e) && Covers(fleet, c) && clock <= I64_MAX && RecordsOk(fleet, c)
    ensures RecordsOk(fleet, DoOn(fleet, c, e, clock))
  {
    var n, c' := e.node, DoOn(fleet, c, e, clock);
    assert RecordOk(fleet[n], c.stores[n], c.tasks[n]);
    forall t | t in c'.stores[n].tombstones ensures Records(fleet[n], t) {
      if fleet[n].OnSqlite? {
        NewTombstonesFit(fleet, c, e, clock, t);
      }
    }
    forall t | t in Overdue(c'.stores[n], c'.tasks[n]) ensures !Records(fleet[n], t) {
      NewOverdueDoNotFit(fleet, c, e, clock, t);
    }
    assert RecordOk(fleet[n], c'.stores[n], c'.tasks[n]);
    OthersKeepRecords(fleet, c, e, clock);
  }

  lemma OthersKeepRecords(fleet: Fleet, c: Cluster, e: Event, clock: u64)
    requires Enabled(c, e) && Covers(fleet, c) && RecordsOk(fleet, c)
    ensures var c' := DoOn(fleet, c, e, clock);
            c'.stores.Keys == c.stores.Keys && c'.tasks.Keys == c.tasks.Keys &&
            forall x :: x in c.stores && x in c.tasks && x in fleet && x != e.node ==>
              RecordOk(fleet[x], c'.stores[x], c'.tasks[x])
  {
    forall x | x in c.stores && x in c.tasks && x in fleet ensures RecordOk(fleet[x], c.stores[x], c.tasks[x]) {
    }
  }

  ghost predicate ClocksFit(clocks: seq<u64>) {
    forall i :: 0 <= i < |clocks| ==> clocks[i] <= I64_MAX
  }

  lemma {:induction false} RunKeepsRecords(fleet: Fleet, t: Trace, clocks: seq<u64>, i: nat)
    requires IsMixedRun(fleet, t, clocks) && ClocksFit(clocks) && i < |t.states|
    ensures Inv(t.states[i]) && RecordsOk(fleet, t.states[i])
  {
    MixedRunIsRun(fleet, t, clocks);
    ReachableInv(t.states[i]);
    if i > 0 {
      RunKeepsRecords(fleet, t, clocks, i - 1);
      assert MovesOnAt(fleet, t, clocks, i - 1);
      StepKeepsRecords(fleet, t.states[i - 1], t.events[i - 1], clocks[i - 1]);
    }
  }

  /**
   * At any point of any run of any mix of backends whose clocks fit, a settled node has recorded the range of a marker
   * it holds exactly when it is on redb or the range ends within a signed column.
   */
  lemma MarkerIsRecordedIff(fleet: Fleet, t: Trace, clocks: seq<u64>, i: nat, n: NodeId, at: Slot)
    requires IsMixedRun(fleet, t, clocks) && ClocksFit(clocks) && i < |t.states| && n in fleet
    requires Settled(t.states[i], n)
    requires at in t.states[i].stores[n].messages && t.states[i].stores[n].messages[at].IsMarker()
    ensures var s := t.states[i].stores[n];
            var range := s.messages[at].payload.range.Extent();
            range in s.tombstones <==> fleet[n].OnRedb? || range.to <= I64_MAX
  {
    RunKeepsRecords(fleet, t, clocks, i);
    assert RecordOk(fleet[n], t.states[i].stores[n], t.states[i].tasks[n]);
    RecordedUnlessOverdue(t.states[i], n, at);
  }

  /** Then it has deleted everything it holds that the marker covers. */
  lemma MixedMarkersTakeEffect(fleet: Fleet, t: Trace, clocks: seq<u64>, i: nat, n: NodeId, at: Slot, slot: Slot)
    requires IsMixedRun(fleet, t, clocks) && ClocksFit(clocks) && i < |t.states| && n in fleet
    requires Settled(t.states[i], n)
    requires at in t.states[i].stores[n].messages && t.states[i].stores[n].messages[at].IsMarker()
    requires fleet[n].OnRedb? || t.states[i].stores[n].messages[at].payload.range.to <= I64_MAX
    requires slot in t.states[i].stores[n].messages
    requires t.states[i].stores[n].messages[at].payload.range.Extent().Covers(slot)
    ensures t.states[i].stores[n].messages[slot].deleted
  {
    MarkerIsRecordedIff(fleet, t, clocks, i, n, at);
    RunKeepsRecords(fleet, t, clocks, i);
    RecordedUnlessOverdue(t.states[i], n, at);
  }

  // ---- Convergence ----

  /** Some node has deleted a range that ends beyond a signed column. */
  ghost predicate DeletesWide(c: Cluster) {
    exists t :: Declared(c, t) && t.to > I64_MAX
  }

  /** A node that can record every declared range has, once it is settled. */
  lemma AbleIsUpToDate(fleet: Fleet, c: Cluster, n: NodeId)
    requires Inv(c) && RecordsOk(fleet, c) && Settled(c, n) && n in fleet && (fleet[n].OnRedb? || !DeletesWide(c))
    ensures UpToDate(c, n)
  {
    var s := c.stores[n];
    assert NodeOk(c, n, s, c.tasks[n]) && RecordOk(fleet[n], s, c.tasks[n]);
    forall t | t in Overdue(s, c.tasks[n]) ensures false {
      var slot :| slot in s.messages && s.messages[slot].IsMarker() && s.messages[slot].payload.range.Extent() == t;
      assert Genuine(c, s.messages[slot]);
      HeldMarkersAreDeclared(c, s.messages[slot]);
    }
  }

  /** Otherwise it differs from its markers' origin. */
  lemma WideRangesDiffer(fleet: Fleet, c: Cluster, n: NodeId)
    requires Inv(c) && Level(c) && RecordsOk(fleet, c) && Covers(fleet, c)
    requires n in c.stores && fleet[n].OnSqlite? && DeletesWide(c)
    ensures exists a :: a in c.stores && c.stores[a].tombstones != c.stores[n].tombstones
  {
    var t :| Declared(c, t) && t.to > I64_MAX;
    var a :| a in c.stores && a.Key() == t.log.origin && t in Markers(c.stores[a]);
    assert NodeOk(c, a, c.stores[a], c.tasks[a]);
    assert t in c.stores[a].tombstones;
    assert RecordOk(fleet[n], c.stores[n], c.tasks[n]);
    assert t !in c.stores[n].tombstones;
  }

  /**
   * In every run of every mix of backends whose clocks fit, once as many write-free rounds have passed as the peer
   * graph is wide and all nodes are settled, all stores are equal exactly when no node is on SQLite or no node has
   * deleted a range that ends beyond a signed column.
   */
  lemma MixedStoresConvergeIff(fleet: Fleet, t: Trace, clocks: seq<u64>, marks: seq<nat>, peers: Peers)
    requires IsMixedRun(fleet, t, clocks) && ClocksFit(clocks)
    requires Rounds(t, marks, peers) && Connected(t.states[0], peers, |marks| - 1)
    requires Quiet(t, marks[0], marks[|marks| - 1]) && AllSettled(LastOf(t, marks)) && Covers(fleet, LastOf(t, marks))
    ensures var end := LastOf(t, marks);
            (forall a, b :: a in end.stores && b in end.stores ==> end.stores[a] == end.stores[b]) <==>
            (forall n :: n in end.stores ==> fleet[n].OnRedb?) || !DeletesWide(end)
  {
    var end := LastOf(t, marks);
    MixedRunIsRun(fleet, t, clocks);
    InitInv(t.states[0]);
    RoundsLevelNodes(t, marks, peers);
    RunKeepsRecords(fleet, t, clocks, marks[|marks| - 1]);
    if (forall n :: n in end.stores ==> fleet[n].OnRedb?) || !DeletesWide(end) {
      forall a, b | a in end.stores && b in end.stores ensures end.stores[a] == end.stores[b] {
        assert Settled(end, a) && Settled(end, b);
        AbleIsUpToDate(fleet, end, a);
        AbleIsUpToDate(fleet, end, b);
        SettledStoresAreEqual(end, a, b);
      }
    } else {
      var n :| n in end.stores && fleet[n].OnSqlite?;
      WideRangesDiffer(fleet, end, n);
    }
  }

  /** Two nodes on redb end up equal whatever the others run and whatever they delete. */
  lemma RedbStoresConverge(fleet: Fleet, t: Trace, clocks: seq<u64>, marks: seq<nat>, peers: Peers, a: NodeId,
      b: NodeId)
    requires IsMixedRun(fleet, t, clocks) && ClocksFit(clocks)
    requires Rounds(t, marks, peers) && Connected(t.states[0], peers, |marks| - 1)
    requires Quiet(t, marks[0], marks[|marks| - 1]) && Settled(LastOf(t, marks), a) && Settled(LastOf(t, marks), b)
    requires a in fleet && b in fleet && fleet[a].OnRedb? && fleet[b].OnRedb?
    ensures LastOf(t, marks).stores[a] == LastOf(t, marks).stores[b]
  {
    MixedRunIsRun(fleet, t, clocks);
    RunKeepsRecords(fleet, t, clocks, marks[|marks| - 1]);
    AbleIsUpToDate(fleet, LastOf(t, marks), a);
    AbleIsUpToDate(fleet, LastOf(t, marks), b);
    UpToDateStoresConverge(t, marks, peers, a, b);
  }
}
