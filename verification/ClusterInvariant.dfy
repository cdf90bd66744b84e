/** What every reachable state of the cluster keeps, step by step. */
module ClusterInvariant {
  import opened Domain
  import opened StoreModel
  import opened StoreLaws
  import opened Cluster
  import Server

  // ---- The invariant ----

  /** The range is named by a delete marker in the log of the node it belongs to. */
  ghost predicate Declared(c: Cluster, t: Span) {
    exists a :: a in c.stores && a.Key() == t.log.origin && t in Markers(c.stores[a])
  }

  ghost predicate Condemned(c: Cluster, slot: Slot) {
    exists t :: Declared(c, t) && t.Covers(slot)
  }

  /** A message its origin holds too, up to the deleted flag, and that is deleted only if the origin said so. */
  ghost predicate Genuine(c: Cluster, m: StoredMessage) {
    && m.origin in c.stores
    && m.Position() in c.stores[m.origin].messages
    && m.Same(c.stores[m.origin].messages[m.Position()])
    && (m.deleted ==> Condemned(c, m.Position()))
  }

  ghost predicate WellFormed(m: StoredMessage) {
    m.topic == DELETE_TOPIC ==>
      && m.payload.Encoded? && m.payload.range.origin == m.origin
      && m.payload.range.topic != DELETE_TOPIC && m.payload.range.from <= m.payload.range.to
  }

  ghost predicate StoreOk(c: Cluster, s: Store) {
    && Valid(s)
    && (forall slot {:trigger Genuine(c, s.messages[slot])} :: slot in s.messages ==> Genuine(c, s.messages[slot]))
    && (forall slot {:trigger WellFormed(s.messages[slot])} :: slot in s.messages ==> WellFormed(s.messages[slot]))
    && (forall t {:trigger Declared(c, t)} :: t in s.tombstones ==> Declared(c, t))
  }

  /** Own markers are always applied. */
  ghost predicate AppliedOk(n: NodeId, s: Store) {
    forall t :: t in Markers(s) && t.log.origin == n.Key() ==> t in s.tombstones
  }

  ghost predicate HeadOk(c: Cluster, peer: NodeId, head: TopicHead) {
    peer in c.stores && head.origin in c.stores && head.headId <= CurrentHead(c.stores[peer], head.Log())
  }

  /** A batch continues the log of `head` right after head id `local`. */
  ghost predicate BatchOk(c: Cluster, head: TopicHead, local: nat, batch: seq<StoredMessage>) {
    forall i {:trigger Genuine(c, batch[i])} :: 0 <= i < |batch| ==>
      batch[i].topic == head.topic && batch[i].origin == head.origin && batch[i].headId == local + 1 + i
      && Genuine(c, batch[i]) && WellFormed(batch[i])
  }

  ghost predicate PhaseOk(c: Cluster, n: NodeId, s: Store, phase: Phase) {
    match phase
    case Choosing => true
    case Pulling(head, local, batch) =>
      && BatchOk(c, head, local, batch)
      && (if head.origin == n then head.headId <= local && batch == [] else local == CurrentHead(s, head.Log()))
    case Applying(head, local, m, batch) =>
      && BatchOk(c, head, m.headId, batch)
      && head.origin != n && m.topic == head.topic && m.origin == head.origin
      && local < m.headId == CurrentHead(s, head.Log())
      && Genuine(c, m) && WellFormed(m)
  }

  ghost predicate TaskOk(c: Cluster, n: NodeId, s: Store, task: Task) {
    task.Syncing? ==>
      && task.peer != n
      && (forall h {:trigger HeadOk(c, task.peer, h)} :: h in task.todo ==> HeadOk(c, task.peer, h))
      && (!task.phase.Choosing? ==> HeadOk(c, task.peer, task.phase.head))
      && PhaseOk(c, n, s, task.phase)
  }

  ghost predicate NodeOk(c: Cluster, n: NodeId, s: Store, task: Task) {
    StoreOk(c, s) && AppliedOk(n, s) && TaskOk(c, n, s, task)
  }

  ghost predicate KeysOk(c: Cluster) {
    && c.tasks.Keys == c.stores.Keys
    && (forall a, b {:trigger a.Key(), b.Key()} :: a in c.stores && b in c.stores && a.Key() == b.Key() ==> a == b)
  }

  ghost predicate Inv(c: Cluster) {
    KeysOk(c) && forall n {:trigger NodeOk(c, n, c.stores[n], c.tasks[n])} ::
      n in c.stores ==> NodeOk(c, n, c.stores[n], c.tasks[n])
  }

  // ---- Growth: what one node relies on of the others only becomes more true ----

  ghost predicate Grows(c: Cluster, c': Cluster) {
    && c.stores.Keys == c'.stores.Keys
    && forall a {:trigger Extends(c.stores[a], c'.stores[a])} {:trigger Markers(c'.stores[a])} ::
      a in c.stores ==> Extends(c.stores[a], c'.stores[a]) && Markers(c.stores[a]) <= Markers(c'.stores[a])
  }

  lemma GrowsAt(c: Cluster, n: NodeId, s: Store, task: Task)
    requires n in c.stores && Extends(c.stores[n], s) && Markers(c.stores[n]) <= Markers(s)
    ensures Grows(c, With(c, n, s, task))
  {
  }

  lemma DeclaredGrows(c: Cluster, c': Cluster, t: Span)
    requires Grows(c, c') && Declared(c, t)
    ensures Declared(c', t)
  {
    var a :| a in c.stores && a.Key() == t.log.origin && t in Markers(c.stores[a]);
    assert a in c'.stores && t in Markers(c'.stores[a]);
  }

  lemma GenuineGrows(c: Cluster, c': Cluster, m: StoredMessage)
    requires Grows(c, c') && Genuine(c, m)
    ensures Genuine(c', m)
  {
    assert Extends(c.stores[m.origin], c'.stores[m.origin]);
    if m.deleted {
      var t :| Declared(c, t) && t.Covers(m.Position());
      DeclaredGrows(c, c', t);
    }
  }

  lemma StoreGrows(c: Cluster, c': Cluster, s: Store)
    requires Grows(c, c') && StoreOk(c, s)
    ensures StoreOk(c', s)
  {
    forall slot | slot in s.messages ensures Genuine(c', s.messages[slot]) {
      GenuineGrows(c, c', s.messages[slot]);
    }
    forall t | t in s.tombstones ensures Declared(c', t) {
      DeclaredGrows(c, c', t);
    }
  }

  lemma BatchGrows(c: Cluster, c': Cluster, head: TopicHead, local: nat, batch: seq<StoredMessage>)
    requires Grows(c, c') && BatchOk(c, head, local, batch)
    ensures BatchOk(c', head, local, batch)
  {
    forall i | 0 <= i < |batch| ensures Genuine(c', batch[i]) {
      assert Genuine(c, batch[i]);
      GenuineGrows(c, c', batch[i]);
    }
    assert forall i :: 0 <= i < |batch| ==> Genuine(c, batch[i]);
  }

  lemma HeadGrows(c: Cluster, c': Cluster, peer: NodeId, head: TopicHead)
    requires Grows(c, c') && HeadOk(c, peer, head)
    ensures HeadOk(c', peer, head)
  {
    assert Extends(c.stores[peer], c'.stores[peer]);
  }

  /** A sync task survives growth as long as its own node's head for the log it pulls stays put. */
  lemma TaskGrows(c: Cluster, c': Cluster, n: NodeId, s: Store, s': Store, task: Task)
    requires Grows(c, c') && TaskOk(c, n, s, task)
    requires task.Syncing? && !task.phase.Choosing? && task.phase.head.origin != n ==>
               CurrentHead(s, task.phase.head.Log()) == CurrentHead(s', task.phase.head.Log())
    ensures TaskOk(c', n, s', task)
  {
    if task.Syncing? {
      forall h | h in task.todo ensures HeadOk(c', task.peer, h) {
        HeadGrows(c, c', task.peer, h);
      }
      match task.phase
      case Choosing =>
      case Pulling(head, local, batch) =>
        HeadGrows(c, c', task.peer, head);
        BatchGrows(c, c', head, local, batch);
      case Applying(head, local, m, batch) =>
        HeadGrows(c, c', task.peer, head);
        BatchGrows(c, c', head, m.headId, batch);
        GenuineGrows(c, c', m);
    }
  }

  /** A step of node `n` keeps the invariant if it grows the cluster and leaves `n` itself in order. */
  lemma LocalStep(c: Cluster, n: NodeId, s: Store, task: Task)
    requires Inv(c) && n in c.stores
    requires Grows(c, With(c, n, s, task)) && NodeOk(With(c, n, s, task), n, s, task)
    ensures Inv(With(c, n, s, task))
  {
    var c' := With(c, n, s, task);
    forall x | x in c'.stores ensures NodeOk(c', x, c'.stores[x], c'.tasks[x]) {
      if x != n {
        assert NodeOk(c, x, c.stores[x], c.tasks[x]);
        StoreGrows(c, c', c.stores[x]);
        TaskGrows(c, c', x, c.stores[x], c.stores[x], c.tasks[x]);
      }
    }
  }

  // ---- Store operations inside the cluster ----

  /** Delete markers are never deleted: no declared range lies in a marker log. */
  lemma MarkersAreLive(c: Cluster, t: Span)
    requires Inv(c) && Declared(c, t)
    ensures t.log.topic != DELETE_TOPIC
  {
    var a :| a in c.stores && a.Key() == t.log.origin && t in Markers(c.stores[a]);
    assert NodeOk(c, a, c.stores[a], c.tasks[a]);
    var slot :| slot in c.stores[a].messages && c.stores[a].messages[slot].IsMarker()
                && c.stores[a].messages[slot].payload.range.Extent() == t;
    assert WellFormed(c.stores[a].messages[slot]);
  }

  ghost predicate SparesMarkers(spans: set<Span>) {
    forall t :: t in spans ==> t.log.topic != DELETE_TOPIC
  }

  lemma TombstonesSpareMarkers(c: Cluster, n: NodeId)
    requires Inv(c) && n in c.stores
    ensures SparesMarkers(c.stores[n].tombstones)
  {
    forall t | t in c.stores[n].tombstones ensures t.log.topic != DELETE_TOPIC {
      assert NodeOk(c, n, c.stores[n], c.tasks[n]);
      MarkersAreLive(c, t);
    }
  }

  lemma MarkersOfErase(s: Store, spans: set<Span>)
    requires Valid(s) && SparesMarkers(spans)
    ensures Markers(Erase(s, spans)) == Markers(s)
  {
    var s' := Erase(s, spans);
    forall slot | slot in s.messages ensures s'.messages[slot].IsMarker() <==> s.messages[slot].IsMarker()
                                     ensures s'.messages[slot].payload == s.messages[slot].payload {
      assert s.messages[slot].Position() == slot;
      assert CoveredBy(spans, slot) ==> slot.log.topic != DELETE_TOPIC;
    }
    SameMarkers(s, s');
    SameMarkers(s', s);
  }

  lemma SameMarkers(s: Store, s': Store)
    requires forall slot :: slot in s.messages && s.messages[slot].IsMarker() ==>
               slot in s'.messages && s'.messages[slot].IsMarker() &&
                 s'.messages[slot].payload == s.messages[slot].payload
    ensures Markers(s) <= Markers(s')
  {
    forall t | t in Markers(s) ensures t in Markers(s') {
      var slot :| slot in s.messages && s.messages[slot].IsMarker() && s.messages[slot].payload.range.Extent() == t;
      assert s'.messages[slot].payload.range.Extent() == t;
    }
  }

  function Extents(m: StoredMessage): set<Span> {
    if m.IsMarker() then {m.payload.range.Extent()} else {}
  }

  /** Storing a message at a free slot adds exactly the range it names, if it is a marker. */
  lemma MarkersOfInsert(s: Store, s': Store, m: StoredMessage)
    requires m.Position() !in s.messages && s'.messages == s.messages[m.Position() := m]
    ensures Markers(s') == Markers(s) + Extents(m)
  {
    SameMarkers(s, s');
    if m.IsMarker() {
      assert s'.messages[m.Position()].IsMarker();
    }
    forall t | t in Markers(s') ensures t in Markers(s) + Extents(m) {
      var slot :| slot in s'.messages && s'.messages[slot].IsMarker() && s'.messages[slot].payload.range.Extent() == t;
      if slot != m.Position() {
        assert s.messages[slot].IsMarker();
      }
    }
  }

  /** `w` is the state after the step; `s` is the store before it. */
  lemma EraseOk(w: Cluster, s: Store, spans: set<Span>)
    requires StoreOk(w, s) && forall t :: t in spans ==> Declared(w, t)
    ensures StoreOk(w, Erase(s, spans))
  {
    EraseKeepsValid(s, spans);
    var s' := Erase(s, spans);
    forall slot | slot in s'.messages ensures Genuine(w, s'.messages[slot]) && WellFormed(s'.messages[slot]) {
      assert s.messages[slot].Position() == slot && Genuine(w, s.messages[slot]) && WellFormed(s.messages[slot]);
      if CoveredBy(spans, slot) {
        var t :| t in spans && t.Covers(slot);
        assert Declared(w, t);
      }
    }
  }

  lemma StampGenuine(w: Cluster, s: Store, m: StoredMessage)
    requires StoreOk(w, s) && Genuine(w, m) && WellFormed(m)
    ensures Genuine(w, Stamp(s, m)) && WellFormed(Stamp(s, m))
  {
    if CoveredBy(s.tombstones, m.Position()) {
      var t :| t in s.tombstones && t.Covers(m.Position());
      assert Declared(w, t);
    }
  }

  lemma InsertOk(w: Cluster, s: Store, s': Store, m: StoredMessage)
    requires StoreOk(w, s) && Valid(s') && s'.tombstones == s.tombstones && s'.messages == s.messages[m.Position() := m]
    requires Genuine(w, m) && WellFormed(m)
    ensures StoreOk(w, s')
  {
  }

  // ---- Each step keeps the invariant ----

  lemma OtherOriginsLog(c: Cluster, a: NodeId, b: NodeId)
    requires KeysOk(c) && a in c.stores && b in c.stores && a != b
    ensures a.Key() != b.Key()
  {
  }

  lemma OwnLogsOnly(c: Cluster, n: NodeId, task: Task, s: Store, s': Store, log: LogKey)
    requires Inv(c) && n in c.stores && TaskOk(c, n, s, task) && log.origin == n.Key()
    requires forall other :: other != log ==> CurrentHead(s, other) == CurrentHead(s', other)
    ensures task.Syncing? && !task.phase.Choosing? && task.phase.head.origin != n ==>
              CurrentHead(s, task.phase.head.Log()) == CurrentHead(s', task.phase.head.Log())
  {
    if task.Syncing? && !task.phase.Choosing? && task.phase.head.origin != n {
      OtherOriginsLog(c, task.phase.head.origin, n);
    }
  }

  lemma PublishKeepsInv(c: Cluster, n: NodeId, message: NewMessage, now: u64)
    requires Inv(c) && n in c.stores && message.origin == n && message.topic != DELETE_TOPIC
    requires CurrentHead(c.stores[n], LogKey(message.topic, n.Key())) < U64_MAX
    ensures Inv(With(c, n, Append(c.stores[n], message, now).0, c.tasks[n]))
  {
    var s, task := c.stores[n], c.tasks[n];
    assert NodeOk(c, n, s, task);
    var (s', m) := Append(s, message, now);
    var c' := With(c, n, s', task);
    AppendExtends(s, message, now);
    AppendKeepsValid(s, message, now);
    MarkersOfInsert(s, s', m);
    GrowsAt(c, n, s', task);
    StoreGrows(c, c', s);
    if m.deleted {
      var t :| t in s.tombstones && t.Covers(m.Position());
      assert Declared(c', t);
    }
    InsertOk(c', s, s', m);
    OwnLogsOnly(c, n, task, s, s', m.Log());
    TaskGrows(c, c', n, s, s', task);
    LocalStep(c, n, s', task);
  }

  /** A delete adds its range to the tombstones and its marker, live, to the end of the marker log. */
  lemma DeleteOnStore(s: Store, range: TombstoneRange, id: string, now: u64)
    requires Valid(s) && SparesMarkers(s.tombstones) && range.topic != DELETE_TOPIC && range.from <= range.to
    requires CurrentHead(s, LogKey(DELETE_TOPIC, range.origin.Key())) < U64_MAX
    ensures var s1 := Erase(s, {range.Extent()});
            var (s', r) := TombstoneWithMarker(s, range, DELETE_TOPIC, range.origin, id, now);
            && r.Ok?
            && var m := r.value.1;
            && Valid(s') && Extends(s, s') && Markers(s') == Markers(s) + {range.Extent()}
            && s'.messages == s1.messages[m.Position() := m] && s'.tombstones == s1.tombstones
            && m.IsMarker() && m.payload.range == range && m.Log() == LogKey(DELETE_TOPIC, range.origin.Key())
            && forall other :: other != m.Log() ==> CurrentHead(s, other) == CurrentHead(s', other)
  {
    var t := range.Extent();
    var s1 := Erase(s, {t});
    EraseKeepsValid(s, {t});
    EraseExtends(s, {t});
    MarkersOfErase(s, {t});
    var message := MarkerFor(id, range, DELETE_TOPIC, range.origin);
    var (s', m) := Append(s1, message, now);
    AppendExtends(s1, message, now);
    AppendKeepsValid(s1, message, now);
    ExtendsTransitive(s, s1, s');
    MarkersOfInsert(s1, s', m);
  }

  lemma DeleteKeepsInv(c: Cluster, n: NodeId, range: TombstoneRange, id: string, now: u64)
    requires Inv(c) && n in c.stores && range.origin == n && range.topic != DELETE_TOPIC && range.from <= range.to
    requires CurrentHead(c.stores[n], LogKey(DELETE_TOPIC, n.Key())) < U64_MAX
    ensures Inv(With(c, n, TombstoneWithMarker(c.stores[n], range, DELETE_TOPIC, n, id, now).0, c.tasks[n]))
  {
    var s, task, t := c.stores[n], c.tasks[n], range.Extent();
    assert NodeOk(c, n, s, task);
    TombstonesSpareMarkers(c, n);
    DeleteOnStore(s, range, id, now);
    var (s', r) := TombstoneWithMarker(s, range, DELETE_TOPIC, n, id, now);
    var m := r.value.1;
    var c' := With(c, n, s', task);
    GrowsAt(c, n, s', task);
    StoreGrows(c, c', s);
    assert Declared(c', t);
    EraseOk(c', s, {t});
    InsertOk(c', Erase(s, {t}), s', m);
    OwnLogsOnly(c, n, task, s, s', m.Log());
    TaskGrows(c, c', n, s, s', task);
    LocalStep(c, n, s', task);
  }

  /** A step that changes only the sync state of a node. */
  lemma TaskChangeKeepsInv(c: Cluster, n: NodeId, task: Task)
    requires Inv(c) && n in c.stores && TaskOk(c, n, c.stores[n], task)
    ensures Inv(With(c, n, c.stores[n], task))
  {
    var s := c.stores[n];
    var c' := With(c, n, s, task);
    assert NodeOk(c, n, s, c.tasks[n]);
    GrowsAt(c, n, s, task);
    StoreGrows(c, c', s);
    TaskGrows(c, c', n, s, s, task);
    LocalStep(c, n, s, task);
  }

  /** Every marker a node holds was declared by its origin. */
  lemma HeldMarkersAreDeclared(c: Cluster, m: StoredMessage)
    requires Inv(c) && Genuine(c, m) && m.IsMarker()
    ensures Declared(c, m.payload.range.Extent()) && m.payload.range.topic != DELETE_TOPIC
  {
    var a := m.origin;
    assert NodeOk(c, a, c.stores[a], c.tasks[a]);
    var original := c.stores[a].messages[m.Position()];
    assert Genuine(c, original) && WellFormed(original);
    if original.deleted {
      var t :| Declared(c, t) && t.Covers(original.Position());
      MarkersAreLive(c, t);
    }
    assert original.IsMarker();
  }

  /** The outcome of `apply_control_message` on a message of an honest cluster: it never fails. */
  lemma ApplySucceeds(s: Store, m: StoredMessage)
    requires WellFormed(m)
    ensures ApplyControl(s, m).1 == Ok(())
    ensures ApplyControl(s, m).0 == if m.IsMarker() then Erase(s, {m.payload.range.Extent()}) else s
  {
  }

  /** Erasing ranges their origins declared, then moving the sync on. */
  lemma EraseKeepsInv(c: Cluster, n: NodeId, spans: set<Span>, task: Task)
    requires Inv(c) && n in c.stores
    requires forall t :: t in spans ==> Declared(c, t)
    requires TaskOk(c, n, c.stores[n], task)
    ensures Inv(With(c, n, Erase(c.stores[n], spans), task))
  {
    var s := c.stores[n];
    var s' := Erase(s, spans);
    var c' := With(c, n, s', task);
    assert NodeOk(c, n, s, c.tasks[n]);
    forall t | t in spans ensures t.log.topic != DELETE_TOPIC {
      MarkersAreLive(c, t);
    }
    EraseExtends(s, spans);
    MarkersOfErase(s, spans);
    GrowsAt(c, n, s', task);
    StoreGrows(c, c', s);
    forall t | t in spans ensures Declared(c', t) {
      DeclaredGrows(c, c', t);
    }
    EraseOk(c', s, spans);
    TaskGrows(c, c', n, s, s', task);
    LocalStep(c, n, s', task);
  }

  lemma ApplyKeepsInv(c: Cluster, n: NodeId)
    requires Inv(c) && Enabled(c, Apply(n))
    ensures ApplyControl(c.stores[n], c.tasks[n].phase.message).1.Ok?
    ensures Inv(Do(c, Apply(n)))
  {
    var s, task := c.stores[n], c.tasks[n];
    assert NodeOk(c, n, s, task);
    var m := task.phase.message;
    ApplySucceeds(s, m);
    var task' := ApplyStep(s, task).1;
    if m.IsMarker() {
      HeldMarkersAreDeclared(c, m);
      EraseKeepsInv(c, n, {m.payload.range.Extent()}, task');
    } else {
      TaskChangeKeepsInv(c, n, task');
    }
  }

  lemma ReplayOneKeepsInv(c: Cluster, n: NodeId, slot: Slot)
    requires Inv(c) && Enabled(c, ReplayOne(n, slot))
    ensures Inv(Do(c, ReplayOne(n, slot)))
  {
    var s := c.stores[n];
    assert NodeOk(c, n, s, c.tasks[n]);
    var m := s.messages[slot];
    ApplySucceeds(s, m);
    if m.IsMarker() {
      HeldMarkersAreDeclared(c, m);
      EraseKeepsInv(c, n, {m.payload.range.Extent()}, Down);
    } else {
      TaskChangeKeepsInv(c, n, Down);
    }
  }

  lemma RestartKeepsInv(c: Cluster, n: NodeId)
    requires Inv(c) && Enabled(c, Restart(n))
    ensures Inv(Do(c, Restart(n)))
  {
    var s := c.stores[n];
    assert NodeOk(c, n, s, c.tasks[n]);
    forall t | t in Markers(s) ensures Declared(c, t) {
      var slot :| slot in s.messages && s.messages[slot].IsMarker() && s.messages[slot].payload.range.Extent() == t;
      HeldMarkersAreDeclared(c, s.messages[slot]);
    }
    EraseKeepsInv(c, n, Markers(s), Idle);
  }

  /** The next message of a batch always goes in: no conflict, no gap. */
  lemma PutSucceeds(c: Cluster, n: NodeId)
    requires Inv(c) && Enabled(c, Put(n))
    ensures var s, task := c.stores[n], c.tasks[n];
            var m := task.phase.batch[0];
            && m.topic == task.phase.head.topic && m.origin == task.phase.head.origin != n
            && m.headId == CurrentHead(s, m.Log()) + 1 && m.Position() !in s.messages
            && PutReplicated(s, m) == (Install(s, Stamp(s, m)), Ok(Inserted))
  {
    assert NodeOk(c, n, c.stores[n], c.tasks[n]);
    assert Genuine(c, c.tasks[n].phase.batch[0]);
  }

  /** Storing the next message of a log whose slot is free. */
  lemma PutOnStore(s: Store, m: StoredMessage)
    requires Valid(s) && m.headId == CurrentHead(s, m.Log()) + 1
    ensures var s' := Install(s, Stamp(s, m));
            && Valid(s') && Extends(s, s') && Markers(s') == Markers(s) + Extents(Stamp(s, m))
            && s'.messages == s.messages[m.Position() := Stamp(s, m)] && s'.tombstones == s.tombstones
            && CurrentHead(s', m.Log()) == m.headId
  {
    assert PutReplicated(s, m).0 == Install(s, Stamp(s, m));
    PutKeepsValid(s, m);
    PutExtends(s, m);
    MarkersOfInsert(s, Install(s, Stamp(s, m)), Stamp(s, m));
  }

  lemma PutStoreOk(c: Cluster, c': Cluster, s: Store, m: StoredMessage)
    requires Grows(c, c') && StoreOk(c, s) && Genuine(c, m) && WellFormed(m) && m.headId == CurrentHead(s, m.Log()) + 1
    ensures StoreOk(c', Install(s, Stamp(s, m)))
  {
    PutOnStore(s, m);
    StoreGrows(c, c', s);
    GenuineGrows(c, c', m);
    StampGenuine(c', s, m);
    InsertOk(c', s, Install(s, Stamp(s, m)), Stamp(s, m));
  }

  lemma TaskAfterPut(c: Cluster, c': Cluster, n: NodeId, s: Store, s': Store, task: Task)
    requires Grows(c, c') && TaskOk(c, n, s, task) && task.Syncing? && task.phase.Pulling? && task.phase.batch != []
    requires CurrentHead(s', task.phase.head.Log()) == task.phase.batch[0].headId
    ensures TaskOk(c', n, s',
          task.(phase := Applying(task.phase.head, task.phase.local, task.phase.batch[0], task.phase.batch[1..])))
  {
    var head, local, batch := task.phase.head, task.phase.local, task.phase.batch;
    BatchGrows(c, c', head, local, batch);
    HeadGrows(c, c', task.peer, head);
    forall h | h in task.todo ensures HeadOk(c', task.peer, h) {
      HeadGrows(c, c', task.peer, h);
    }
    assert Genuine(c', batch[0]);
    forall i | 0 <= i < |batch[1..]|
      ensures Genuine(c', batch[1..][i]) && batch[1..][i] == batch[i + 1] && WellFormed(batch[i + 1])
      ensures batch[i + 1].topic == head.topic && batch[i + 1].origin == head.origin
      ensures batch[i + 1].headId == local + 2 + i
    {
      assert Genuine(c', batch[i + 1]);
    }
  }

  lemma PutKeepsInv(c: Cluster, n: NodeId)
    requires Inv(c) && Enabled(c, Put(n))
    ensures Inv(Do(c, Put(n)))
  {
    var s, task := c.stores[n], c.tasks[n];
    PutSucceeds(c, n);
    var s', task' := Install(s, Stamp(s, task.phase.batch[0])), PutStep(s, task).1;
    PutNodeOk(c, n, task.phase.batch[0], s', task');
    LocalStep(c, n, s', task');
  }

  lemma PutNodeOk(c: Cluster, n: NodeId, m: StoredMessage, s': Store, task': Task)
    requires Inv(c) && Enabled(c, Put(n)) && m == c.tasks[n].phase.batch[0]
    requires s' == Install(c.stores[n], Stamp(c.stores[n], m))
    requires task' == PutStep(c.stores[n], c.tasks[n]).1
    ensures Grows(c, With(c, n, s', task')) && NodeOk(With(c, n, s', task'), n, s', task')
  {
    var s, task := c.stores[n], c.tasks[n];
    assert NodeOk(c, n, s, task);
    PutSucceeds(c, n);
    assert Genuine(c, m);
    PutOnStore(s, m);
    GrowsAt(c, n, s', task');
    PutStoreOk(c, With(c, n, s', task'), s, m);
    MarkerStampedIntact(c, n, m);
    OtherOriginsLog(c, m.origin, n);
    AppliedAfterPut(n, s, s', m);
    TaskAfterPut(c, With(c, n, s', task'), n, s, s', task);
  }

  /** A marker just stored is another node's. */
  lemma AppliedAfterPut(n: NodeId, s: Store, s': Store, m: StoredMessage)
    requires AppliedOk(n, s) && m.origin.Key() != n.Key()
    requires Markers(s') == Markers(s) + Extents(m) && s'.tombstones == s.tombstones
    ensures AppliedOk(n, s')
  {
  }

  /** Stamping never deletes a marker, so it names the same range before and after. */
  lemma MarkerStampedIntact(c: Cluster, n: NodeId, m: StoredMessage)
    requires Inv(c) && n in c.stores && Genuine(c, m)
    ensures Extents(Stamp(c.stores[n], m)) == Extents(m)
  {
    TombstonesSpareMarkers(c, n);
  }

  /** No node is ahead of the origin of a log. */
  lemma BehindOrigin(c: Cluster, n: NodeId, a: NodeId, log: LogKey)
    requires Inv(c) && n in c.stores && a in c.stores && a.Key() == log.origin
    ensures CurrentHead(c.stores[n], log) <= CurrentHead(c.stores[a], log)
  {
    var s := c.stores[n];
    assert NodeOk(c, n, s, c.tasks[n]) && NodeOk(c, a, c.stores[a], c.tasks[a]);
    if log in s.heads {
      var slot := Slot(log, s.heads[log]);
      assert slot in s.messages && Genuine(c, s.messages[slot]);
      assert s.messages[slot].origin == a;
      assert slot in c.stores[a].messages;
    }
  }

  lemma NextHeadKeepsInv(c: Cluster, n: NodeId)
    requires Inv(c) && Enabled(c, NextHead(n))
    ensures Inv(Do(c, NextHead(n)))
  {
    var s, task := c.stores[n], c.tasks[n];
    assert NodeOk(c, n, s, task);
    var head := task.todo[0];
    assert HeadOk(c, task.peer, head);
    if head.origin == n {
      BehindOrigin(c, task.peer, n, head.Log());
    }
    TaskChangeKeepsInv(c, n, Do(c, NextHead(n)).tasks[n]);
  }

  /** A fetch asks for another node's log, and the peer always has something to send. */
  lemma FetchBatch(c: Cluster, n: NodeId, limit: u32)
    requires Inv(c) && Enabled(c, Fetch(n, limit))
    ensures var task := c.tasks[n];
            var batch := Page(c.stores[task.peer], task.phase.head.Log(), Next(task.phase.local),
                EffectiveLimit(Max(limit, 1)));
            task.phase.head.origin != n && batch != [] && BatchOk(c, task.phase.head, task.phase.local, batch)
  {
    var task := c.tasks[n];
    assert NodeOk(c, n, c.stores[n], task);
    var head, local, p := task.phase.head, task.phase.local, c.stores[task.peer];
    assert NodeOk(c, task.peer, p, c.tasks[task.peer]) && HeadOk(c, task.peer, head);
    PageIsConsecutive(p, head.Log(), Next(local), EffectiveLimit(Max(limit, 1)));
    FetchedOk(c, task.peer, head, local, EffectiveLimit(Max(limit, 1)),
        Page(p, head.Log(), Next(local), EffectiveLimit(Max(limit, 1))));
  }

  lemma FetchedOk(c: Cluster, peer: NodeId, head: TopicHead, local: u64, limit: nat, batch: seq<StoredMessage>)
    requires Inv(c) && peer in c.stores && HeadOk(c, peer, head)
    requires IsPage(c.stores[peer], head.Log(), local + 1, CurrentHead(c.stores[peer], head.Log()), limit, batch)
    ensures BatchOk(c, head, local, batch)
  {
    var p := c.stores[peer];
    assert NodeOk(c, peer, p, c.tasks[peer]);
    forall i | 0 <= i < |batch|
      ensures batch[i].topic == head.topic && batch[i].origin == head.origin && batch[i].headId == local + 1 + i
      ensures Genuine(c, batch[i]) && WellFormed(batch[i])
    {
      var slot := Slot(head.Log(), local + 1 + i);
      assert slot in p.messages && batch[i] == p.messages[slot] && batch[i].Position() == slot;
      assert Genuine(c, batch[i]);
    }
  }

  lemma FetchKeepsInv(c: Cluster, n: NodeId, limit: u32)
    requires Inv(c) && Enabled(c, Fetch(n, limit))
    ensures Inv(Do(c, Fetch(n, limit)))
  {
    assert NodeOk(c, n, c.stores[n], c.tasks[n]);
    FetchBatch(c, n, limit);
    TaskChangeKeepsInv(c, n, Do(c, Fetch(n, limit)).tasks[n]);
  }

  lemma ListedHeadsOk(c: Cluster, p: NodeId, listing: seq<TopicHead>, h: TopicHead)
    requires Inv(c) && p in c.stores && Lists(listing, c.stores[p]) && h in listing
    ensures HeadOk(c, p, h)
  {
    var s := c.stores[p];
    assert NodeOk(c, p, s, c.tasks[p]);
    ListHeadsIsTheHeads(s);
    assert h in ListHeads(s).value;
    var log :| log in s.heads && h == HeadEntry(s, log);
    assert Genuine(c, s.messages[Slot(log, s.heads[log])]);
  }

  lemma StartKeepsInv(c: Cluster, n: NodeId, p: NodeId, listing: seq<TopicHead>)
    requires Inv(c) && Enabled(c, Start(n, p, listing))
    ensures Inv(Do(c, Start(n, p, listing)))
  {
    assert NodeOk(c, n, c.stores[n], c.tasks[n]);
    forall h | h in listing ensures HeadOk(c, p, h) {
      ListedHeadsOk(c, p, listing, h);
    }
    TaskChangeKeepsInv(c, n, Syncing(p, listing, Choosing));
  }

  lemma UnchangedKeepsInv(c: Cluster, n: NodeId)
    requires Inv(c) && n in c.stores
    ensures Inv(With(c, n, c.stores[n], c.tasks[n]))
  {
    assert With(c, n, c.stores[n], c.tasks[n]) == c;
  }

  lemma WriteKeepsInv(c: Cluster, e: Event)
    requires Inv(c) && Enabled(c, e) && (e.Publish? || e.Delete?)
    ensures Inv(Do(c, e))
  {
    var n := e.node;
    if e.Publish? {
      var topic, origin := Server.ApplicationTopic(e.post.topic), Server.OwnedOrigin(n, e.post.origin);
      if topic.Ok? && origin.Ok? {
        PublishKeepsInv(c, n, NewMessage(e.id, topic.value, n, e.post.payload, e.post.headers), e.now);
      } else {
        UnchangedKeepsInv(c, n);
      }
    } else {
      var topic, origin := Server.ApplicationTopic(e.cut.topic), Server.OwnedOrigin(n, e.cut.origin);
      if topic.Ok? && origin.Ok? && e.cut.from <= e.cut.to {
        DeleteKeepsInv(c, n, TombstoneRange(topic.value, n, e.cut.from, e.cut.to, e.createdAt), e.id, e.now);
      } else {
        UnchangedKeepsInv(c, n);
      }
    }
  }

  lemma StepKeepsInv(c: Cluster, e: Event)
    requires Inv(c) && Enabled(c, e)
    ensures Inv(Do(c, e))
  {
    var n := e.node;
    assert NodeOk(c, n, c.stores[n], c.tasks[n]);
    match e
    case Publish(_, _, _, _) => WriteKeepsInv(c, e);
    case Delete(_, _, _, _, _) => WriteKeepsInv(c, e);
    case Start(_, p, listing) => StartKeepsInv(c, n, p, listing);
    case NextHead(_) => NextHeadKeepsInv(c, n);
    case Fetch(_, limit) => FetchKeepsInv(c, n, limit);
    case Put(_) => PutKeepsInv(c, n);
    case Apply(_) => ApplyKeepsInv(c, n);
    case EndHead(_) => TaskChangeKeepsInv(c, n, c.tasks[n].(phase := Choosing));
    case Finish(_) => TaskChangeKeepsInv(c, n, Idle);
    case Abort(_) => TaskChangeKeepsInv(c, n, Idle);
    case Crash(_) => TaskChangeKeepsInv(c, n, Down);
    case ReplayOne(_, slot) => ReplayOneKeepsInv(c, n, slot);
    case Restart(_) => RestartKeepsInv(c, n);
  }

  /** A store operation that fails leaves the cluster in order. */
  lemma FailKeepsInv(c: Cluster, e: Event)
    requires Inv(c) && Enabled(c, e)
    ensures Inv(Fail(c, e))
  {
    var n := e.node;
    assert NodeOk(c, n, c.stores[n], c.tasks[n]);
    TaskChangeKeepsInv(c, n, Fail(c, e).tasks[n]);
  }

  lemma InitInv(c: Cluster)
    requires IsInit(c)
    ensures Inv(c)
  {
  }

  /** Every state of a run that starts in order is in order, whatever fails on the way. */
  lemma {:induction false} RunKeepsInv(t: Trace, i: nat)
    requires IsRun(t) && Inv(t.states[0]) && i < |t.states|
    ensures Inv(t.states[i])
  {
    if i > 0 {
      RunKeepsInv(t, i - 1);
      assert AttemptsAt(t, i - 1);
      StepKeepsInv(t.states[i - 1], t.events[i - 1]);
      FailKeepsInv(t.states[i - 1], t.events[i - 1]);
    }
  }
}
