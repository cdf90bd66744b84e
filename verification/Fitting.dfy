/**
 * Where ids are fresh and heads, range ends and clock readings fit SQLite's columns, no step of a mixed cluster fails,
 * so every result about runs without failures holds of it.
 */
module Fitting {
  import opened Domain
  import opened StoreModel
  import opened StoreLaws
  import opened Cluster
  import opened ClusterInvariant
  import opened Applied
  import opened ClusterSafety
  import opened Convergence
  import opened Mixed
  import Portability
  import Server
  import Sqlite

  // ---- What fits ----

  ghost predicate Own(c: Cluster, a: NodeId, slot: Slot) {
    a in c.stores && slot in c.stores[a].messages && slot.log.origin == a.Key()
  }

  predicate MessageFits(m: StoredMessage) {
    && m.headId <= I64_MAX && m.createdAtMs <= I64_MAX
    && (m.topic == DELETE_TOPIC && m.payload.Encoded? ==> m.payload.range.to <= I64_MAX)
  }

  /** Two positions of origins' own logs do not share an id. */
  ghost predicate Distinct(c: Cluster, a: NodeId, x: Slot, b: NodeId, y: Slot) {
    Own(c, a, x) && Own(c, b, y) && c.stores[a].messages[x].id == c.stores[b].messages[y].id ==> x == y
  }

  /** What the origins themselves hold fits, and no two positions share an id. */
  ghost predicate ClusterFits(c: Cluster) {
    && (forall a, slot {:trigger Own(c, a, slot)} :: Own(c, a, slot) ==> MessageFits(c.stores[a].messages[slot]))
    && (forall a, x, b, y {:trigger Distinct(c, a, x, b, y)} :: Distinct(c, a, x, b, y))
  }

  ghost predicate FreshId(c: Cluster, id: string) {
    forall a, slot {:trigger Own(c, a, slot)} :: Own(c, a, slot) ==> c.stores[a].messages[slot].id != id
  }

  /** What a step has to respect: a fresh id, and a head, a range end and clock readings that fit a signed column. */
  ghost predicate Fits(c: Cluster, e: Event, clock: u64)
    requires Enabled(c, e)
  {
    && clock <= I64_MAX
    && (e.Publish? ==>
          && FreshId(c, e.id) && e.now <= I64_MAX
          && CurrentHead(c.stores[e.node], LogKey(e.post.topic, e.node.Key())) < I64_MAX)
    && (e.Delete? ==>
          && FreshId(c, e.id) && e.now <= I64_MAX && e.createdAt <= I64_MAX && e.cut.to <= I64_MAX
          && CurrentHead(c.stores[e.node], LogKey(DELETE_TOPIC, e.node.Key())) < I64_MAX)
  }

  /** Whatever a node holds fits, because its origin's copy does. */
  lemma HeldFits(c: Cluster, m: StoredMessage)
    requires Inv(c) && ClusterFits(c) && Genuine(c, m)
    ensures MessageFits(m) && Own(c, m.origin, m.Position())
  {
    assert Own(c, m.origin, m.Position());
  }

  lemma StoreFits(c: Cluster, n: NodeId)
    requires Inv(c) && ClusterFits(c) && n in c.stores
    ensures Valid(c.stores[n]) && Portability.HeadsFit(c.stores[n])
  {
    var s := c.stores[n];
    assert NodeOk(c, n, s, c.tasks[n]);
    forall log | log in s.heads ensures s.heads[log] <= I64_MAX {
      var slot := Slot(log, s.heads[log]);
      assert slot in s.messages && Genuine(c, s.messages[slot]) && s.messages[slot].Position() == slot;
      HeldFits(c, s.messages[slot]);
    }
  }

  /** On a node of a fitting cluster, a portable operation gives the same on either backend. */
  lemma SameOn(c: Cluster, n: NodeId, b: Backend, op: Op)
    requires Inv(c) && ClusterFits(c) && n in c.stores && Portability.Portable(c.stores[n], op)
    ensures Operate(b, c.stores[n], op) == Step(c.stores[n], op)
  {
    StoreFits(c, n);
    Portability.AgreeIffPortable(c.stores[n], op);
  }

  lemma NotInUse(c: Cluster, n: NodeId, id: string)
    requires Inv(c) && n in c.stores && FreshId(c, id)
    ensures !Sqlite.IdInUse(c.stores[n], id)
  {
    var s := c.stores[n];
    assert NodeOk(c, n, s, c.tasks[n]);
    forall slot | slot in s.messages ensures s.messages[slot].id != id {
      assert Genuine(c, s.messages[slot]);
      assert Own(c, s.messages[slot].origin, s.messages[slot].Position());
    }
  }

  // ---- Every operation of a fitting step is portable ----

  lemma PublishSame(c: Cluster, e: Event, b: Backend)
    requires Inv(c) && ClusterFits(c) && e.Publish? && Enabled(c, e) && Fits(c, e, 0)
    ensures PublishOn(b, e.node, c.stores[e.node], e.post, e.id, e.now)
            == Server.Publish(e.node, c.stores[e.node], e.post, e.id, e.now).0
  {
    var message := NewMessage(e.id, e.post.topic, e.node, e.post.payload, e.post.headers);
    NotInUse(c, e.node, e.id);
    SameOn(c, e.node, b, AppendOp(message, e.now));
  }

  lemma DeleteIsPortable(s: Store, range: TombstoneRange, origin: NodeId, id: string, now: u64)
    requires range.to <= I64_MAX && range.createdAtMs <= I64_MAX && now <= I64_MAX && !Sqlite.IdInUse(s, id)
    requires CurrentHead(s, LogKey(DELETE_TOPIC, origin.Key())) < I64_MAX
    ensures Portability.Portable(s, DeleteOp(range, DELETE_TOPIC, origin, id, now))
  {
    var s' := Erase(s, {range.Extent()});
    assert forall slot :: slot in s'.messages ==> slot in s.messages && s'.messages[slot].id == s.messages[slot].id;
  }

  lemma DeleteSame(c: Cluster, e: Event, b: Backend)
    requires Inv(c) && ClusterFits(c) && e.Delete? && Enabled(c, e) && Fits(c, e, 0)
    ensures DeleteOn(b, e.node, c.stores[e.node], e.cut, e.id, e.createdAt, e.now)
            == Server.DeleteRange(e.node, c.stores[e.node], e.cut, e.id, e.createdAt, e.now).0
  {
    var range := RangeOf(e.node, e.cut, e.createdAt);
    NotInUse(c, e.node, e.id);
    DeleteIsPortable(c.stores[e.node], range, e.node, e.id, e.now);
    SameOn(c, e.node, b, DeleteOp(range, DELETE_TOPIC, e.node, e.id, e.now));
  }

  /** Acting on a message the cluster produced is the same on either backend. */
  lemma ControlSame(c: Cluster, n: NodeId, b: Backend, m: StoredMessage, clock: u64)
    requires Inv(c) && ClusterFits(c) && n in c.stores && Genuine(c, m) && clock <= I64_MAX
    ensures ControlOn(b, c.stores[n], m, clock) == (ApplyControl(c.stores[n], m).0, ApplyControl(c.stores[n], m).1.Ok?)
  {
    HeldFits(c, m);
    if m.topic == DELETE_TOPIC && m.payload.Encoded? {
      SameOn(c, n, b, RangeOp(m.payload.range, clock));
    }
  }

  lemma FetchSame(fleet: Fleet, c: Cluster, e: Event, clock: u64)
    requires Inv(c) && ClusterFits(c) && e.Fetch? && Enabled(c, e) && Covers(fleet, c)
    ensures DoOn(fleet, c, e, clock) == Do(c, e)
  {
    var task := c.tasks[e.node];
    assert NodeOk(c, e.node, c.stores[e.node], task) && HeadOk(c, task.peer, task.phase.head);
    StoreFits(c, task.peer);
    var head, local := task.phase.head, task.phase.local;
    assert head.Log() in c.stores[task.peer].heads;
    SameOn(c, task.peer, fleet[task.peer], FetchOp(head.topic, head.origin, Next(local), Max(e.limit, 1)));
  }

  lemma PutSame(c: Cluster, n: NodeId, b: Backend)
    requires Inv(c) && ClusterFits(c) && Enabled(c, Put(n))
    ensures PutOn(b, c.stores[n], c.tasks[n]) == PutStep(c.stores[n], c.tasks[n])
  {
    var s, m := c.stores[n], c.tasks[n].phase.batch[0];
    assert NodeOk(c, n, s, c.tasks[n]) && Genuine(c, m);
    PutSucceeds(c, n);
    HeldFits(c, m);
    forall slot | slot in s.messages ensures s.messages[slot].id != m.id {
      assert Genuine(c, s.messages[slot]) && s.messages[slot].Position() == slot;
      HeldFits(c, s.messages[slot]);
      assert Distinct(c, s.messages[slot].origin, slot, m.origin, m.Position());
    }
    SameOn(c, n, b, PutOp(m));
  }

  lemma RestartSame(c: Cluster, n: NodeId, b: Backend, clock: u64)
    requires Inv(c) && ClusterFits(c) && n in c.stores && clock <= I64_MAX
    ensures TakesMarkers(b, c.stores[n], clock)
  {
    var s := c.stores[n];
    assert NodeOk(c, n, s, c.tasks[n]);
    forall slot | slot in s.messages && s.messages[slot].IsMarker() ensures ControlOn(b, s, s.messages[slot], clock).1 {
      assert Genuine(c, s.messages[slot]);
      ControlSame(c, n, b, s.messages[slot], clock);
    }
  }

  /** A fitting step of a fitting cluster does the same on any mix of backends. */
  lemma SameStep(fleet: Fleet, c: Cluster, e: Event, clock: u64)
    requires Inv(c) && ClusterFits(c) && Enabled(c, e) && Covers(fleet, c) && Fits(c, e, clock)
    ensures DoOn(fleet, c, e, clock) == Do(c, e)
  {
    var n := e.node;
    assert NodeOk(c, n, c.stores[n], c.tasks[n]);
    match e
    case Publish(_, _, _, _) => PublishSame(c, e, fleet[n]);
    case Delete(_, _, _, _, _) => DeleteSame(c, e, fleet[n]);
    case Fetch(_, _) => FetchSame(fleet, c, e, clock);
    case Put(_) => PutSame(c, n, fleet[n]);
    case Apply(_) => ControlSame(c, n, fleet[n], c.tasks[n].phase.message, clock);
    case ReplayOne(_, slot) =>
      assert Genuine(c, c.stores[n].messages[slot]);
      ControlSame(c, n, fleet[n], c.stores[n].messages[slot], clock);
    case Restart(_) => RestartSame(c, n, fleet[n], clock);
    case _ =>
  }

  // ---- A fitting cluster stays one ----

  /** An origin's message was there before, up to the deleted flag. */
  ghost predicate Kept(c: Cluster, c': Cluster, a: NodeId, slot: Slot)
    requires Own(c', a, slot)
  {
    Own(c, a, slot) && c.stores[a].messages[slot].Same(c'.stores[a].messages[slot])
  }

  /** It is the message just written. */
  ghost predicate Written(c': Cluster, a: NodeId, slot: Slot, n: NodeId, at: Slot, id: string)
    requires Own(c', a, slot)
  {
    a == n && slot == at && c'.stores[a].messages[slot].id == id && MessageFits(c'.stores[a].messages[slot])
  }

  lemma FittingGrows(c: Cluster, c': Cluster, n: NodeId, at: Slot, id: string)
    requires Inv(c) && ClusterFits(c) && FreshId(c, id)
    requires forall a, slot {:trigger Own(c', a, slot)} ::
        Own(c', a, slot) ==> Kept(c, c', a, slot) || Written(c', a, slot, n, at, id)
    ensures ClusterFits(c')
  {
    forall a, slot | Own(c', a, slot) ensures MessageFits(c'.stores[a].messages[slot]) {
      assert Kept(c, c', a, slot) || Written(c', a, slot, n, at, id);
    }
    forall a, x, b, y ensures Distinct(c', a, x, b, y) {
      if Own(c', a, x) && Own(c', b, y) {
        assert Kept(c, c', a, x) || Written(c', a, x, n, at, id);
        assert Kept(c, c', b, y) || Written(c', b, y, n, at, id);
        assert Distinct(c, a, x, b, y);
      }
    }
  }

  lemma FittingKept(c: Cluster, c': Cluster)
    requires ClusterFits(c) && forall a, slot {:trigger Own(c', a, slot)} :: Own(c', a, slot) ==> Kept(c, c', a, slot)
    ensures ClusterFits(c')
  {
    forall a, slot | Own(c', a, slot) ensures MessageFits(c'.stores[a].messages[slot]) {
      assert Kept(c, c', a, slot);
    }
    forall a, x, b, y ensures Distinct(c', a, x, b, y) {
      if Own(c', a, x) && Own(c', b, y) {
        assert Kept(c, c', a, x) && Kept(c, c', b, y) && Distinct(c, a, x, b, y);
      }
    }
  }

  /** Steps other than writes add nothing to a node's own logs. */
  lemma QuietKeepsOwn(c: Cluster, e: Event, a: NodeId, slot: Slot)
    requires Inv(c) && Enabled(c, e) && !e.Publish? && !e.Delete? && Own(Do(c, e), a, slot)
    ensures Kept(c, Do(c, e), a, slot)
  {
    var c' := Do(c, e);
    StepKeepsInv(c, e);
    assert NodeOk(c, a, c.stores[a], c.tasks[a]) && NodeOk(c', a, c'.stores[a], c'.tasks[a]);
    QuietStep(c, e, a, slot.log);
    assert slot in c'.stores[a].messages && slot in c.stores[a].messages;
    StoreStepExtends(c, e);
  }

  lemma PublishKeepsFitting(c: Cluster, e: Event)
    requires Inv(c) && ClusterFits(c) && e.Publish? && Enabled(c, e) && Fits(c, e, 0)
    ensures ClusterFits(Do(c, e))
  {
    var c', n, s := Do(c, e), e.node, c.stores[e.node];
    var message := NewMessage(e.id, e.post.topic, n, e.post.payload, e.post.headers);
    var m := Fresh(s, message, e.now);
    forall a, slot | Own(c', a, slot) ensures Kept(c, c', a, slot) || Written(c', a, slot, n, m.Position(), e.id) {
      if a == n && slot == m.Position() && slot !in s.messages {
        assert c'.stores[n].messages[slot] == m;
      } else {
        assert Own(c, a, slot);
      }
    }
    FittingGrows(c, c', n, m.Position(), e.id);
  }

  /** What a delete leaves in its node's store: everything as it was, up to deleted flags, and the marker. */
  lemma DeleteAdds(s: Store, range: TombstoneRange, n: NodeId, id: string, now: u64, slot: Slot)
    requires Valid(s) && CurrentHead(s, LogKey(DELETE_TOPIC, n.Key())) < I64_MAX
    requires range.to <= I64_MAX && now <= I64_MAX
    requires slot in TombstoneWithMarker(s, range, DELETE_TOPIC, n, id, now).0.messages
    ensures var m := TombstoneWithMarker(s, range, DELETE_TOPIC, n, id, now).0.messages[slot];
            || (slot in s.messages && s.messages[slot].Same(m))
            || (slot == MarkerSlot(s, n) && m.id == id && MessageFits(m))
  {
  }

  /** Where the next marker of a node goes. */
  function MarkerSlot(s: Store, n: NodeId): Slot {
    var log := LogKey(DELETE_TOPIC, n.Key());
    Slot(log, Next(CurrentHead(s, log)))
  }

  lemma DeleteKeepsFitting(c: Cluster, e: Event)
    requires Inv(c) && ClusterFits(c) && e.Delete? && Enabled(c, e) && Fits(c, e, 0)
    ensures ClusterFits(Do(c, e))
  {
    var c', n, s := Do(c, e), e.node, c.stores[e.node];
    assert NodeOk(c, n, s, c.tasks[n]);
    var at := MarkerSlot(s, n);
    forall a, slot | Own(c', a, slot) ensures Kept(c, c', a, slot) || Written(c', a, slot, n, at, e.id) {
      if a == n && c'.stores[n] != s {
        DeleteAdds(s, RangeOf(n, e.cut, e.createdAt), n, e.id, e.now, slot);
      }
    }
    FittingGrows(c, c', n, at, e.id);
  }

  lemma StepKeepsFitting(c: Cluster, e: Event, clock: u64)
    requires Inv(c) && ClusterFits(c) && Enabled(c, e) && Fits(c, e, clock)
    ensures ClusterFits(Do(c, e))
  {
    if e.Publish? {
      PublishKeepsFitting(c, e);
    } else if e.Delete? {
      DeleteKeepsFitting(c, e);
    } else {
      forall a, slot | Own(Do(c, e), a, slot) ensures Kept(c, Do(c, e), a, slot) {
        QuietKeepsOwn(c, e, a, slot);
      }
      FittingKept(c, Do(c, e));
    }
  }

  // ---- Fitting runs ----

  ghost predicate FitsAt(fleet: Fleet, t: Trace, clocks: seq<u64>, i: nat)
    requires |t.states| == |t.events| + 1 == |clocks| + 1 && i < |t.events|
  {
    MovesOnAt(fleet, t, clocks, i) ==> Fits(t.states[i], t.events[i], clocks[i])
  }

  /** A run in which all ids are fresh and all heads, range ends and clock readings fit. */
  ghost predicate IsFittingRun(fleet: Fleet, t: Trace, clocks: seq<u64>) {
    && IsMixedRun(fleet, t, clocks)
    && forall i {:trigger FitsAt(fleet, t, clocks, i)} :: 0 <= i < |t.events| ==> FitsAt(fleet, t, clocks, i)
  }

  lemma {:induction false} FittingRunAt(fleet: Fleet, t: Trace, clocks: seq<u64>, i: nat)
    requires IsFittingRun(fleet, t, clocks) && i < |t.states|
    ensures Inv(t.states[i]) && ClusterFits(t.states[i]) && (i < |t.events| ==> MovesAt(t, i))
  {
    if i == 0 {
      InitInv(t.states[0]);
    } else {
      FittingRunAt(fleet, t, clocks, i - 1);
      StepKeepsInv(t.states[i - 1], t.events[i - 1]);
      assert MovesOnAt(fleet, t, clocks, i - 1) && FitsAt(fleet, t, clocks, i - 1);
      StepKeepsFitting(t.states[i - 1], t.events[i - 1], clocks[i - 1]);
    }
    if i < |t.events| {
      assert MovesOnAt(fleet, t, clocks, i) && FitsAt(fleet, t, clocks, i);
      SameStep(fleet, t.states[i], t.events[i], clocks[i]);
    }
  }

  /** In a fitting run of any mix of backends nothing fails, so whatever holds of such runs holds of it. */
  lemma FittingRunIsTrace(fleet: Fleet, t: Trace, clocks: seq<u64>)
    requires IsFittingRun(fleet, t, clocks)
    ensures IsTrace(t) && SmoothlyReachable(End(t)) && ClusterFits(End(t))
  {
    forall i | 0 <= i < |t.events| ensures MovesAt(t, i) {
      FittingRunAt(fleet, t, clocks, i);
    }
    FittingRunAt(fleet, t, clocks, |t.states| - 1);
  }

  /** No sync fails on either backend: each fetch, store and apply goes on with the sync. */
  lemma MixedSyncNeverFails(fleet: Fleet, t: Trace, clocks: seq<u64>, e: Event, clock: u64)
    requires IsFittingRun(fleet, t, clocks) && Enabled(End(t), e) && Covers(fleet, End(t)) && Fits(End(t), e, clock)
    requires e.Fetch? || e.Put? || e.Apply?
    ensures DoOn(fleet, End(t), e, clock).tasks[e.node].Syncing?
  {
    FittingRunIsTrace(fleet, t, clocks);
    SmoothRunsAreRuns(End(t));
    ReachableInv(End(t));
    SameStep(fleet, End(t), e, clock);
    SyncNeverFails(End(t), e);
  }

  /** Fitting runs of any mix of backends converge. */
  lemma MixedStoresConverge(fleet: Fleet, t: Trace, clocks: seq<u64>, marks: seq<nat>, peers: Peers, a: NodeId,
      b: NodeId)
    requires IsFittingRun(fleet, t, clocks) && Rounds(t, marks, peers) && Connected(t.states[0], peers, |marks| - 1)
    requires Quiet(t, marks[0], marks[|marks| - 1]) && Settled(LastOf(t, marks), a) && Settled(LastOf(t, marks), b)
    ensures LastOf(t, marks).stores[a] == LastOf(t, marks).stores[b]
  {
    FittingRunIsTrace(fleet, t, clocks);
    TraceIsRun(t);
    StoresConverge(t, marks, peers, a, b);
  }
}
