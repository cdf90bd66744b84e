/**
 * Safety of every run of a cluster, whichever of its store operations fail: prefix agreement, no refused sync, exact
 * deletes.
 */
module ClusterSafety {
  import opened Domain
  import opened StoreModel
  import opened StoreLaws
  import opened Cluster
  import opened ClusterInvariant
  import opened Applied

  /** Reached from empty stores by some interleaving of the cluster's steps, any of which may fail. */
  ghost predicate Reachable(c: Cluster) {
    exists t :: IsRun(t) && IsInit(t.states[0]) && End(t) == c
  }

  /** Reached without a failure. */
  ghost predicate SmoothlyReachable(c: Cluster) {
    exists t :: IsTrace(t) && IsInit(t.states[0]) && End(t) == c
  }

  /** The states up to a point of a run are a run, so every state of a run is reachable. */
  lemma PartOfRun(t: Trace, i: nat)
    requires IsRun(t) && IsInit(t.states[0]) && i < |t.states|
    ensures Reachable(t.states[i])
  {
    var part := Trace(t.states[..i + 1], t.events[..i]);
    forall j | 0 <= j < |part.events| ensures AttemptsAt(part, j) {
      assert AttemptsAt(t, j);
    }
    assert IsRun(part) && End(part) == t.states[i];
  }

  lemma ReachableInv(c: Cluster)
    requires Reachable(c)
    ensures Inv(c)
  {
    var t :| IsRun(t) && IsInit(t.states[0]) && End(t) == c;
    InitInv(t.states[0]);
    RunKeepsInv(t, |t.states| - 1);
  }

  lemma {:induction false} SmoothRunsAreRuns(c: Cluster)
    requires SmoothlyReachable(c)
    ensures Reachable(c) && NothingOverdue(c)
  {
    var t :| IsTrace(t) && IsInit(t.states[0]) && End(t) == c;
    TraceIsRun(t);
    TraceKeepsApplied(t, |t.states| - 1);
  }

  /** What node `n` holds of a log is, up to deleted flags, a prefix of what the log's origin holds. */
  lemma PrefixAgreement(c: Cluster, n: NodeId, origin: NodeId, log: LogKey)
    requires Reachable(c) && n in c.stores && origin in c.stores && origin.Key() == log.origin
    ensures CurrentHead(c.stores[n], log) <= CurrentHead(c.stores[origin], log)
    ensures forall h: u64 :: 1 <= h <= CurrentHead(c.stores[n], log) ==>
              && Slot(log, h) in c.stores[n].messages && Slot(log, h) in c.stores[origin].messages
              && c.stores[n].messages[Slot(log, h)].Same(c.stores[origin].messages[Slot(log, h)])
  {
    ReachableInv(c);
    assert NodeOk(c, n, c.stores[n], c.tasks[n]);
    BehindOrigin(c, n, origin, log);
    forall h: u64 | 1 <= h <= CurrentHead(c.stores[n], log)
      ensures Slot(log, h) in c.stores[n].messages && Slot(log, h) in c.stores[origin].messages
      ensures c.stores[n].messages[Slot(log, h)].Same(c.stores[origin].messages[Slot(log, h)])
    {
      var m := c.stores[n].messages[Slot(log, h)];
      assert Genuine(c, m) && m.Position() == Slot(log, h) && m.origin == origin;
    }
  }

  /** Two nodes that both hold a position of a log hold the same message there, up to the deleted flag. */
  lemma NodesAgree(c: Cluster, a: NodeId, b: NodeId, slot: Slot)
    requires Reachable(c) && a in c.stores && b in c.stores
    requires slot in c.stores[a].messages && slot in c.stores[b].messages
    ensures c.stores[a].messages[slot].Same(c.stores[b].messages[slot])
  {
    ReachableInv(c);
    SlotsAgree(c, a, b, slot);
  }

  lemma SlotsAgree(c: Cluster, a: NodeId, b: NodeId, slot: Slot)
    requires Inv(c) && a in c.stores && b in c.stores
    requires slot in c.stores[a].messages && slot in c.stores[b].messages
    ensures c.stores[a].messages[slot].Same(c.stores[b].messages[slot])
  {
    assert NodeOk(c, a, c.stores[a], c.tasks[a]) && NodeOk(c, b, c.stores[b], c.tasks[b]);
    var ma, mb := c.stores[a].messages[slot], c.stores[b].messages[slot];
    assert Genuine(c, ma) && Genuine(c, mb) && ma.Position() == slot == mb.Position();
    assert ma.origin == mb.origin;
  }

  /**
   * Whatever a sync task is about to do succeeds, by the storage contract: the peer has the next message of another
   * node's log, the store takes it as new, and its delete marker, if it is one, applies.
   */
  lemma SyncNeverFails(c: Cluster, e: Event)
    requires Reachable(c) && Enabled(c, e)
    ensures e.Fetch? ==> c.tasks[e.node].phase.head.origin != e.node && Do(c, e).tasks[e.node].phase.Pulling?
    ensures e.Put? ==> PutReplicated(c.stores[e.node], c.tasks[e.node].phase.batch[0]).1 == Ok(Inserted)
                       && Do(c, e).tasks[e.node].Syncing?
    ensures e.Apply? ==> ApplyControl(c.stores[e.node], c.tasks[e.node].phase.message).1 == Ok(())
                         && Do(c, e).tasks[e.node].Syncing?
  {
    ReachableInv(c);
    if e.Fetch? {
      FetchBatch(c, e.node, e.limit);
    } else if e.Put? {
      PutSucceeds(c, e.node);
    } else if e.Apply? {
      ApplyKeepsInv(c, e.node);
    }
  }

  /** A delete marker of the origin's own log that covers the slot. */
  ghost predicate MarkedByOrigin(c: Cluster, slot: Slot, origin: NodeId, h: u64)
    requires origin in c.stores
  {
    var at := Slot(LogKey(DELETE_TOPIC, slot.log.origin), h);
    && at in c.stores[origin].messages
    && c.stores[origin].messages[at].IsMarker()
    && c.stores[origin].messages[at].payload.range.Extent().Covers(slot)
  }

  /** A message is deleted somewhere only if its origin's own delete log holds a marker that covers it. */
  lemma DeletedOnlyByOrigin(c: Cluster, n: NodeId, slot: Slot)
    requires Reachable(c) && n in c.stores && slot in c.stores[n].messages && c.stores[n].messages[slot].deleted
    ensures var origin := c.stores[n].messages[slot].origin;
            origin in c.stores && exists h :: MarkedByOrigin(c, slot, origin, h)
  {
    ReachableInv(c);
    assert NodeOk(c, n, c.stores[n], c.tasks[n]);
    var m := c.stores[n].messages[slot];
    assert Genuine(c, m) && m.Position() == slot;
    var t :| Declared(c, t) && t.Covers(slot);
    var a :| a in c.stores && a.Key() == t.log.origin && t in Markers(c.stores[a]);
    assert a == m.origin;
    assert NodeOk(c, a, c.stores[a], c.tasks[a]);
    var at :| at in c.stores[a].messages && c.stores[a].messages[at].IsMarker() &&
      c.stores[a].messages[at].payload.range.Extent() == t;
    assert c.stores[a].messages[at].Position() == at;
    assert MarkedByOrigin(c, slot, a, at.head);
  }

  /**
   * Where nothing failed, a node that is up and not between storing a marker and applying it has deleted every message
   * it holds that a marker it holds covers, however stale the copy was when it arrived.
   */
  lemma HeldMarkersTakeEffect(c: Cluster, n: NodeId, at: Slot, slot: Slot)
    requires SmoothlyReachable(c) && Settled(c, n)
    requires at in c.stores[n].messages && c.stores[n].messages[at].IsMarker()
    requires slot in c.stores[n].messages && c.stores[n].messages[at].payload.range.Extent().Covers(slot)
    ensures c.stores[n].messages[slot].deleted
  {
    SmoothRunsAreRuns(c);
    ReachableInv(c);
    RecordedUnlessOverdue(c, n, at);
    assert Overdue(c.stores[n], c.tasks[n]) == {};
  }
}
