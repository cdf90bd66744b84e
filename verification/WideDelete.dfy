/** A run in which a SQLite node is left with a delete marker whose range it cannot record. */
module WideDelete {
  import opened Domain
  import opened StoreModel
  import opened StoreLaws
  import opened Cluster
  import opened Mixed
  import opened MixedLimits
  import NodeKey
  import Server
  import Sqlite

  function WideCut(topic: string): Server.DeleteRequest {
    Server.DeleteRequest(topic, NodeKey.NoNode, 1, U64_MAX)
  }

  function WideMarker(a: NodeId, topic: string): StoredMessage {
    StoredMessage("wide", DELETE_TOPIC, a, 1, Encoded(TombstoneRange(topic, a, 1, U64_MAX, 0)), map[], 0, false)
  }

  function DeleteLog(a: NodeId): LogKey {
    LogKey(DELETE_TOPIC, a.Key())
  }

  /** A store that holds just that marker, with some ranges in effect. */
  function Holding(a: NodeId, topic: string, spans: set<Span>): Store {
    Store(map[DeleteLog(a) := 1], map[Slot(DeleteLog(a), 1) := WideMarker(a, topic)], spans)
  }

  lemma WideDelete(a: NodeId, topic: string)
    requires Server.ApplicationTopic(topic).Ok?
    ensures DeleteOn(OnRedb, a, EMPTY, WideCut(topic), "wide", 0, 0) ==
        Holding(a, topic, {Span(LogKey(topic, a.Key()), 1, U64_MAX)})
  {
    var span := Span(LogKey(topic, a.Key()), 1, U64_MAX);
    assert Erase(EMPTY, {span}) == Store(map[], map[], {span});
    assert !CoveredBy({span}, Slot(DeleteLog(a), 1));
  }

  lemma WideListing(a: NodeId, topic: string, spans: set<Span>)
    ensures Lists([TopicHead(DELETE_TOPIC, a, 1)], Holding(a, topic, spans))
  {
    var s := Holding(a, topic, spans);
    assert ListHeads(s).value == {HeadEntry(s, DeleteLog(a))};
  }

  lemma WidePage(a: NodeId, topic: string, spans: set<Span>)
    requires !CoveredBy(spans, Slot(DeleteLog(a), 1))
    ensures Page(Holding(a, topic, spans), DeleteLog(a), 1, EffectiveLimit(1)) == [WideMarker(a, topic)]
  {
    var s := Holding(a, topic, spans);
    assert Valid(s);
    PageIsConsecutive(s, DeleteLog(a), 1, EffectiveLimit(1));
  }

  lemma WidePut(a: NodeId, topic: string)
    ensures Sqlite.SqlPut(EMPTY, WideMarker(a, topic)) == (Holding(a, topic, {}), Ok(Inserted))
  {
    assert !CoveredBy({}, Slot(DeleteLog(a), 1));
  }

  // The run: node `a`, on redb, deletes a whole log; node `b`, on SQLite, pulls the marker.

  function WideFleet(a: NodeId, b: NodeId): Fleet {
    map[a := OnRedb, b := OnSqlite]
  }

  /** The cluster with given stores, `a` idle. */
  function Pair(a: NodeId, b: NodeId, sa: Store, sb: Store, task: Task): Cluster {
    Cluster(map[a := sa, b := sb], map[a := Idle, b := task])
  }

  function Cutting(a: NodeId, topic: string): Store {
    Holding(a, topic, {Span(LogKey(topic, a.Key()), 1, U64_MAX)})
  }

  function DeleteHead(a: NodeId): TopicHead {
    TopicHead(DELETE_TOPIC, a, 1)
  }

  function PulledTask(a: NodeId, topic: string): Task {
    Syncing(a, [], Pulling(DeleteHead(a), 0, [WideMarker(a, topic)]))
  }

  function StoredTask(a: NodeId, topic: string): Task {
    Syncing(a, [], Applying(DeleteHead(a), 0, WideMarker(a, topic), []))
  }

  lemma WideStart(a: NodeId, b: NodeId, topic: string)
    requires a != b && Server.ApplicationTopic(topic).Ok?
    ensures MovesOn(WideFleet(a, b), Pair(a, b, EMPTY, EMPTY, Idle), Delete(a, WideCut(topic), "wide", 0, 0), 0,
                    Pair(a, b, Cutting(a, topic), EMPTY, Idle))
  {
    WideDelete(a, topic);
  }

  lemma WideSync(a: NodeId, b: NodeId, s: Store)
    requires a != b && Lists([DeleteHead(a)], s)
    ensures MovesOn(WideFleet(a, b), Pair(a, b, s, EMPTY, Idle), Start(b, a, [DeleteHead(a)]), 0,
                    Pair(a, b, s, EMPTY, Syncing(a, [DeleteHead(a)], Choosing)))
  {
  }

  lemma WideChoice(a: NodeId, b: NodeId, s: Store)
    requires a != b
    ensures MovesOn(WideFleet(a, b), Pair(a, b, s, EMPTY, Syncing(a, [DeleteHead(a)], Choosing)), NextHead(b), 0,
                    Pair(a, b, s, EMPTY, Syncing(a, [], Pulling(DeleteHead(a), 0, []))))
  {
    assert [DeleteHead(a)][1..] == [];
  }

  lemma WideFetch(a: NodeId, b: NodeId, topic: string, s: Store)
    requires a != b && Page(s, DeleteLog(a), 1, EffectiveLimit(1)) == [WideMarker(a, topic)]
    ensures MovesOn(WideFleet(a, b), Pair(a, b, s, EMPTY, Syncing(a, [], Pulling(DeleteHead(a), 0, []))),
                    Fetch(b, 1), 0,
                    Pair(a, b, s, EMPTY, PulledTask(a, topic)))
  {
  }

  lemma WideStore(a: NodeId, b: NodeId, topic: string, s: Store)
    requires a != b
    ensures MovesOn(WideFleet(a, b), Pair(a, b, s, EMPTY, PulledTask(a, topic)), Put(b), 0,
                    Pair(a, b, s, Holding(a, topic, {}), StoredTask(a, topic)))
  {
    WidePut(a, topic);
    assert [WideMarker(a, topic)][1..] == [];
  }

  lemma WideApply(a: NodeId, b: NodeId, topic: string, s: Store)
    requires a != b
    ensures MovesOn(WideFleet(a, b), Pair(a, b, s, Holding(a, topic, {}), StoredTask(a, topic)), Apply(b), 0,
                    Pair(a, b, s, Holding(a, topic, {}), Idle))
  {
    MarkerAppliesIff(Holding(a, topic, {}), WideMarker(a, topic), 0);
  }

  /** One more step on a run. */
  lemma RunGoesOn(fleet: Fleet, t: Trace, clocks: seq<u64>, e: Event, clock: u64, c: Cluster)
    requires IsMixedRun(fleet, t, clocks) && MovesOn(fleet, End(t), e, clock, c)
    ensures IsMixedRun(fleet, Trace(t.states + [c], t.events + [e]), clocks + [clock])
  {
    var t', clocks' := Trace(t.states + [c], t.events + [e]), clocks + [clock];
    forall i | 0 <= i < |t'.events| ensures MovesOnAt(fleet, t', clocks', i) {
      if i < |t.events| {
        assert MovesOnAt(fleet, t, clocks, i);
      }
    }
  }

  /**
   * Any redb node that deletes a whole log leaves any SQLite node that pulls its marker with a marker it holds, will
   * not read again, and has not applied; and that node does not come back up once it goes down.
   */
  lemma WideDeleteIsNotApplied(a: NodeId, b: NodeId, topic: string) returns (t: Trace, clocks: seq<u64>)
    requires a.Key() != b.Key() && Server.ApplicationTopic(topic).Ok?
    ensures IsMixedRun(WideFleet(a, b), t, clocks)
    ensures End(t) == Pair(a, b, Cutting(a, topic), Holding(a, topic, {}), Idle)
    ensures var s := Holding(a, topic, {});
            && WideMarker(a, topic).payload.range.Extent() in Markers(s) && s.tombstones == {}
            && CurrentHead(s, DeleteLog(a)) == WideMarker(a, topic).headId
            && forall clock :: RestartOn(OnSqlite, s, clock).1 == Down
  {
    t, clocks := WideRun(a, b, topic);
    HoldingWideStaysDown(a, topic);
  }

  lemma WideRun(a: NodeId, b: NodeId, topic: string) returns (t: Trace, clocks: seq<u64>)
    requires a.Key() != b.Key() && Server.ApplicationTopic(topic).Ok?
    ensures IsMixedRun(WideFleet(a, b), t, clocks)
    ensures End(t) == Pair(a, b, Cutting(a, topic), Holding(a, topic, {}), Idle)
  {
    t, clocks := WideFirstHalf(a, b, topic);
    t, clocks := WideSecondHalf(a, b, topic, Cutting(a, topic), t, clocks);
  }

  lemma WideFirstHalf(a: NodeId, b: NodeId, topic: string) returns (t: Trace, clocks: seq<u64>)
    requires a.Key() != b.Key() && Server.ApplicationTopic(topic).Ok?
    ensures IsMixedRun(WideFleet(a, b), t, clocks)
    ensures End(t) == Pair(a, b, Cutting(a, topic), EMPTY, Syncing(a, [], Pulling(DeleteHead(a), 0, [])))
  {
    var fleet, s := WideFleet(a, b), Cutting(a, topic);
    t, clocks := Trace([Pair(a, b, EMPTY, EMPTY, Idle)], []), [];
    WideStart(a, b, topic);
    t, clocks := GoOn(fleet, t, clocks, Delete(a, WideCut(topic), "wide", 0, 0), Pair(a, b, s, EMPTY, Idle));
    WideListing(a, topic, {Span(LogKey(topic, a.Key()), 1, U64_MAX)});
    WideSync(a, b, s);
    t, clocks := GoOn(fleet, t, clocks, Start(b, a, [DeleteHead(a)]),
        Pair(a, b, s, EMPTY, Syncing(a, [DeleteHead(a)], Choosing)));
    WideChoice(a, b, s);
    t, clocks := GoOn(fleet, t, clocks, NextHead(b),
        Pair(a, b, s, EMPTY, Syncing(a, [], Pulling(DeleteHead(a), 0, []))));
  }

  lemma WideSecondHalf(a: NodeId, b: NodeId, topic: string, s: Store, t0: Trace, clocks0: seq<u64>)
    returns (t: Trace, clocks: seq<u64>)
    requires a.Key() != b.Key() && s == Cutting(a, topic) && IsMixedRun(WideFleet(a, b), t0, clocks0)
    requires End(t0) == Pair(a, b, s, EMPTY, Syncing(a, [], Pulling(DeleteHead(a), 0, [])))
    requires topic != DELETE_TOPIC
    ensures IsMixedRun(WideFleet(a, b), t, clocks) && End(t) == Pair(a, b, s, Holding(a, topic, {}), Idle)
  {
    var fleet, span := WideFleet(a, b), Span(LogKey(topic, a.Key()), 1, U64_MAX);
    assert !CoveredBy({span}, Slot(DeleteLog(a), 1));
    WidePage(a, topic, {span});
    WideFetch(a, b, topic, s);
    t, clocks := GoOn(fleet, t0, clocks0, Fetch(b, 1), Pair(a, b, s, EMPTY, PulledTask(a, topic)));
    WideStore(a, b, topic, s);
    t, clocks := GoOn(fleet, t, clocks, Put(b), Pair(a, b, s, Holding(a, topic, {}), StoredTask(a, topic)));
    WideApply(a, b, topic, s);
    t, clocks := GoOn(fleet, t, clocks, Apply(b), Pair(a, b, s, Holding(a, topic, {}), Idle));
  }

  lemma GoOn(fleet: Fleet, t: Trace, clocks: seq<u64>, e: Event, c: Cluster) returns (t': Trace, clocks': seq<u64>)
    requires IsMixedRun(fleet, t, clocks) && MovesOn(fleet, End(t), e, 0, c)
    ensures IsMixedRun(fleet, t', clocks') && End(t') == c
  {
    RunGoesOn(fleet, t, clocks, e, 0, c);
    t', clocks' := Trace(t.states + [c], t.events + [e]), clocks + [0];
  }

  lemma HoldingWideStaysDown(a: NodeId, topic: string)
    ensures var s := Holding(a, topic, {});
            && WideMarker(a, topic).payload.range.Extent() in Markers(s)
            && forall clock :: RestartOn(OnSqlite, s, clock).1 == Down
  {
    var s := Holding(a, topic, {});
    assert s.messages[Slot(DeleteLog(a), 1)].IsMarker();
    forall clock: u64 ensures RestartOn(OnSqlite, s, clock).1 == Down {
      TakesMarkersIff(s, clock);
    }
  }
}
