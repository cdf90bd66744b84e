/** The hypotheses of the pull loops and of the startup replay hold of the cluster's own daemons. */
module Daemons {
  import opened Domain
  import opened StoreModel
  import opened StoreLaws
  import opened Cluster
  import opened ClusterInvariant
  import opened ClusterSafety
  import opened Convergence
  import Replay
  import Replication

  /** What a peer of the cluster answers to a fetch of a log it lists is an honest response. */
  lemma FetchesAreHonest(c: Cluster, peer: NodeId, head: TopicHead, from: u64, limit: u32,
      response: Replication.Response)
    requires Reachable(c) && HeadOk(c, peer, head) && 1 <= from <= head.headId
    requires var page := Page(c.stores[peer], head.Log(), from, EffectiveLimit(limit));
             && response.Stream? && !response.broken && |response.items| == |page|
             && forall i :: 0 <= i < |page| ==> response.items[i] == Replication.Envelope(page[i])
    ensures Replication.HonestResponse(head, from, limit, response)
  {
    var page := Page(c.stores[peer], head.Log(), from, EffectiveLimit(limit));
    PageContinues(c, peer, head, from, EffectiveLimit(limit), page);
    HonestItemsOf(c, head, from, page, response.items);
    CountOf(response.items);
  }

  lemma StoresAreValid(c: Cluster, n: NodeId)
    requires Reachable(c) && n in c.stores
    ensures Inv(c) && Valid(c.stores[n])
  {
    ReachableInv(c);
    assert NodeOk(c, n, c.stores[n], c.tasks[n]);
  }

  /** A page from a head the peer has listed continues the log there, and is as long as the limit and the head allow. */
  lemma PageContinues(c: Cluster, peer: NodeId, head: TopicHead, from: u64, limit: nat, page: seq<StoredMessage>)
    requires Reachable(c) && HeadOk(c, peer, head) && 1 <= from <= head.headId
    requires page == Page(c.stores[peer], head.Log(), from, limit)
    ensures BatchOk(c, head, from - 1, page)
    ensures |page| == Min(limit, CurrentHead(c.stores[peer], head.Log()) - from + 1)
  {
    StoresAreValid(c, peer);
    PageIsConsecutive(c.stores[peer], head.Log(), from, limit);
    FetchedOk(c, peer, head, from - 1, limit, page);
  }

  lemma {:induction false} HonestItemsOf(c: Cluster, head: TopicHead, from: nat, page: seq<StoredMessage>,
      items: seq<Replication.Item>)
    requires from >= 1 && BatchOk(c, head, from - 1, page) && |items| == |page|
    requires forall i :: 0 <= i < |page| ==> items[i] == Replication.Envelope(page[i])
    ensures Replication.HonestItems(head, from, items)
    decreases |items|
  {
    if items != [] {
      assert Genuine(c, page[0]);
      forall i | 0 <= i < |page[1..]|
        ensures Genuine(c, page[1..][i]) && WellFormed(page[1..][i]) && page[1..][i] == page[i + 1]
        ensures page[1..][i].topic == head.topic && page[1..][i].origin == head.origin
        ensures page[1..][i].headId == from + 1 + i
      {
        assert Genuine(c, page[i + 1]);
      }
      HonestItemsOf(c, head, from + 1, page[1..], items[1..]);
    }
  }

  lemma {:induction false} CountOf(items: seq<Replication.Item>)
    requires forall i :: 0 <= i < |items| ==> items[i].Envelope?
    ensures Replication.MessageCount(items) == |items|
    decreases |items|
  {
    if items != [] {
      CountOf(items[1..]);
    }
  }

  /**
   * Every store of the cluster is one that the startup replay brings, without failing, to the state a restart leaves.
   */
  lemma StoresReplay(c: Cluster, n: NodeId)
    requires Reachable(c) && n in c.stores
    ensures Valid(c.stores[n]) && Replay.HonestStore(c.stores[n])
  {
    ReachableInv(c);
    assert NodeOk(c, n, c.stores[n], c.tasks[n]);
    var s := c.stores[n];
    forall slot | slot in s.messages
      ensures Replication.HonestMessage(s.messages[slot])
      ensures s.messages[slot].IsMarker() ==> s.messages[slot].payload.range.topic != DELETE_TOPIC
    {
      assert WellFormed(s.messages[slot]);
    }
  }

  /** A daemon's replay of its delete logs ends exactly where a restart is a step of the cluster. */
  lemma RestartsIffReplayEnds(c: Cluster, n: NodeId)
    requires Reachable(c) && n in c.stores
    ensures ReplayEnds(c.stores[n]) <==>
            forall log :: log in c.stores[n].heads && log.topic == DELETE_TOPIC ==>
              exists k :: Replay.Ends(c.stores[n], log, k)
  {
    var s := c.stores[n];
    StoresReplay(c, n);
    forall log | log in s.heads
      ensures (exists k :: Replay.Ends(s, log, k)) <==> s.heads[log] < U64_MAX
    {
      Replay.ReplayEndsPlainlyIff(s, log);
    }
  }

  // ---- Daemons as peers ----

  function Envelopes(page: seq<StoredMessage>): seq<Replication.Item> {
    seq(|page|, i requires 0 <= i < |page| => Replication.Envelope(page[i]))
  }

  /** What a daemon with a given store answers to a fetch; it serves no head below 1. */
  function DaemonAnswer(s: Store, log: LogKey, from: u64, limit: u32): Replication.Response {
    Replication.Stream(Envelopes(Page(s, log, Max(from, 1), EffectiveLimit(limit))), false)
  }

  /**
   * The k-th answer is given in state `when(k)` of the run, all of them after the head was listed in state `listed`.
   */
  ghost predicate AnswersIn(t: Trace, p: NodeId, log: LogKey, listed: nat, when: nat -> nat, peer: Replication.Peer) {
    forall k: nat, from: u64, limit: u32 {:trigger peer(k, from, limit)} ::
      && listed <= when(k) < |t.states| && p in t.states[when(k)].stores
      && peer(k, from, limit) == DaemonAnswer(t.states[when(k)].stores[p], log, from, limit)
  }

  /**
   * A daemon of the cluster is an honest peer for every log it has listed, at whatever later points of the run it
   * answers and however its store has grown by then.
   */
  lemma DaemonsAreHonest(t: Trace, p: NodeId, head: TopicHead, listed: nat, when: nat -> nat, peer: Replication.Peer)
    requires IsRun(t) && IsInit(t.states[0]) && listed < |t.states| && HeadOk(t.states[listed], p, head)
    requires AnswersIn(t, p, head.Log(), listed, when, peer)
    ensures Replication.HonestPeer(peer, head)
  {
    forall k: nat, from: u64, limit: u32 | 1 <= from <= head.headId
      ensures Replication.HonestResponse(head, from, limit, peer(k, from, limit))
    {
      var response := peer(k, from, limit);
      StillListed(t, p, head, listed, when(k));
      PartOfRun(t, when(k));
      FetchesAreHonest(t.states[when(k)], p, head, from, limit, response);
    }
  }

  lemma StillListed(t: Trace, p: NodeId, head: TopicHead, i: nat, j: nat)
    requires IsRun(t) && IsInit(t.states[0]) && i <= j < |t.states| && HeadOk(t.states[i], p, head)
    ensures HeadOk(t.states[j], p, head)
  {
    InitInv(t.states[0]);
    SameNodes(t, i);
    SameNodes(t, j);
    TraceGoesAhead(t, i, j, p);
  }
}
