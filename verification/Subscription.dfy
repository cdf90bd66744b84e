/** `subscribe`: a replayed page followed by live broadcasts, under every interleaving with the writers. */
module Subscription {
  import opened Domain
  import opened StoreModel
  import opened StoreLaws

  const DEFAULT_REPLAY_LIMIT: u32 := 100

  /** A subscription to one log, as requested. */
  datatype Query = Query(topic: string, origin: NodeId, from: u64, replayLimit: u32) {
    function Log(): LogKey {
      LogKey(topic, origin.Key())
    }

    function First(): u64 {
      Max(from, 1)
    }

    function Limit(): nat {
      EffectiveLimit(if replayLimit == 0 then DEFAULT_REPLAY_LIMIT else replayLimit)
    }

    predicate Matches(m: StoredMessage) {
      m.topic == topic && m.origin == origin
    }
  }

  // ---- The forwarding loop ----

  /** What the broadcast receiver yields: a message, or the news that it fell behind and lost some. */
  datatype LiveItem = Live(message: StoredMessage) | Lagged

  /** The position of the subscription after replaying a page. */
  function LastSent(start: nat, replay: seq<StoredMessage>): nat
    decreases |replay|
  {
    if replay == [] then start else LastSent(Max(start, replay[0].headId), replay[1..])
  }

  /** The broadcasts that pass the filter: of the log, and beyond everything sent before. */
  function Passing(q: Query, last: nat, live: seq<StoredMessage>): seq<StoredMessage>
    decreases |live|
  {
    if live == [] then
      []
    else if q.Matches(live[0]) && last < live[0].headId then
      [live[0]] + Passing(q, live[0].headId, live[1..])
    else
      Passing(q, last, live[1..])
  }

  /** Everything a subscriber is sent, given the page and the broadcasts it hears. */
  function Delivered(q: Query, replay: seq<StoredMessage>, live: seq<StoredMessage>): seq<StoredMessage> {
    replay + Passing(q, LastSent(q.First() - 1, replay), live)
  }

  function Heard(items: seq<LiveItem>): seq<StoredMessage> {
    if items == [] || items[0].Lagged? then [] else [items[0].message] + Heard(items[1..])
  }

  /** They are the messages that come before the receiver falls behind. */
  lemma {:induction false} HeardUpToLag(items: seq<LiveItem>)
    ensures var k := |Heard(items)|;
            && k <= |items| && (k < |items| ==> items[k].Lagged?)
            && forall i :: 0 <= i < k ==> items[i] == Live(Heard(items)[i])
  {
    if items != [] && items[0].Live? {
      HeardUpToLag(items[1..]);
      forall i | 0 < i < |Heard(items)| ensures items[i] == Live(Heard(items)[i]) {
        assert items[1..][i - 1] == items[i];
      }
    }
  }

  /** The first loop: the page, as far as the client takes it. */
  method SendPage(q: Query, replay: seq<StoredMessage>, room: nat)
    returns (out: seq<StoredMessage>, last: nat, gone: bool)
    ensures out == replay[..Min(room, |replay|)] && (gone <==> room < |replay|)
    ensures !gone ==> last == LastSent(q.First() - 1, replay)
  {
    out, last, gone := [], q.First() - 1, false;
    var i := 0;
    while i < |replay|
      invariant 0 <= i <= |replay| && out == replay[..i] && |out| <= room
      invariant LastSent(last, replay[i..]) == LastSent(q.First() - 1, replay)
    {
      last := Max(last, replay[i].headId);
      if |out| == room {
        return out, last, true;
      }
      out := out + [replay[i]];
      i := i + 1;
    }
  }

  /** The second loop: the broadcasts that pass, until the receiver lags or the client is gone. */
  method SendLive(q: Query, start: nat, items: seq<LiveItem>, room: nat) returns (out: seq<StoredMessage>, lagged: bool)
    ensures var all := Passing(q, start, Heard(items)); out == all[..Min(room, |all|)]
    ensures lagged <==> Lagged in items && |Passing(q, start, Heard(items))| <= room
  {
    out, lagged := [], false;
    var last: nat, j := start, 0;
    ghost var all := Passing(q, start, Heard(items));
    while j < |items|
      invariant 0 <= j <= |items| && |out| <= room && Lagged !in items[..j]
      invariant out + Passing(q, last, Heard(items[j..])) == all
    {
      if items[j].Lagged? {
        lagged := true;
        assert out == all;
        return;
      }
      var m := items[j].message;
      if q.Matches(m) && last < m.headId {
        last := m.headId;
        if |out| == room {
          assert out == all[..room];
          return;
        }
        out := out + [m];
      }
      j := j + 1;
    }
  }

  /** The forwarding loops: `room` is how many messages the client takes before it goes away. */
  method Forward(q: Query, replay: seq<StoredMessage>, items: seq<LiveItem>, room: nat)
    returns (out: seq<StoredMessage>, lagged: bool)
    ensures var all := Delivered(q, replay, Heard(items)); out == all[..Min(room, |all|)]
    ensures lagged <==> Lagged in items && |Delivered(q, replay, Heard(items))| <= room
  {
    var last, gone;
    out, last, gone := SendPage(q, replay, room);
    lagged := false;
    if gone {
      return;
    }
    var live;
    live, lagged := SendLive(q, last, items, room - |out|);
    out := out + live;
  }

  ghost predicate Ascends(ms: seq<StoredMessage>, floor: nat) {
    && (forall i :: 0 <= i < |ms| ==> floor < ms[i].headId)
    && (forall i, j :: 0 <= i < j < |ms| ==> ms[i].headId < ms[j].headId)
  }

  ghost predicate Consecutive(ms: seq<StoredMessage>, first: nat) {
    forall i :: 0 <= i < |ms| ==> ms[i].headId == first + i
  }

  lemma {:induction false} PassingAscends(q: Query, last: nat, live: seq<StoredMessage>)
    ensures Ascends(Passing(q, last, live), last)
    ensures forall m :: m in Passing(q, last, live) ==> m in live && q.Matches(m)
    decreases |live|
  {
    if live != [] {
      PassingAscends(q, if q.Matches(live[0]) && last < live[0].headId then live[0].headId else last, live[1..]);
    }
  }

  lemma {:induction false} LastSentOfPage(start: nat, replay: seq<StoredMessage>)
    requires Consecutive(replay, start + 1)
    ensures LastSent(start, replay) == start + |replay|
    decreases |replay|
  {
    if replay != [] {
      assert replay[0].headId == start + 1;
      forall i | 0 <= i < |replay[1..]| ensures replay[1..][i].headId == start + 2 + i {
        assert replay[1..][i] == replay[i + 1];
      }
      LastSentOfPage(start + 1, replay[1..]);
    }
  }

  // ---- Broadcast order ----

  function Raise(q: Query, reach: nat, m: StoredMessage): nat {
    if q.Matches(m) then Max(reach, m.headId) else reach
  }

  /** The highest head of the log broadcast so far. */
  function Reach(q: Query, reach: nat, live: seq<StoredMessage>): nat
    decreases |live|
  {
    if live == [] then reach
    else Reach(q, Raise(q, reach, live[0]), live[1..])
  }

  /** No broadcast of the log skips a head; earlier heads may be broadcast again. */
  ghost predicate InOrder(q: Query, reach: nat, live: seq<StoredMessage>)
    decreases |live|
  {
    live == [] || ((q.Matches(live[0]) ==> live[0].headId <= reach + 1) &&
      InOrder(q, Raise(q, reach, live[0]), live[1..]))
  }

  lemma {:induction false} ReachGrows(q: Query, reach: nat, live: seq<StoredMessage>)
    ensures reach <= Reach(q, reach, live)
    decreases |live|
  {
    if live != [] {
      ReachGrows(q, Raise(q, reach, live[0]), live[1..]);
    }
  }

  lemma ConsecutiveCons(m: StoredMessage, rest: seq<StoredMessage>, first: nat)
    ensures Consecutive([m] + rest, first) <==> m.headId == first && Consecutive(rest, first + 1)
  {
    var all := [m] + rest;
    assert all[0] == m;
    if Consecutive(all, first) {
      forall i | 0 <= i < |rest| ensures rest[i].headId == first + 1 + i {
        assert rest[i] == all[i + 1];
      }
    }
  }

  /**
   * The broadcasts that pass have consecutive heads exactly when no broadcast skips one; then they end at the highest.
   */
  lemma {:induction false} PassingIsConsecutiveIff(q: Query, last: nat, live: seq<StoredMessage>)
    ensures Consecutive(Passing(q, last, live), last + 1) <==> InOrder(q, last, live)
    ensures InOrder(q, last, live) ==> last + |Passing(q, last, live)| == Reach(q, last, live)
    decreases |live|
  {
    if live != [] {
      var m, rest := live[0], live[1..];
      PassingIsConsecutiveIff(q, Raise(q, last, m), rest);
      if q.Matches(m) && last < m.headId {
        assert Passing(q, last, live) == [m] + Passing(q, m.headId, rest);
        ConsecutiveCons(m, Passing(q, m.headId, rest), last + 1);
      }
    }
  }

  /** What is in order stays so for a subscriber that is further ahead. */
  lemma {:induction false} InOrderAhead(q: Query, reach: nat, last: nat, live: seq<StoredMessage>)
    requires reach <= last
    ensures InOrder(q, reach, live) ==> InOrder(q, last, live)
    ensures Reach(q, last, live) == Max(last, Reach(q, reach, live))
    decreases |live|
  {
    if live != [] {
      InOrderAhead(q, Raise(q, reach, live[0]), Raise(q, last, live[0]), live[1..]);
      ReachGrows(q, Raise(q, reach, live[0]), live[1..]);
    }
  }

  /** A broadcast is delivered exactly when it is of the log and higher than everything sent before it. */
  lemma {:induction false} DeliversRecordsOnly(q: Query, last: nat, live: seq<StoredMessage>, m: StoredMessage)
    ensures Passing(q, last, live + [m]) ==
            Passing(q, last, live) + if q.Matches(m) && Reach(q, last, live) < m.headId then [m] else []
    decreases |live|
  {
    if live == [] {
      assert live + [m] == [m];
    } else {
      assert (live + [m])[1..] == live[1..] + [m];
      DeliversRecordsOnly(q, Raise(q, last, live[0]), live[1..], m);
    }
  }

  // ---- The same, told from topic, origin and head of the messages ----

  /** A message of the log with head `h`, at some position of a sequence. */
  ghost predicate HeardAt(topic: string, origin: NodeId, live: seq<StoredMessage>, i: nat) {
    i < |live| && live[i].topic == topic && live[i].origin == origin
  }

  /** The head is higher than a bound and than every message of the log heard. */
  ghost predicate IsAbove(topic: string, origin: NodeId, last: nat, live: seq<StoredMessage>, h: nat) {
    last < h && forall i: nat {:trigger HeardAt(topic, origin, live, i)} ::
      HeardAt(topic, origin, live, i) ==> live[i].headId < h
  }

  lemma {:induction false} ReachIsBelow(q: Query, last: nat, live: seq<StoredMessage>, h: nat)
    ensures Reach(q, last, live) < h <==> IsAbove(q.topic, q.origin, last, live, h)
    decreases |live|
  {
    if live != [] {
      var m, rest := live[0], live[1..];
      ReachIsBelow(q, Raise(q, last, m), rest, h);
      AboveCons(q.topic, q.origin, last, live, h);
    }
  }

  lemma AboveCons(topic: string, origin: NodeId, last: nat, live: seq<StoredMessage>, h: nat)
    requires live != []
    ensures var ofLog := live[0].topic == topic && live[0].origin == origin;
            var raised := if ofLog then Max(last, live[0].headId) else last;
            IsAbove(topic, origin, last, live, h) <==> IsAbove(topic, origin, raised, live[1..], h)
  {
    var rest := live[1..];
    if IsAbove(topic, origin, last, live, h) {
      assert HeardAt(topic, origin, live, 0) ==> live[0].headId < h;
      forall i: nat | HeardAt(topic, origin, rest, i) ensures rest[i].headId < h {
        assert HeardAt(topic, origin, live, i + 1);
      }
    }
    forall i: nat | HeardAt(topic, origin, live, i) && i > 0 ensures HeardAt(topic, origin, rest, i - 1) {
    }
  }

  lemma {:induction false} LastSentIsBelow(start: nat, replay: seq<StoredMessage>, h: nat)
    ensures LastSent(start, replay) < h <==> start < h && forall i :: 0 <= i < |replay| ==> replay[i].headId < h
    decreases |replay|
  {
    if replay != [] {
      LastSentIsBelow(Max(start, replay[0].headId), replay[1..], h);
      assert replay == [replay[0]] + replay[1..];
    }
  }

  /**
   * A broadcast is delivered exactly when its topic and origin are those asked for and its head is at least the one
   * asked for, higher than every head on the page, and higher than that of every message of the log heard before.
   */
  lemma BroadcastIsDeliveredIff(q: Query, replay: seq<StoredMessage>, live: seq<StoredMessage>, m: StoredMessage)
    ensures Delivered(q, replay, []) == replay
    ensures Delivered(q, replay, live + [m]) == Delivered(q, replay, live) +
              if && m.topic == q.topic && m.origin == q.origin
                 && (forall i :: 0 <= i < |replay| ==> replay[i].headId < m.headId)
                 && IsAbove(q.topic, q.origin, Max(q.from, 1) - 1, live, m.headId)
              then [m] else []
  {
    var start := q.First() - 1;
    var last := LastSent(start, replay);
    DeliversRecordsOnly(q, last, live, m);
    LastSentIsBelow(start, replay, m.headId);
    ReachIsBelow(q, last, live, m.headId);
    assert Passing(q, last, []) == [];
  }

  /** A broadcast of the log that skips a head: it lies beyond the next after a bound and after all heard before. */
  ghost predicate SkipsAt(topic: string, origin: NodeId, last: nat, live: seq<StoredMessage>, i: nat) {
    HeardAt(topic, origin, live, i) && live[i].headId > 1 && IsAbove(topic, origin, last, live[..i], live[i].headId - 1)
  }

  ghost predicate NoneSkips(topic: string, origin: NodeId, last: nat, live: seq<StoredMessage>) {
    forall i: nat {:trigger SkipsAt(topic, origin, last, live, i)} :: !SkipsAt(topic, origin, last, live, i)
  }

  lemma {:induction false} InOrderIff(q: Query, last: nat, live: seq<StoredMessage>)
    ensures InOrder(q, last, live) <==> NoneSkips(q.topic, q.origin, last, live)
    decreases |live|
  {
    if live != [] {
      var n := |live| - 1;
      InOrderIff(q, last, live[..n]);
      OrderSplits(q, last, live[..n], [live[n]]);
      assert live == live[..n] + [live[n]];
      assert InOrder(q, last, live) <==>
        (InOrder(q, last, live[..n]) && (q.Matches(live[n]) ==> live[n].headId <= Reach(q, last, live[..n]) + 1));
      if live[n].headId > 1 {
        ReachIsBelow(q, last, live[..n], live[n].headId - 1);
      }
      assert SkipsAt(q.topic, q.origin, last, live, n) <==>
        (q.Matches(live[n]) && Reach(q, last, live[..n]) + 1 < live[n].headId);
      SkipsBefore(q.topic, q.origin, last, live, n);
    }
  }

  lemma SkipsBefore(topic: string, origin: NodeId, last: nat, live: seq<StoredMessage>, n: nat)
    requires n == |live| - 1
    ensures NoneSkips(topic, origin, last, live) <==>
            NoneSkips(topic, origin, last, live[..n]) && !SkipsAt(topic, origin, last, live, n)
  {
    forall i: nat ensures SkipsAt(topic, origin, last, live, i) <==>
        SkipsAt(topic, origin, last, live[..n], i) || (i == n && SkipsAt(topic, origin, last, live, n))
    {
      if i < n {
        assert live[..n][..i] == live[..i];
      }
    }
  }

  /** The highest of a bound and the heads of the log heard. */
  ghost predicate IsHighest(topic: string, origin: NodeId, last: nat, live: seq<StoredMessage>, h: nat) {
    IsAbove(topic, origin, last, live, h + 1) && !IsAbove(topic, origin, last, live, h)
  }

  lemma ReachIsHighest(q: Query, last: nat, live: seq<StoredMessage>)
    ensures IsHighest(q.topic, q.origin, last, live, Reach(q, last, live))
  {
    ReachIsBelow(q, last, live, Reach(q, last, live) + 1);
    ReachIsBelow(q, last, live, Reach(q, last, live));
  }

  lemma {:induction false} OrderSplits(q: Query, reach: nat, a: seq<StoredMessage>, b: seq<StoredMessage>)
    ensures InOrder(q, reach, a + b) <==> InOrder(q, reach, a) && InOrder(q, Reach(q, reach, a), b)
    ensures Reach(q, reach, a + b) == Reach(q, Reach(q, reach, a), b)
    decreases |a|
  {
    if a == [] {
      assert a + b == b;
    } else {
      assert (a + b)[1..] == a[1..] + b;
      OrderSplits(q, Raise(q, reach, a[0]), a[1..], b);
    }
  }

  lemma {:induction false} ReachBounded(q: Query, reach: nat, live: seq<StoredMessage>, bound: nat)
    requires reach <= bound && forall m :: m in live && q.Matches(m) ==> m.headId <= bound
    ensures Reach(q, reach, live) <= bound
    decreases |live|
  {
    if live != [] {
      ReachBounded(q, Raise(q, reach, live[0]), live[1..], bound);
    }
  }

  // ---- The daemon around the forwarding loop ----

  /** A subscription being set up: first it registers for broadcasts, then it reads its page. */
  datatype Sub = Absent | Registered(at: nat) | Open(at: nat, replay: seq<StoredMessage>, head: u64)

  /** A daemon's store, everything it has broadcast since it started, and one subscription. */
  datatype Hub = Hub(store: Store, sent: seq<StoredMessage>, sub: Sub)

  ghost predicate IsStored(s: Store, m: StoredMessage) {
    m.Position() in s.messages && s.messages[m.Position()].Same(m)
  }

  ghost predicate Writes(a: Hub, b: Hub) {
    b == a.(store := b.store) && Valid(b.store) && Extends(a.store, b.store)
  }

  /** A message is broadcast some time after it was stored, not necessarily before the next one is. */
  ghost predicate Sends(a: Hub, b: Hub, m: StoredMessage) {
    b == a.(sent := a.sent + [m]) && IsStored(a.store, m)
  }

  ghost predicate Registers(a: Hub, b: Hub) {
    a.sub.Absent? && b == a.(sub := Registered(|a.sent|))
  }

  ghost predicate Snapshots(q: Query, a: Hub, b: Hub) {
    a.sub.Registered? &&
    b == a.(sub := Open(a.sub.at, Page(a.store, q.Log(), q.First(), q.Limit()), CurrentHead(a.store, q.Log())))
  }

  ghost predicate HubNext(q: Query, a: Hub, b: Hub) {
    Writes(a, b) || (exists m :: Sends(a, b, m)) || Registers(a, b) || Snapshots(q, a, b)
  }

  ghost predicate HubStep(q: Query, run: seq<Hub>, i: nat)
    requires i + 1 < |run|
  {
    HubNext(q, run[i], run[i + 1])
  }

  ghost predicate IsRun(q: Query, run: seq<Hub>) {
    && run != [] && Valid(run[0].store) && run[0].sent == [] && run[0].sub == Absent
    && forall i {:trigger HubStep(q, run, i)} :: 0 <= i < |run| - 1 ==> HubStep(q, run, i)
  }

  ghost predicate PageOk(q: Query, h: Hub)
    requires h.sub.Open?
  {
    && Consecutive(h.sub.replay, q.First())
    && |h.sub.replay| == (if q.First() <= h.sub.head then Min(q.Limit(), h.sub.head - q.First() + 1) else 0)
    && (forall i :: 0 <= i < |h.sub.replay| ==> IsStored(h.store, h.sub.replay[i]) && h.sub.replay[i].Log() == q.Log())
  }

  ghost predicate HubOk(q: Query, base: nat, h: Hub) {
    && Valid(h.store) && base <= CurrentHead(h.store, q.Log())
    && (forall i :: 0 <= i < |h.sent| ==> IsStored(h.store, h.sent[i]))
    && (!h.sub.Absent? ==> h.sub.at <= |h.sent|)
    && (h.sub.Open? ==>
          && base <= h.sub.head && PageOk(q, h)
          && forall i :: 0 <= i < h.sub.at && q.Matches(h.sent[i]) ==> h.sent[i].headId <= h.sub.head)
  }

  lemma SnapshotOk(q: Query, base: nat, a: Hub, b: Hub)
    requires HubOk(q, base, a) && Snapshots(q, a, b)
    ensures HubOk(q, base, b)
  {
    PageIsConsecutive(a.store, q.Log(), q.First(), q.Limit());
    var page := b.sub.replay;
    forall i | 0 <= i < |page|
      ensures IsStored(b.store, page[i]) && page[i].Log() == q.Log() && page[i].headId == q.First() + i
    {
      assert a.store.messages[Slot(q.Log(), q.First() + i)].Position() == Slot(q.Log(), q.First() + i);
    }
    forall i | 0 <= i < b.sub.at && q.Matches(b.sent[i]) ensures b.sent[i].headId <= b.sub.head {
      assert IsStored(a.store, a.sent[i]) && a.sent[i].Log() == q.Log();
    }
  }

  lemma HubStepOk(q: Query, base: nat, a: Hub, b: Hub)
    requires HubOk(q, base, a) && HubNext(q, a, b)
    ensures HubOk(q, base, b)
  {
    if Snapshots(q, a, b) {
      SnapshotOk(q, base, a, b);
    } else if Writes(a, b) {
      forall m | IsStored(a.store, m) ensures IsStored(b.store, m) {
      }
    }
  }

  lemma {:induction false} RunOk(q: Query, run: seq<Hub>, i: nat)
    requires IsRun(q, run) && i < |run|
    ensures HubOk(q, CurrentHead(run[0].store, q.Log()), run[i])
  {
    if i > 0 {
      RunOk(q, run, i - 1);
      assert HubStep(q, run, i - 1);
      HubStepOk(q, CurrentHead(run[0].store, q.Log()), run[i - 1], run[i]);
    }
  }

  // ---- What a subscriber sees ----

  /** What a subscriber has been sent once it has heard `k` broadcasts. */
  ghost function Received(q: Query, h: Hub, k: nat): seq<StoredMessage>
    requires h.sub.Open? && h.sub.at + k <= |h.sent|
  {
    Delivered(q, h.sub.replay, h.sent[h.sub.at..h.sub.at + k])
  }

  /** The highest head stored before the daemon started or broadcast up to position `n`. */
  ghost function Announced(q: Query, base: nat, h: Hub, n: nat): nat
    requires n <= |h.sent|
  {
    Reach(q, base, h.sent[..n])
  }

  lemma DeliveredAscends(q: Query, replay: seq<StoredMessage>, live: seq<StoredMessage>)
    requires Consecutive(replay, q.First())
    ensures Ascends(Delivered(q, replay, live), q.First() - 1)
  {
    LastSentOfPage(q.First() - 1, replay);
    PassingAscends(q, q.First() - 1 + |replay|, live);
  }

  lemma DeliveredAreStored(q: Query, h: Hub, live: seq<StoredMessage>)
    requires h.sub.Open? && PageOk(q, h) && forall m :: m in live ==> IsStored(h.store, m)
    ensures forall m :: m in Delivered(q, h.sub.replay, live) ==> IsStored(h.store, m) && m.Log() == q.Log()
  {
    PassingAscends(q, LastSent(q.First() - 1, h.sub.replay), live);
    forall m | m in Delivered(q, h.sub.replay, live) ensures IsStored(h.store, m) && m.Log() == q.Log() {
      if m in h.sub.replay {
        var i :| 0 <= i < |h.sub.replay| && h.sub.replay[i] == m;
      }
    }
  }

  /**
   * However the writers, the broadcasts, the registration and the page read interleave, a subscriber gets
   * stored messages of its log, from the requested head on, in strictly increasing head order.
   */
  lemma DeliveryIsOrdered(q: Query, run: seq<Hub>, h: Hub, k: nat)
    requires IsRun(q, run) && h == run[|run| - 1] && h.sub.Open? && h.sub.at + k <= |h.sent|
    ensures Ascends(Received(q, h, k), q.First() - 1)
    ensures forall m :: m in Received(q, h, k) ==> IsStored(h.store, m) && m.Log() == q.Log()
  {
    RunOk(q, run, |run| - 1);
    DeliveredAscends(q, h.sub.replay, h.sent[h.sub.at..h.sub.at + k]);
    DeliveredAreStored(q, h, h.sent[h.sub.at..h.sub.at + k]);
  }

  lemma SplitSent(q: Query, base: nat, sent: seq<StoredMessage>, at: nat, k: nat)
    requires at + k <= |sent| && InOrder(q, base, sent)
    ensures InOrder(q, Reach(q, base, sent[..at]), sent[at..at + k])
    ensures Reach(q, base, sent[..at + k]) == Reach(q, Reach(q, base, sent[..at]), sent[at..at + k])
  {
    assert sent == sent[..at] + sent[at..];
    assert sent[at..] == sent[at..at + k] + sent[at + k..];
    assert sent[..at + k] == sent[..at] + sent[at..at + k];
    OrderSplits(q, base, sent[..at], sent[at..]);
    OrderSplits(q, Reach(q, base, sent[..at]), sent[at..at + k], sent[at + k..]);
    OrderSplits(q, base, sent[..at], sent[at..at + k]);
  }

  /** The page ends at or after everything announced before registration, if that fits the page. */
  lemma SeamOverlaps(q: Query, base: nat, h: Hub)
    requires HubOk(q, base, h) && h.sub.Open?
    ensures LastSent(q.First() - 1, h.sub.replay) == q.First() - 1 + |h.sub.replay|
    ensures Announced(q, base, h, h.sub.at) <= q.First() - 1 + |h.sub.replay| <==>
            Announced(q, base, h, h.sub.at) < q.First() + q.Limit()
  {
    LastSentOfPage(q.First() - 1, h.sub.replay);
    forall m | m in h.sent[..h.sub.at] && q.Matches(m) ensures m.headId <= h.sub.head {
      var i :| 0 <= i < h.sub.at && m == h.sent[i];
    }
    ReachBounded(q, base, h.sent[..h.sub.at], h.sub.head);
  }

  lemma DeliveredIsConsecutiveIff(q: Query, replay: seq<StoredMessage>, live: seq<StoredMessage>)
    requires Consecutive(replay, q.First())
    ensures var last := q.First() - 1 + |replay|;
            && (Consecutive(Delivered(q, replay, live), q.First()) <==> InOrder(q, last, live))
            && (InOrder(q, last, live) ==> q.First() - 1 + |Delivered(q, replay, live)| == Reach(q, last, live))
  {
    var last := q.First() - 1 + |replay|;
    LastSentOfPage(q.First() - 1, replay);
    PassingIsConsecutiveIff(q, last, live);
    var passing, all := Passing(q, last, live), Delivered(q, replay, live);
    assert all == replay + passing;
    if Consecutive(all, q.First()) {
      forall i | 0 <= i < |passing| ensures passing[i].headId == last + 1 + i {
        assert passing[i] == all[|replay| + i];
      }
    }
  }

  lemma NoGapIff(q: Query, replay: seq<StoredMessage>, live: seq<StoredMessage>)
    requires Consecutive(replay, q.First())
    ensures var last := q.First() - 1 + |replay|;
            && (Consecutive(Delivered(q, replay, live), q.First()) <==> NoneSkips(q.topic, q.origin, last, live))
            && (NoneSkips(q.topic, q.origin, last, live) ==>
                  IsHighest(q.topic, q.origin, last, live, q.First() - 1 + |Delivered(q, replay, live)|))
  {
    var last := q.First() - 1 + |replay|;
    DeliveredIsConsecutiveIff(q, replay, live);
    InOrderIff(q, last, live);
    ReachIsHighest(q, last, live);
  }

  /**
   * In every run, what a subscriber receives has no gap if and only if no broadcast it heard skips a head beyond the
   * end of its page; then it is exactly the heads from the requested one up to the highest on the page or heard.
   */
  lemma DeliveryHasNoGapIff(q: Query, run: seq<Hub>, h: Hub, k: nat)
    requires IsRun(q, run) && h == run[|run| - 1] && h.sub.Open? && h.sub.at + k <= |h.sent|
    ensures var first := Max(q.from, 1);
            var last, live := first - 1 + |h.sub.replay|, h.sent[h.sub.at..h.sub.at + k];
            && (Consecutive(Received(q, h, k), first) <==> NoneSkips(q.topic, q.origin, last, live))
            && (NoneSkips(q.topic, q.origin, last, live) ==>
                  IsHighest(q.topic, q.origin, last, live, first - 1 + |Received(q, h, k)|))
  {
    RunOk(q, run, |run| - 1);
    NoGapIff(q, h.sub.replay, h.sent[h.sub.at..h.sub.at + k]);
  }

  /**
   * The page of a subscription is what the log held from the head asked for, up to the limit asked for: a hundred if
   * none is, ten thousand at most.
   */
  lemma PageIsAsAsked(q: Query, run: seq<Hub>, i: nat)
    requires IsRun(q, run) && i < |run| && run[i].sub.Open?
    ensures var sub, first := run[i].sub, if q.from == 0 then 1 else q.from;
            var held := if first <= sub.head then sub.head - first + 1 else 0;
            var asked := if q.replayLimit == 0 then 100 else if q.replayLimit <= 10_000 then q.replayLimit else 10_000;
            |sub.replay| == (if asked <= held then asked else held) && Consecutive(sub.replay, first)
  {
    RunOk(q, run, i);
  }

  lemma NoGapAt(q: Query, base: nat, last: nat, sent: seq<StoredMessage>, at: nat, k: nat)
    requires at + k <= |sent| && InOrder(q, base, sent) && Reach(q, base, sent[..at]) <= last
    ensures InOrder(q, last, sent[at..at + k])
    ensures Reach(q, last, sent[at..at + k]) == Max(last, Reach(q, base, sent[..at + k]))
  {
    SplitSent(q, base, sent, at, k);
    InOrderAhead(q, Reach(q, base, sent[..at]), last, sent[at..at + k]);
  }

  lemma NoGapDelivered(q: Query, base: nat, replay: seq<StoredMessage>, sent: seq<StoredMessage>, at: nat, k: nat)
    requires at + k <= |sent| && InOrder(q, base, sent) && Consecutive(replay, q.First())
    requires Reach(q, base, sent[..at]) <= q.First() - 1 + |replay|
    ensures Consecutive(Delivered(q, replay, sent[at..at + k]), q.First())
    ensures q.First() - 1 + |Delivered(q, replay, sent[at..at + k])| ==
        Max(q.First() - 1 + |replay|, Reach(q, base, sent[..at + k]))
  {
    NoGapAt(q, base, q.First() - 1 + |replay|, sent, at, k);
    DeliveredIsConsecutiveIff(q, replay, sent[at..at + k]);
  }

  /**
   * If all broadcasts of the log are in head order, and what was announced before the subscriber registered fits its
   * page, it gets exactly the heads from the requested one up to the last on the page or announced.
   */
  lemma DeliveryHasNoGap(q: Query, run: seq<Hub>, h: Hub, base: nat, k: nat)
    requires IsRun(q, run) && h == run[|run| - 1] && base == CurrentHead(run[0].store, q.Log())
    requires h.sub.Open? && h.sub.at + k <= |h.sent|
    requires InOrder(q, base, h.sent) && Announced(q, base, h, h.sub.at) < q.First() + q.Limit()
    ensures Consecutive(Received(q, h, k), q.First())
    ensures q.First() - 1 + |Received(q, h, k)| ==
        Max(q.First() - 1 + |h.sub.replay|, Announced(q, base, h, h.sub.at + k))
  {
    RunOk(q, run, |run| - 1);
    SeamOverlaps(q, base, h);
    NoGapDelivered(q, base, h.sub.replay, h.sent, h.sub.at, k);
  }

  /** The message with the next head of the log. */
  function NextMessage(q: Query, head: u64): StoredMessage {
    StoredMessage("", q.topic, q.origin, head, Bytes([]), map[], 0, false)
  }

  /**
   * The seam closes exactly when everything announced before registration lies below `first + limit`: then no
   * in-order continuation leaves a gap; otherwise the very next head does, and the stream does not say so.
   */
  lemma SeamClosesIff(q: Query, base: nat, h: Hub)
    requires HubOk(q, base, h) && h.sub.Open? && Announced(q, base, h, h.sub.at) < U64_MAX
    ensures (forall live {:trigger Delivered(q, h.sub.replay, live)} ::
               InOrder(q, Announced(q, base, h, h.sub.at), live) ==> Consecutive(Delivered(q, h.sub.replay, live),
                   q.First()))
            <==> Announced(q, base, h, h.sub.at) < q.First() + q.Limit()
  {
    var reach := Announced(q, base, h, h.sub.at);
    SeamOverlaps(q, base, h);
    SeamIff(q, h.sub.replay, reach);
  }

  lemma SeamIff(q: Query, replay: seq<StoredMessage>, reach: nat)
    requires Consecutive(replay, q.First()) && reach < U64_MAX
    ensures (forall live {:trigger Delivered(q, replay, live)} ::
               InOrder(q, reach, live) ==> Consecutive(Delivered(q, replay, live), q.First()))
            <==> reach <= q.First() - 1 + |replay|
  {
    var last := q.First() - 1 + |replay|;
    if reach <= last {
      forall live | InOrder(q, reach, live) ensures Consecutive(Delivered(q, replay, live), q.First()) {
        InOrderAhead(q, reach, last, live);
        DeliveredIsConsecutiveIff(q, replay, live);
      }
    } else {
      var live := [NextMessage(q, reach + 1)];
      DeliveredIsConsecutiveIff(q, replay, live);
      assert InOrder(q, reach, live) && !InOrder(q, last, live);
    }
  }
}
