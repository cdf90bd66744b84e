/** The Rust SDK's `ResilientSubscription`: one message at a time, across reconnects. */
module Resume {
  import opened Domain
  import Subscription

  datatype Code = Unavailable | DeadlineExceeded | Aborted | Cancelled | OtherCode(code: nat)

  predicate Retryable(code: Code) {
    !code.OtherCode?
  }

  /** What an open stream yields before it ends. */
  datatype Item = Message(message: StoredMessage) | EmptyResponse | Failure(code: Code)

  datatype Opening = Refused(code: Code) | Opened(items: seq<Item>)

  type Server = u64 -> Opening

  datatype Stream = Closed | Reading(items: seq<Item>)

  /** `Waiting` stands for a call that is still retrying when the caller stops polling it. */
  datatype Reply = Received(message: StoredMessage) | StatusError(code: Code) | ProtocolError | Waiting

  // ---- What servers promise ----

  /** Of a stream asked for from some head: nothing, increasing heads from it on, or those and no gap. */
  datatype Promise = Anything | Rising | Gapless

  predicate Follows(head: u64, next: u64, promise: Promise) {
    match promise
    case Anything => true
    case Rising => next <= head
    case Gapless => head == next
  }

  /** The messages of a stream follow one another, the first of them the head it was asked from. */
  ghost predicate InOrder(items: seq<Item>, next: u64, promise: Promise)
    decreases |items|
  {
    items == [] ||
    if items[0].Message? then
      Follows(items[0].message.headId, next, promise) && InOrder(items[1..], Next(items[0].message.headId), promise)
    else InOrder(items[1..], next, promise)
  }

  ghost predicate Keeps(open: Server, promise: Promise) {
    forall from: u64 {:trigger open(from)} ::
      from > 0 && open(from).Opened? ==> InOrder(open(from).items, from, promise)
  }

  ghost predicate AllKeep(opens: seq<Server>, promise: Promise) {
    opens == [] || (Keeps(opens[0], promise) && AllKeep(opens[1..], promise))
  }

  lemma {:induction false} AnyStreamIsAnything(items: seq<Item>, next: u64)
    ensures InOrder(items, next, Anything)
    decreases |items|
  {
    if items != [] {
      AnyStreamIsAnything(items[1..], if items[0].Message? then Next(items[0].message.headId) else next);
    }
  }

  /** Every sequence of servers keeps the empty promise, so the contracts below hold against all of them. */
  lemma {:induction false} AllServersKeepAnything(opens: seq<Server>)
    ensures AllKeep(opens, Anything)
  {
    if opens != [] {
      forall from: u64 | from > 0 && opens[0](from).Opened? ensures InOrder(opens[0](from).items, from, Anything) {
        AnyStreamIsAnything(opens[0](from).items, from);
      }
      AllServersKeepAnything(opens[1..]);
    }
  }

  // ---- What a subscription returns ----

  /** The resume point after returning some heads. */
  function ResumePoint(first: u64, returned: seq<u64>): u64 {
    if returned == [] then first else Next(returned[|returned| - 1])
  }

  ghost predicate Linked(returned: seq<u64>, first: u64, promise: Promise, i: nat)
    requires i < |returned|
  {
    Follows(returned[i], ResumePoint(first, returned[..i]), promise)
  }

  /** Each head returned follows the resume point before it. */
  ghost predicate Chain(returned: seq<u64>, first: u64, promise: Promise) {
    forall i {:trigger Linked(returned, first, promise, i)} ::
      0 <= i < |returned| ==> Linked(returned, first, promise, i)
  }

  lemma ChainExtends(returned: seq<u64>, first: u64, promise: Promise, head: u64)
    requires Chain(returned, first, promise) && Follows(head, ResumePoint(first, returned), promise)
    ensures Chain(returned + [head], first, promise)
  {
    var longer := returned + [head];
    forall i | 0 <= i < |longer| ensures Linked(longer, first, promise, i) {
      assert longer[..i] == returned[..i];
      assert returned[..|returned|] == returned;
      assert i < |returned| ==> Linked(returned, first, promise, i);
    }
  }

  /** Against gap-free streams, the heads returned are the first one and its successors; at the largest it stays. */
  lemma {:induction false} GaplessChain(returned: seq<u64>, first: u64, i: nat)
    requires Chain(returned, first, Gapless) && i < |returned|
    ensures returned[i] == Min(first + i, U64_MAX)
  {
    assert Linked(returned, first, Gapless, i);
    if i > 0 {
      GaplessChain(returned, first, i - 1);
      assert returned[..i][i - 1] == returned[i - 1];
    }
  }

  ghost predicate Increasing(heads: seq<u64>) {
    forall i, j :: 0 <= i < j < |heads| ==> heads[i] < heads[j]
  }

  lemma RisingLink(returned: seq<u64>, first: u64, promise: Promise, i: nat)
    requires Chain(returned, first, promise) && !promise.Anything? && i + 1 < |returned|
    ensures Next(returned[i]) <= returned[i + 1]
  {
    assert Linked(returned, first, promise, i + 1);
    assert returned[..i + 1][i] == returned[i];
  }

  lemma {:induction false} RisesBelowTheLargest(returned: seq<u64>, first: u64, promise: Promise, i: nat, j: nat)
    requires Chain(returned, first, promise) && !promise.Anything? && i < j < |returned|
    requires U64_MAX !in returned[..|returned| - 1]
    ensures returned[i] < returned[j]
    decreases j
  {
    assert returned[..|returned| - 1][j - 1] == returned[j - 1];
    RisingLink(returned, first, promise, j - 1);
    if i < j - 1 {
      RisesBelowTheLargest(returned, first, promise, i, j - 1);
    }
  }

  /**
   * Against ordered streams no message comes twice or out of order, unless one follows the largest head: that one
   * repeats it.
   */
  lemma IncreasesIff(returned: seq<u64>, first: u64, promise: Promise)
    requires Chain(returned, first, promise) && !promise.Anything? && returned != []
    ensures Increasing(returned) <==> U64_MAX !in returned[..|returned| - 1]
  {
    if U64_MAX !in returned[..|returned| - 1] {
      forall i, j | 0 <= i < j < |returned| ensures returned[i] < returned[j] {
        RisesBelowTheLargest(returned, first, promise, i, j);
      }
    } else {
      var i :| 0 <= i < |returned| - 1 && returned[i] == U64_MAX;
      RisingLink(returned, first, promise, i);
      assert !(returned[i] < returned[i + 1]);
    }
  }

  // ---- What calls have to answer ----

  /** The things worth an answer, in the order they come. */
  datatype Coming = Nothing | Then(item: Item, rest: Coming)

  /**
   * Everything worth an answer that the open stream and the coming connections hold, asked from the resume point
   * `next`: all messages, empty responses and failures, except that a failure worth a retry and what its stream still
   * held are not. A message moves the resume point, and with it what later connections are asked for.
   */
  function Upcoming(next: u64, stream: Stream, opens: seq<Server>): Coming
    decreases |opens|, if stream.Reading? then |stream.items| + 1 else 0
  {
    if stream.Reading? then
      if stream.items == [] || (stream.items[0].Failure? && Retryable(stream.items[0].code)) then
        Upcoming(next, Closed, opens)
      else
        var item := stream.items[0];
        var next' := if item.Message? then Next(item.message.headId) else next;
        Then(item, Upcoming(next', Reading(stream.items[1..]), opens))
    else if opens == [] then
      Nothing
    else
      var opening := opens[0](next);
      if opening.Opened? then
        Upcoming(next, Reading(opening.items), opens[1..])
      else if Retryable(opening.code) then
        Upcoming(next, Closed, opens[1..])
      else
        Then(Failure(opening.code), Upcoming(next, Closed, opens[1..]))
  }

  /**
   * A stream that breaks off, or a connection that is refused, is retried exactly for the codes unavailable, deadline
   * exceeded, aborted and cancelled; any other is worth an answer.
   */
  lemma RetriedIff(next: u64, code: Code, items: seq<Item>, open: Server, opens: seq<Server>)
    ensures Upcoming(next, Reading([Failure(code)] + items), opens) ==
              if code in {Unavailable, DeadlineExceeded, Aborted, Cancelled} then Upcoming(next, Closed, opens)
              else Then(Failure(code), Upcoming(next, Reading(items), opens))
    ensures open(next) == Refused(code) ==>
              Upcoming(next, Closed, [open] + opens) ==
              if code in {Unavailable, DeadlineExceeded, Aborted, Cancelled} then Upcoming(next, Closed, opens)
              else Then(Failure(code), Upcoming(next, Closed, opens))
  {
    assert ([Failure(code)] + items)[1..] == items;
    assert ([open] + opens)[1..] == opens;
  }

  /**
   * A message, and an empty response, is the next thing to answer; after a message, connections are asked from the head
   * that follows it. A stream that just ends is reopened.
   */
  lemma ItemsAreAnswered(next: u64, m: StoredMessage, items: seq<Item>, opens: seq<Server>)
    ensures Upcoming(next, Reading([Message(m)] + items), opens) ==
              Then(Message(m), Upcoming(if m.headId < U64_MAX then m.headId + 1 else U64_MAX, Reading(items), opens))
    ensures Upcoming(next, Reading([EmptyResponse] + items), opens) ==
              Then(EmptyResponse, Upcoming(next, Reading(items), opens))
    ensures Upcoming(next, Reading([]), opens) == Upcoming(next, Closed, opens)
    ensures opens != [] && opens[0](next).Opened? ==>
              Upcoming(next, Closed, opens) == Upcoming(next, Reading(opens[0](next).items), opens[1..])
  {
    assert ([Message(m)] + items)[1..] == items && ([EmptyResponse] + items)[1..] == items;
  }

  /** What an answer was about. */
  function AnswerTo(r: Reply): Item
    requires !r.Waiting?
  {
    match r
    case Received(m) => Message(m)
    case StatusError(code) => Failure(code)
    case ProtocolError => EmptyResponse
  }

  /** `replies` answer what was coming, in order; once there is nothing left, every call waits. */
  ghost predicate Answers(replies: seq<Reply>, coming: Coming, left: Coming)
    decreases |replies|
  {
    if replies == [] then coming == left
    else if replies[0].Waiting? then coming == Nothing && Answers(replies[1..], coming, left)
    else coming.Then? && coming.item == AnswerTo(replies[0]) && Answers(replies[1..], coming.rest, left)
  }

  lemma {:induction false} AnswersMore(replies: seq<Reply>, coming: Coming, left: Coming, r: Reply, left': Coming)
    requires Answers(replies, coming, left)
    requires if r.Waiting? then left == left' == Nothing else left == Then(AnswerTo(r), left')
    ensures Answers(replies + [r], coming, left')
    decreases |replies|
  {
    if replies == [] {
      assert replies + [r] == [r];
      assert [r][1..] == [];
    } else {
      assert (replies + [r])[1..] == replies[1..] + [r];
      AnswersMore(replies[1..], if replies[0].Waiting? then coming else coming.rest, left, r, left');
    }
  }

  /** The messages among the answers, and their heads. */
  function MessagesIn(replies: seq<Reply>): (r: seq<StoredMessage>)
    ensures forall m :: m in r ==> Received(m) in replies
  {
    if replies == [] then []
    else
      var n := |replies| - 1;
      MessagesIn(replies[..n]) + if replies[n].Received? then [replies[n].message] else []
  }

  function HeadsOf(ms: seq<StoredMessage>): seq<u64> {
    seq(|ms|, i requires 0 <= i < |ms| => ms[i].headId)
  }

  /** The heads received. */
  function HeadsIn(replies: seq<Reply>): seq<u64> {
    HeadsOf(MessagesIn(replies))
  }

  function HeadIn(r: Reply): seq<u64> {
    if r.Received? then [r.message.headId] else []
  }

  lemma OneMoreReply(earlier: seq<u64>, replies: seq<Reply>, r: Reply)
    ensures earlier + HeadsIn(replies + [r]) == earlier + HeadsIn(replies) + HeadIn(r)
  {
    assert (replies + [r])[..|replies|] == replies;
    assert HeadsIn(replies + [r]) == HeadsIn(replies) + HeadIn(r);
  }

  // ---- Where what comes comes from ----

  ghost predicate AllComing(coming: Coming, good: Item -> bool) {
    coming.Then? ==> good(coming.item) && AllComing(coming.rest, good)
  }

  ghost predicate AllOf(items: seq<Item>, good: Item -> bool) {
    forall i :: 0 <= i < |items| ==> good(items[i])
  }

  /** All that a server sends is good, and so are failures. */
  ghost predicate SendsOnly(open: Server, good: Item -> bool) {
    forall from: u64 {:trigger open(from)} ::
      from > 0 ==> if open(from).Opened? then AllOf(open(from).items, good) else good(Failure(open(from).code))
  }

  lemma {:induction false} ComesFromServers(next: u64, stream: Stream, opens: seq<Server>, good: Item -> bool)
    requires next > 0 && (stream.Reading? ==> AllOf(stream.items, good))
    requires forall i :: 0 <= i < |opens| ==> SendsOnly(opens[i], good)
    ensures AllComing(Upcoming(next, stream, opens), good)
    decreases |opens|, if stream.Reading? then |stream.items| + 1 else 0
  {
    if stream.Reading? {
      if stream.items == [] || (stream.items[0].Failure? && Retryable(stream.items[0].code)) {
        ComesFromServers(next, Closed, opens, good);
      } else {
        var item := stream.items[0];
        ComesFromServers(if item.Message? then Next(item.message.headId) else next, Reading(stream.items[1..]), opens,
            good);
      }
    } else if opens != [] {
      var opening := opens[0](next);
      assert SendsOnly(opens[0], good);
      ComesFromServers(next, if opening.Opened? then Reading(opening.items) else Closed, opens[1..], good);
    }
  }

  lemma {:induction false} AnswersFromServers(replies: seq<Reply>, coming: Coming, left: Coming, good: Item -> bool)
    requires Answers(replies, coming, left) && AllComing(coming, good)
    ensures forall m :: Received(m) in replies ==> good(Message(m))
    decreases |replies|
  {
    if replies != [] {
      AnswersFromServers(replies[1..], if replies[0].Waiting? then coming else coming.rest, left, good);
      assert replies == [replies[0]] + replies[1..];
    }
  }

  /** A subscription that has been polled; `opens` are the connection attempts still to come. */
  class ResilientSubscription {
    var nextHeadId: u64
    var stream: Stream
    var opens: seq<Server>
    ghost const first: u64
    ghost const promise: Promise
    ghost var returned: seq<u64>

    /** What was returned, and then what the open stream holds, is one chain. */
    ghost predicate Inv()
      reads this
    {
      && first > 0 && nextHeadId == ResumePoint(first, returned) && AllKeep(opens, promise)
      && Chain(returned, first, promise) && (stream.Reading? ==> InOrder(stream.items, nextHeadId, promise))
    }

    ghost function Ahead(): Coming
      reads this
    {
      Upcoming(nextHeadId, stream, opens)
    }

    constructor (fromHeadId: u64, opens: seq<Server>, ghost promise: Promise)
      requires AllKeep(opens, promise)
      ensures Inv() && this.promise == promise && this.opens == opens
      ensures nextHeadId == first == Max(fromHeadId, 1) && stream == Closed && returned == []
    {
      nextHeadId, stream, this.opens := Max(fromHeadId, 1), Closed, opens;
      first, returned, this.promise := Max(fromHeadId, 1), [], promise;
    }

    /** `open_stream`: asks for the stream from the resume point on. */
    method OpenStream() returns (opening: Opening)
      requires Inv() && stream.Closed? && opens != []
      modifies this
      ensures Inv() && returned == old(returned) && nextHeadId == old(nextHeadId)
      ensures opening == old(opens)[0](nextHeadId) && opens == old(opens)[1..]
      ensures stream == if opening.Opened? then Reading(opening.items) else Closed
      ensures old(Ahead()) == if opening.Refused? && !Retryable(opening.code) then Then(Failure(opening.code), Ahead())
          else Ahead()
    {
      opening := opens[0](nextHeadId);
      opens := opens[1..];
      if opening.Opened? {
        stream := Reading(opening.items);
      }
    }

    /** Reads one item of the open stream. */
    method Read() returns (item: Item)
      requires Inv() && stream.Reading? && stream.items != []
      modifies this
      ensures Inv() && opens == old(opens) && item == old(stream).items[0] && stream == Reading(old(stream).items[1..])
      ensures returned == if item.Message? then old(returned) + [item.message.headId] else old(returned)
    {
      item := stream.items[0];
      stream := Reading(stream.items[1..]);
      if item.Message? {
        ChainExtends(returned, first, promise, item.message.headId);
        nextHeadId := Next(item.message.headId);
        returned := returned + [item.message.headId];
      }
    }

    /** Reads the open stream until it has something to answer or ends. */
    method Listen() returns (r: Reply)
      requires Inv() && stream.Reading?
      modifies this
      ensures Inv() && opens == old(opens)
      ensures returned == if r.Received? then old(returned) + [r.message.headId] else old(returned)
      ensures old(Ahead()) == if r.Waiting? then Ahead() else Then(AnswerTo(r), Ahead())
      ensures r.Waiting? ==> stream.Closed?
    {
      if stream.items == [] {
        stream := Closed;
        return Waiting;
      }
      var item := Read();
      match item
      case Message(m) =>
        return Received(m);
      case EmptyResponse =>
        return ProtocolError;
      case Failure(code) =>
        if !Retryable(code) {
          return StatusError(code);
        }
        stream := Closed;
        return Waiting;
    }

    /**
     * `next_message`: answers with the first thing worth an answer that the open stream and the coming connections
     * hold, and leaves exactly the rest for later calls. It waits only if there is none.
     */
    method NextMessage() returns (r: Reply)
      requires Inv()
      modifies this
      ensures Inv() && returned == if r.Received? then old(returned) + [r.message.headId] else old(returned)
      ensures old(Ahead()) == if r.Waiting? then Nothing else Then(AnswerTo(r), Ahead())
      ensures r.Waiting? ==> opens == [] && stream.Closed?
    {
      while true
        invariant Inv() && returned == old(returned) && Ahead() == old(Ahead())
        decreases |opens|, if stream.Reading? then 1 else 0
      {
        if stream.Closed? {
          if opens == [] {
            return Waiting;
          }
          var opening := OpenStream();
          if opening.Refused? {
            if Retryable(opening.code) {
              continue;
            }
            return StatusError(opening.code);
          }
        }
        r := Listen();
        if !r.Waiting? {
          return;
        }
      }
    }

    /** Any number of calls answer exactly what was coming, in order. */
    method Poll(n: nat) returns (replies: seq<Reply>)
      requires Inv()
      modifies this
      ensures Inv() && |replies| == n && Answers(replies, old(Ahead()), Ahead())
      ensures returned == old(returned) + HeadsIn(replies)
    {
      replies := [];
      while |replies| < n
        invariant Inv() && |replies| <= n && Answers(replies, old(Ahead()), Ahead())
        invariant returned == old(returned) + HeadsIn(replies)
      {
        ghost var left := Ahead();
        var r := NextMessage();
        AnswersMore(replies, old(Ahead()), left, r, Ahead());
        OneMoreReply(old(returned), replies, r);
        replies := replies + [r];
      }
    }
  }

  // ---- Daemons as servers ----

  function Messages(ms: seq<StoredMessage>): seq<Item> {
    seq(|ms|, i requires 0 <= i < |ms| => Message(ms[i]))
  }

  /** What a daemon sends a subscriber before its stream ends or fails meets the order the client relies on. */
  lemma {:induction false} StreamsAreInOrder(ms: seq<StoredMessage>, next: u64, end: seq<Item>, promise: Promise)
    requires next > 0 && Subscription.Ascends(ms, next - 1) && IsEnd(end)
    requires promise.Gapless? ==> Subscription.Consecutive(ms, next)
    ensures InOrder(Messages(ms) + end, next, promise)
    decreases |ms|
  {
    if ms != [] {
      assert (Messages(ms) + end)[1..] == Messages(ms[1..]) + end;
      RestAscends(ms, next, promise);
      StreamsAreInOrder(ms[1..], Next(ms[0].headId), end, promise);
    } else {
      assert Messages(ms) + end == end;
    }
  }

  /** How a stream ends: with a failure, or just so. */
  predicate IsEnd(end: seq<Item>) {
    end == [] || (|end| == 1 && end[0].Failure?)
  }

  lemma RestAscends(ms: seq<StoredMessage>, next: u64, promise: Promise)
    requires ms != [] && next > 0 && Subscription.Ascends(ms, next - 1)
    requires promise.Gapless? ==> Subscription.Consecutive(ms, next)
    ensures Subscription.Ascends(ms[1..], Next(ms[0].headId) - 1)
    ensures promise.Gapless? ==> Subscription.Consecutive(ms[1..], Next(ms[0].headId))
  {
    forall i | 0 <= i < |ms[1..]| ensures ms[1..][i] == ms[i + 1] && ms[0].headId < ms[i + 1].headId {
    }
  }

  /** How one stream of a daemon came about: a run of the daemon, and how many broadcasts the subscriber heard. */
  datatype Service = Service(run: seq<Subscription.Hub>, k: nat, end: seq<Item>)

  /** The items are what a subscriber with a given query got in that run, before the stream ended or failed. */
  ghost predicate IsServed(items: seq<Item>, q: Subscription.Query, service: Service, promise: Promise) {
    && Subscription.IsRun(q, service.run) && IsEnd(service.end)
    && var h := service.run[|service.run| - 1];
       && h.sub.Open? && h.sub.at + service.k <= |h.sent|
       && items == Messages(Subscription.Received(q, h, service.k)) + service.end
       && (promise.Gapless? ==>
             Subscription.NoneSkips(q.topic, q.origin, q.First() - 1 + |h.sub.replay|,
                 h.sent[h.sub.at..h.sub.at + service.k]))
  }

  /**
   * Whatever head it is asked from, the server's streams are those of a daemon; if gap-free, with broadcasts in order.
   */
  ghost predicate IsDaemon(open: Server, topic: string, origin: NodeId, limit: u32, promise: Promise) {
    forall from: u64 {:trigger open(from)} :: from > 0 && open(from).Opened? ==>
      exists service :: IsServed(open(from).items, Subscription.Query(topic, origin, from, limit), service, promise)
  }

  lemma ServedInOrder(items: seq<Item>, q: Subscription.Query, service: Service, promise: Promise)
    requires IsServed(items, q, service, promise)
    ensures InOrder(items, q.First(), promise)
  {
    var h := service.run[|service.run| - 1];
    Subscription.DeliveryIsOrdered(q, service.run, h, service.k);
    Subscription.DeliveryHasNoGapIff(q, service.run, h, service.k);
    StreamsAreInOrder(Subscription.Received(q, h, service.k), q.First(), service.end, promise);
  }

  lemma DaemonsKeep(open: Server, topic: string, origin: NodeId, limit: u32, promise: Promise)
    requires IsDaemon(open, topic, origin, limit, promise)
    ensures Keeps(open, promise)
  {
    forall from: u64 | from > 0 && open(from).Opened? ensures InOrder(open(from).items, from, promise) {
      var q := Subscription.Query(topic, origin, from, limit);
      var service :| IsServed(open(from).items, q, service, promise);
      ServedInOrder(open(from).items, q, service, promise);
    }
  }

  lemma {:induction false} AllDaemonsKeep(opens: seq<Server>, topic: string, origin: NodeId, limit: u32,
      promise: Promise)
    requires forall i :: 0 <= i < |opens| ==> IsDaemon(opens[i], topic, origin, limit, promise)
    ensures AllKeep(opens, promise)
  {
    if opens != [] {
      DaemonsKeep(opens[0], topic, origin, limit, promise);
      AllDaemonsKeep(opens[1..], topic, origin, limit, promise);
    }
  }

  /** A daemon that served the log held the message there. */
  ghost predicate HeldWhenServed(m: StoredMessage, items: seq<Item>, q: Subscription.Query, service: Service,
      promise: Promise)
  {
    && IsServed(items, q, service, promise) && m.Log() == q.Log()
    && Subscription.IsStored(service.run[|service.run| - 1].store, m)
  }

  /** The message was sent by one of the daemons, and is what it stored at that place of the log. */
  ghost predicate IsOfTheLog(m: StoredMessage, opens: seq<Server>, topic: string, origin: NodeId, limit: u32,
      promise: Promise)
  {
    exists i: nat, from: u64, service :: i < |opens| && from > 0 && opens[i](from).Opened? &&
      HeldWhenServed(m, opens[i](from).items, Subscription.Query(topic, origin, from, limit), service, promise)
  }

  lemma ServedFromTheLog(opens: seq<Server>, i: nat, from: u64, topic: string, origin: NodeId, limit: u32,
      promise: Promise, m: StoredMessage)
    requires i < |opens| && IsDaemon(opens[i], topic, origin, limit, promise)
    requires from > 0 && opens[i](from).Opened? && Message(m) in opens[i](from).items
    ensures IsOfTheLog(m, opens, topic, origin, limit, promise)
  {
    var q, items := Subscription.Query(topic, origin, from, limit), opens[i](from).items;
    var service :| IsServed(items, q, service, promise);
    var h := service.run[|service.run| - 1];
    var ms := Subscription.Received(q, h, service.k);
    Subscription.DeliveryIsOrdered(q, service.run, h, service.k);
    var j :| 0 <= j < |items| && items[j] == Message(m);
    assert j < |ms| && m == ms[j] && ms[j] in ms;
    assert HeldWhenServed(m, items, q, service, promise);
  }

  /** What daemons send are messages of the log, and then perhaps a failure. */
  lemma DaemonsSendTheLog(opens: seq<Server>, i: nat, topic: string, origin: NodeId, limit: u32, promise: Promise,
      good: Item -> bool)
    requires i < |opens| && IsDaemon(opens[i], topic, origin, limit, promise)
    requires forall item {:trigger good(item)} ::
               good(item) <==> (item.Message? ==> IsOfTheLog(item.message, opens, topic, origin, limit, promise))
    ensures SendsOnly(opens[i], good)
  {
    forall from: u64 | from > 0 && opens[i](from).Opened? ensures AllOf(opens[i](from).items, good) {
      forall j | 0 <= j < |opens[i](from).items| ensures good(opens[i](from).items[j]) {
        if opens[i](from).items[j].Message? {
          ServedFromTheLog(opens, i, from, topic, origin, limit, promise, opens[i](from).items[j].message);
        }
      }
    }
  }

  lemma AnswersAreOfTheLog(next: u64, opens: seq<Server>, replies: seq<Reply>, left: Coming, topic: string,
      origin: NodeId, limit: u32, promise: Promise)
    requires next > 0 && Answers(replies, Upcoming(next, Closed, opens), left)
    requires forall i :: 0 <= i < |opens| ==> IsDaemon(opens[i], topic, origin, limit, promise)
    ensures forall m :: Received(m) in replies ==> IsOfTheLog(m, opens, topic, origin, limit, promise)
  {
    var good: Item -> bool :=
      (item: Item) => item.Message? ==> IsOfTheLog(item.message, opens, topic, origin, limit, promise);
    forall i | 0 <= i < |opens| ensures SendsOnly(opens[i], good) {
      DaemonsSendTheLog(opens, i, topic, origin, limit, promise, good);
    }
    ComesFromServers(next, Closed, opens, good);
    AnswersFromServers(replies, Upcoming(next, Closed, opens), left, good);
    forall m | Received(m) in replies ensures IsOfTheLog(m, opens, topic, origin, limit, promise) {
      assert good(Message(m));
    }
  }

  /** A new subscription, polled. */
  method Follow(fromHeadId: u64, opens: seq<Server>, n: nat, ghost topic: string, ghost origin: NodeId,
      ghost limit: u32, ghost promise: Promise)
    returns (messages: seq<StoredMessage>)
    requires AllKeep(opens, promise)
    requires forall i :: 0 <= i < |opens| ==> IsDaemon(opens[i], topic, origin, limit, promise)
    ensures Chain(HeadsOf(messages), Max(fromHeadId, 1), promise)
    ensures forall m :: m in messages ==> IsOfTheLog(m, opens, topic, origin, limit, promise)
  {
    var subscription := new ResilientSubscription(fromHeadId, opens, promise);
    var replies := subscription.Poll(n);
    AnswersAreOfTheLog(Max(fromHeadId, 1), opens, replies, subscription.Ahead(), topic, origin, limit, promise);
    messages := MessagesIn(replies);
    assert [] + HeadsOf(messages) == HeadsOf(messages);
  }

  lemma ChainSays(messages: seq<StoredMessage>, first: u64, promise: Promise)
    requires Chain(HeadsOf(messages), first, promise) && !promise.Anything?
    ensures messages != [] ==>
              (Increasing(HeadsOf(messages)) <==> U64_MAX !in HeadsOf(messages)[..|messages| - 1])
    ensures promise.Gapless? ==> forall i :: 0 <= i < |messages| ==> messages[i].headId == Min(first + i, U64_MAX)
  {
    var heads := HeadsOf(messages);
    if heads != [] {
      IncreasesIff(heads, first, promise);
    }
    if promise.Gapless? {
      forall i | 0 <= i < |messages| ensures messages[i].headId == Min(first + i, U64_MAX) {
        GaplessChain(heads, first, i);
      }
    }
  }

  /**
   * End to end: a client follows a log across any connections to daemons, each with its own run of writers, broadcasts,
   * page read, lag and failure. It gets messages the daemons hold in that log, whose heads strictly increase, unless
   * one follows the largest head there is. If the broadcasts it heard skip none, the heads are the requested one and
   * its successors, none missing and none repeated.
   */
  method FollowDaemons(fromHeadId: u64, opens: seq<Server>, n: nat, ghost topic: string, ghost origin: NodeId,
      ghost limit: u32, ghost promise: Promise)
    returns (messages: seq<StoredMessage>)
    requires !promise.Anything? && forall i :: 0 <= i < |opens| ==> IsDaemon(opens[i], topic, origin, limit, promise)
    ensures forall m :: m in messages ==> IsOfTheLog(m, opens, topic, origin, limit, promise)
    ensures Chain(HeadsOf(messages), Max(fromHeadId, 1), promise)
    ensures messages != [] ==>
              (Increasing(HeadsOf(messages)) <==> U64_MAX !in HeadsOf(messages)[..|messages| - 1])
    ensures promise.Gapless? ==>
              forall i :: 0 <= i < |messages| ==> messages[i].headId == Min(Max(fromHeadId, 1) + i, U64_MAX)
  {
    AllDaemonsKeep(opens, topic, origin, limit, promise);
    messages := Follow(fromHeadId, opens, n, topic, origin, limit, promise);
    ChainSays(messages, Max(fromHeadId, 1), promise);
  }
}
