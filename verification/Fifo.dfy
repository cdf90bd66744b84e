/** FIFO queues: per-queue sequence numbers, and only the front of a queue can be acknowledged or rejected. */
module Fifo {
  import opened Domain
  import opened StoreModel

  datatype Job = Job(id: string, queue: string, topic: string, source: NodeId, target: NodeId, payload: seq<byte>,
      headers: map<string, string>)

  datatype StoredJob = StoredJob(job: Job, createdAtMs: u64, sequence: u64, attempts: u32)

  datatype Entry = Entry(queue: string, sequence: u64)

  /** The last sequence number given out per queue, and the jobs not acknowledged yet. */
  datatype Queues = Queues(last: map<string, u64>, jobs: map<Entry, StoredJob>)

  datatype Front = NoFront | AtFront(job: StoredJob)

  function LastOf(f: Queues, queue: string): u64 {
    if queue in f.last then f.last[queue] else 0
  }

  function Enqueue(f: Queues, job: Job, now: u64): (Queues, StoredJob) {
    var sequence := Next(LastOf(f, job.queue));
    var stored := StoredJob(job, now, sequence, 0);
    (Queues(f.last[job.queue := sequence], f.jobs[Entry(job.queue, sequence) := stored]), stored)
  }

  function Sequences(f: Queues, queue: string): set<nat> {
    set e | e in f.jobs && e.queue == queue :: e.sequence
  }

  predicate AllIn(jobs: map<Entry, StoredJob>, queue: string, order: seq<nat>) {
    forall i {:trigger order[i]} :: 0 <= i < |order| ==> order[i] <= U64_MAX && Entry(queue, order[i]) in jobs
  }

  function JobsAt(jobs: map<Entry, StoredJob>, queue: string, order: seq<nat>): seq<StoredJob>
    requires AllIn(jobs, queue, order)
  {
    seq(|order|, i requires 0 <= i < |order| => jobs[Entry(queue, order[i])])
  }

  lemma SequencesAllIn(f: Queues, queue: string)
    ensures AllIn(f.jobs, queue, Ascending(Sequences(f, queue)))
  {
    var order := Ascending(Sequences(f, queue));
    forall i | 0 <= i < |order| ensures order[i] <= U64_MAX && Entry(queue, order[i]) in f.jobs {
      assert order[i] in Sequences(f, queue);
    }
  }

  /** The jobs of a queue, oldest first. */
  function Pending(f: Queues, queue: string): (r: seq<StoredJob>)
    ensures |r| == |Ascending(Sequences(f, queue))|
  {
    SequencesAllIn(f, queue);
    JobsAt(f.jobs, queue, Ascending(Sequences(f, queue)))
  }

  function Peek(f: Queues, queue: string): Front {
    if Pending(f, queue) == [] then NoFront else AtFront(Pending(f, queue)[0])
  }

  datatype Action = Ack | Reject

  function Bump(attempts: u32): u32 {
    if attempts == U32_MAX then U32_MAX else attempts + 1
  }

  /** Acts on the front of a queue if it has the given id; anything else is refused and changes nothing. */
  function Update(f: Queues, queue: string, id: string, action: Action): (Queues, bool) {
    match Peek(f, queue)
    case NoFront => (f, false)
    case AtFront(front) =>
      if front.job.id != id then
        (f, false)
      else if action.Ack? then
        (f.(jobs := f.jobs - {Entry(queue, front.sequence)}), true)
      else
        (f.(jobs := f.jobs[Entry(queue, front.sequence) := front.(attempts := Bump(front.attempts))]), true)
  }

  /** Every job sits under its own queue and sequence number, none beyond the last one given out. */
  ghost predicate Valid(f: Queues) {
    && (forall e {:trigger f.jobs[e]} ::
      e in f.jobs ==> f.jobs[e].job.queue == e.queue && f.jobs[e].sequence == e.sequence)
    && (forall e {:trigger e in f.jobs} :: e in f.jobs ==> 1 <= e.sequence <= LastOf(f, e.queue))
  }

  // ---- Ascending order is determined by its elements ----

  ghost predicate Rising(s: seq<nat>) {
    forall i, j :: 0 <= i < j < |s| ==> s[i] < s[j]
  }

  lemma {:induction false} RisingUnique(a: seq<nat>, b: seq<nat>)
    requires Rising(a) && Rising(b) && forall x :: x in a <==> x in b
    ensures a == b
    decreases |a|
  {
    if a != [] {
      assert a[0] in b;
    }
    if b != [] {
      assert b[0] in a;
      var i :| 0 <= i < |b| && b[i] == a[0];
      var j :| 0 <= j < |a| && a[j] == b[0];
      assert a[0] == b[0];
      forall x ensures x in a[1..] <==> x in b[1..] {
        assert x in a <==> x == a[0] || x in a[1..];
        assert x in b <==> x == b[0] || x in b[1..];
        assert a[0] !in a[1..] && b[0] !in b[1..];
      }
      RisingUnique(a[1..], b[1..]);
      assert a == [a[0]] + a[1..] && b == [b[0]] + b[1..];
    }
  }

  lemma AscendingAppend(s: set<nat>, x: nat)
    requires forall y :: y in s ==> y < x
    ensures Ascending(s + {x}) == Ascending(s) + [x]
  {
    var longer := Ascending(s) + [x];
    forall i, j | 0 <= i < j < |longer| ensures longer[i] < longer[j] {
      assert longer[i] == Ascending(s)[i] && longer[i] in s;
    }
    RisingUnique(Ascending(s + {x}), longer);
  }

  lemma AscendingTail(s: set<nat>)
    requires Ascending(s) != []
    ensures Ascending(s - {Ascending(s)[0]}) == Ascending(s)[1..]
  {
    var order := Ascending(s);
    forall x ensures x in order[1..] <==> x in s - {order[0]} {
      assert x in order <==> x == order[0] || x in order[1..];
      assert order[0] !in order[1..];
    }
    RisingUnique(Ascending(s - {order[0]}), order[1..]);
  }

  // ---- What the operations do to a queue ----

  lemma EnqueueKeepsValid(f: Queues, job: Job, now: u64)
    requires Valid(f)
    ensures Valid(Enqueue(f, job, now).0)
  {
    var f' := Enqueue(f, job, now).0;
    forall e | e in f'.jobs ensures 1 <= e.sequence <= LastOf(f', e.queue) {
      assert e in f.jobs || e == Entry(job.queue, Next(LastOf(f, job.queue)));
    }
  }

  /** The front is the pending job with the least sequence number. */
  lemma FrontIsFirst(f: Queues, queue: string)
    requires Valid(f) && Pending(f, queue) != []
    ensures var front := Pending(f, queue)[0];
            && Entry(queue, front.sequence) in f.jobs && f.jobs[Entry(queue, front.sequence)] == front
            && front.job.queue == queue
            && front.sequence == Ascending(Sequences(f, queue))[0]
  {
    var order := Ascending(Sequences(f, queue));
    assert order[0] in Sequences(f, queue);
  }

  lemma SamePending(f: Queues, f': Queues, queue: string)
    requires forall e: Entry ::
        e.queue == queue ==> (e in f.jobs <==> e in f'.jobs) && (e in f.jobs ==> f.jobs[e] == f'.jobs[e])
    ensures Pending(f, queue) == Pending(f', queue)
  {
    assert Sequences(f, queue) == Sequences(f', queue) by {
      forall x: nat ensures x in Sequences(f, queue) <==> x in Sequences(f', queue) {
        if x in Sequences(f, queue) {
          assert Entry(queue, x) in f'.jobs;
        }
        if x in Sequences(f', queue) {
          assert Entry(queue, x) in f.jobs;
        }
      }
    }
    var order := Ascending(Sequences(f, queue));
    forall i | 0 <= i < |order| ensures Pending(f, queue)[i] == Pending(f', queue)[i] {
      assert order[i] in Sequences(f, queue);
      assert Entry(queue, order[i]) in f.jobs;
    }
  }

  /**
   * A job goes to the back of its queue and the others keep their place, exactly when the sequence number it
   * gets is free. It always is below the largest sequence number; at it, enqueuing overwrites the last job.
   */
  lemma EnqueueAppendsIff(f: Queues, job: Job, now: u64)
    requires Valid(f)
    ensures var next := Next(LastOf(f, job.queue));
            Pending(Enqueue(f, job, now).0, job.queue) == Pending(f, job.queue) + [StoredJob(job, now, next, 0)] <==>
            Entry(job.queue, next) !in f.jobs
    ensures LastOf(f, job.queue) < U64_MAX ==> Entry(job.queue, Next(LastOf(f, job.queue))) !in f.jobs
  {
    var (f', stored) := Enqueue(f, job, now);
    var before, after := Sequences(f, job.queue), Sequences(f', job.queue);
    EnqueuedSequences(f, job, now);
    if Entry(job.queue, stored.sequence) !in f.jobs {
      AscendingAppend(before, stored.sequence);
      forall i | 0 <= i < |Ascending(before)| ensures Pending(f', job.queue)[i] == Pending(f, job.queue)[i] {
        assert Ascending(after)[i] == Ascending(before)[i];
        assert Ascending(before)[i] in before;
      }
      assert Ascending(after)[|Ascending(before)|] == stored.sequence;
      assert Pending(f', job.queue) == Pending(f, job.queue) + [stored];
    } else {
      assert stored.sequence in before;
      assert after == before;
    }
  }

  lemma EnqueuedSequences(f: Queues, job: Job, now: u64)
    requires Valid(f)
    ensures var (f', stored) := Enqueue(f, job, now);
            && Sequences(f', job.queue) == Sequences(f, job.queue) + {stored.sequence}
            && (Entry(job.queue, stored.sequence) !in f.jobs ==> forall y ::
              y in Sequences(f, job.queue) ==> y < stored.sequence)
  {
    var (f', stored) := Enqueue(f, job, now);
    forall x: nat ensures x in Sequences(f', job.queue) <==> x in Sequences(f, job.queue) + {stored.sequence} {
      if x in Sequences(f, job.queue) {
        assert Entry(job.queue, x) in f'.jobs;
      }
      assert Entry(job.queue, stored.sequence) in f'.jobs;
      if x in Sequences(f', job.queue) {
        assert Entry(job.queue, x) in f'.jobs;
      }
    }
    forall y | y in Sequences(f, job.queue) && Entry(job.queue, stored.sequence) !in f.jobs
      ensures y < stored.sequence
    {
      assert Entry(job.queue, y) in f.jobs;
    }
  }

  lemma UpdateKeepsValid(f: Queues, queue: string, id: string, action: Action)
    requires Valid(f)
    ensures Valid(Update(f, queue, id, action).0)
  {
    if Pending(f, queue) != [] {
      FrontIsFirst(f, queue);
    }
  }

  /** Acknowledging takes the oldest job off its queue, if it is the one named; nothing else can be acknowledged. */
  lemma AckTakesTheFront(f: Queues, queue: string, id: string)
    requires Valid(f)
    ensures var (f', taken) := Update(f, queue, id, Ack);
            && taken == (Pending(f, queue) != [] && Pending(f, queue)[0].job.id == id)
            && Pending(f', queue) == if taken then Pending(f, queue)[1..] else Pending(f, queue)
  {
    if Pending(f, queue) != [] {
      FrontIsFirst(f, queue);
      WithoutFront(f, queue, Pending(f, queue)[0].sequence);
    }
  }

  lemma WithoutFront(f: Queues, queue: string, least: u64)
    requires Pending(f, queue) != [] && least == Ascending(Sequences(f, queue))[0]
    ensures Pending(f.(jobs := f.jobs - {Entry(queue, least)}), queue) == Pending(f, queue)[1..]
  {
    var f' := f.(jobs := f.jobs - {Entry(queue, least)});
    RemovedSequences(f, queue, least);
    AscendingTail(Sequences(f, queue));
    SequencesAllIn(f, queue);
    SequencesAllIn(f', queue);
    JobsAtTail(f.jobs, f'.jobs, queue, Ascending(Sequences(f, queue)), Ascending(Sequences(f', queue)));
  }

  lemma JobsAtTail(jobs: map<Entry, StoredJob>, jobs': map<Entry, StoredJob>, queue: string, order: seq<nat>,
      rest: seq<nat>)
    requires order != [] && rest == order[1..] && AllIn(jobs, queue, order) && AllIn(jobs', queue, rest)
    requires forall e :: e in jobs' ==> e in jobs && jobs'[e] == jobs[e]
    ensures JobsAt(jobs', queue, rest) == JobsAt(jobs, queue, order)[1..]
  {
    forall i | 0 <= i < |rest| ensures JobsAt(jobs', queue, rest)[i] == JobsAt(jobs, queue, order)[i + 1] {
      assert rest[i] == order[i + 1];
    }
  }

  lemma RemovedSequences(f: Queues, queue: string, sequence: u64)
    ensures Sequences(f.(jobs := f.jobs - {Entry(queue, sequence)}), queue) == Sequences(f, queue) - {sequence as nat}
  {
    var f' := f.(jobs := f.jobs - {Entry(queue, sequence)});
    forall x: nat ensures x in Sequences(f', queue) <==> x in Sequences(f, queue) - {sequence as nat} {
      if x in Sequences(f, queue) && x != sequence {
        assert Entry(queue, x) in f'.jobs;
      }
    }
  }

  /** Rejecting counts an attempt on the oldest job, up to the largest count, and leaves it where it is. */
  lemma RejectKeepsTheFront(f: Queues, queue: string, id: string)
    requires Valid(f)
    ensures var (f', kept) := Update(f, queue, id, Reject);
            && kept == (Pending(f, queue) != [] && Pending(f, queue)[0].job.id == id)
            && (!kept ==> f' == f)
            && (kept ==> var front := Pending(f, queue)[0];
                 Pending(f', queue) == Pending(f, queue)[0 := front.(attempts := Min(front.attempts + 1, U32_MAX))])
  {
    var (f', kept) := Update(f, queue, id, Reject);
    if kept {
      FrontIsFirst(f, queue);
      var order := Ascending(Sequences(f, queue));
      assert f'.jobs.Keys == f.jobs.Keys;
      assert Sequences(f', queue) == Sequences(f, queue);
      forall i | 0 < i < |order| ensures Pending(f', queue)[i] == Pending(f, queue)[i] {
        assert order[i] in Sequences(f, queue) && order[0] < order[i];
      }
    }
  }

  // ---- Whole runs ----

  datatype Op = EnqueueOp(job: Job, now: u64) | UpdateOp(queue: string, id: string, action: Action)

  function Step(f: Queues, op: Op): Queues {
    match op
    case EnqueueOp(job, now) => Enqueue(f, job, now).0
    case UpdateOp(queue, id, action) => Update(f, queue, id, action).0
  }

  /** The jobs an operation puts into a queue, and those it takes off it. */
  function Sent(f: Queues, op: Op, queue: string): seq<StoredJob> {
    if op.EnqueueOp? && op.job.queue == queue then [Enqueue(f, op.job, op.now).1] else []
  }

  function Taken(f: Queues, op: Op, queue: string): seq<StoredJob> {
    if op.UpdateOp? && op.queue == queue && op.action.Ack? && Update(f, queue, op.id, Ack).1 then [Pending(f, queue)[0]]
      else []
  }

  /** Jobs without their attempt counts. */
  function Plain(jobs: seq<StoredJob>): (r: seq<StoredJob>)
    ensures |r| == |jobs|
  {
    seq(|jobs|, i requires 0 <= i < |jobs| => jobs[i].(attempts := 0))
  }

  ghost predicate Room(f: Queues, op: Op) {
    op.EnqueueOp? ==> LastOf(f, op.job.queue) < U64_MAX
  }

  /** One operation neither loses, duplicates nor reorders a job of any queue. */
  lemma StepConserves(f: Queues, op: Op, queue: string)
    requires Valid(f) && Room(f, op)
    ensures Valid(Step(f, op))
    ensures Plain(Pending(f, queue)) + Plain(Sent(f, op, queue)) ==
        Plain(Taken(f, op, queue)) + Plain(Pending(Step(f, op), queue))
  {
    match op
    case EnqueueOp(job, now) =>
      EnqueueKeepsValid(f, job, now);
      EnqueueConserves(f, job, now, queue);
      PlainConcat(Pending(f, queue), Sent(f, op, queue));
      NothingTaken(f, op, queue);
    case UpdateOp(q, id, action) =>
      UpdateKeepsValid(f, q, id, action);
      UpdateConserves(f, q, id, action, queue);
      NothingSent(f, op, queue);
  }

  lemma NothingTaken(f: Queues, op: Op, queue: string)
    requires op.EnqueueOp?
    ensures forall rest :: Plain(Taken(f, op, queue)) + rest == rest
  {
    assert Taken(f, op, queue) == [];
  }

  lemma NothingSent(f: Queues, op: Op, queue: string)
    requires op.UpdateOp?
    ensures forall rest :: rest + Plain(Sent(f, op, queue)) == rest
  {
    assert Sent(f, op, queue) == [];
  }

  lemma EnqueueConserves(f: Queues, job: Job, now: u64, queue: string)
    requires Valid(f) && LastOf(f, job.queue) < U64_MAX
    ensures Pending(Enqueue(f, job, now).0, queue) == Pending(f, queue) + Sent(f, EnqueueOp(job, now), queue)
  {
    if job.queue == queue {
      EnqueueAppendsIff(f, job, now);
    } else {
      SamePending(f, Enqueue(f, job, now).0, queue);
    }
  }

  lemma UpdateConserves(f: Queues, q: string, id: string, action: Action, queue: string)
    requires Valid(f)
    ensures Plain(Pending(f, queue)) ==
        Plain(Taken(f, UpdateOp(q, id, action), queue)) + Plain(Pending(Update(f, q, id, action).0, queue))
  {
    if q != queue {
      OtherQueuesKeepTheirJobs(f, q, id, action, queue);
      assert Taken(f, UpdateOp(q, id, action), queue) == [];
    } else if action.Ack? {
      AckConserves(f, queue, id);
    } else {
      RejectConserves(f, queue, id);
    }
  }

  lemma AckConserves(f: Queues, queue: string, id: string)
    requires Valid(f)
    ensures Plain(Pending(f, queue)) ==
        Plain(Taken(f, UpdateOp(queue, id, Ack), queue)) + Plain(Pending(Update(f, queue, id, Ack).0, queue))
  {
    AckTakesTheFront(f, queue, id);
    var before, taken := Pending(f, queue), Taken(f, UpdateOp(queue, id, Ack), queue);
    assert before == taken + Pending(Update(f, queue, id, Ack).0, queue);
    PlainConcat(taken, Pending(Update(f, queue, id, Ack).0, queue));
  }

  lemma RejectConserves(f: Queues, queue: string, id: string)
    requires Valid(f)
    ensures Plain(Pending(f, queue)) ==
        Plain(Taken(f, UpdateOp(queue, id, Reject), queue)) + Plain(Pending(Update(f, queue, id, Reject).0, queue))
  {
    RejectKeepsTheFront(f, queue, id);
    assert Taken(f, UpdateOp(queue, id, Reject), queue) == [];
  }

  lemma OtherQueuesKeepTheirJobs(f: Queues, q: string, id: string, action: Action, queue: string)
    requires Valid(f) && q != queue
    ensures Pending(Update(f, q, id, action).0, queue) == Pending(f, queue)
  {
    if Pending(f, q) != [] {
      FrontIsFirst(f, q);
    }
    SamePending(f, Update(f, q, id, action).0, queue);
  }

  function Run(f: Queues, ops: seq<Op>): Queues
    decreases |ops|
  {
    if ops == [] then f else Run(Step(f, ops[0]), ops[1..])
  }

  function AllSent(f: Queues, ops: seq<Op>, queue: string): seq<StoredJob>
    decreases |ops|
  {
    if ops == [] then [] else Sent(f, ops[0], queue) + AllSent(Step(f, ops[0]), ops[1..], queue)
  }

  function AllTaken(f: Queues, ops: seq<Op>, queue: string): seq<StoredJob>
    decreases |ops|
  {
    if ops == [] then [] else Taken(f, ops[0], queue) + AllTaken(Step(f, ops[0]), ops[1..], queue)
  }

  ghost predicate RoomThroughout(f: Queues, ops: seq<Op>)
    decreases |ops|
  {
    ops == [] || (Room(f, ops[0]) && RoomThroughout(Step(f, ops[0]), ops[1..]))
  }

  lemma PlainConcat(a: seq<StoredJob>, b: seq<StoredJob>)
    ensures Plain(a + b) == Plain(a) + Plain(b)
  {
  }

  /**
   * In every run the jobs acknowledged so far, followed by the ones pending, are the jobs enqueued, in the
   * order they were enqueued: each is acknowledged at most once, after all before it, and none is lost.
   */
  lemma {:induction false} QueueIsFirstInFirstOut(f: Queues, ops: seq<Op>, queue: string)
    requires Valid(f) && RoomThroughout(f, ops)
    ensures Valid(Run(f, ops))
    ensures Plain(Pending(f, queue)) + Plain(AllSent(f, ops, queue)) ==
        Plain(AllTaken(f, ops, queue)) + Plain(Pending(Run(f, ops), queue))
    decreases |ops|
  {
    if ops != [] {
      var f', rest := Step(f, ops[0]), ops[1..];
      StepConserves(f, ops[0], queue);
      QueueIsFirstInFirstOut(f', rest, queue);
      PlainConcat(Sent(f, ops[0], queue), AllSent(f', rest, queue));
      PlainConcat(Taken(f, ops[0], queue), AllTaken(f', rest, queue));
      Reassociate(Plain(Pending(f, queue)), Plain(Sent(f, ops[0], queue)), Plain(AllSent(f', rest, queue)),
                  Plain(Taken(f, ops[0], queue)), Plain(Pending(f', queue)), Plain(AllTaken(f', rest, queue)),
                  Plain(Pending(Run(f', rest), queue)));
    }
  }

  lemma Reassociate<T>(p: seq<T>, s: seq<T>, ss: seq<T>, t: seq<T>, p': seq<T>, tt: seq<T>, end: seq<T>)
    requires p + s == t + p' && p' + ss == tt + end
    ensures p + (s + ss) == (t + tt) + end
  {
    assert p + (s + ss) == (p + s) + ss;
    assert (t + p') + ss == t + (p' + ss);
    assert t + (tt + end) == (t + tt) + end;
  }

  // ---- Attempts ----

  /** The operation is a rejection that names the front of the queue, and the front is the job in question. */
  ghost predicate RejectsJob(f: Queues, op: Op, e: Entry) {
    && op.UpdateOp? && op.action.Reject? && op.queue == e.queue && Pending(f, e.queue) != []
    && Pending(f, e.queue)[0].sequence == e.sequence && Pending(f, e.queue)[0].job.id == op.id
  }

  ghost function Rejections(f: Queues, ops: seq<Op>, e: Entry): nat
    decreases |ops|
  {
    if ops == [] then 0
    else Once(RejectsJob(f, ops[0], e)) + Rejections(Step(f, ops[0]), ops[1..], e)
  }

  function AttemptsOf(f: Queues, e: Entry): nat {
    if e in f.jobs then f.jobs[e].attempts else 0
  }

  function Once(b: bool): nat {
    if b then 1 else 0
  }

  lemma StepCountsAttempts(f: Queues, op: Op, e: Entry)
    requires Valid(f) && Room(f, op)
    ensures e in Step(f, op).jobs ==>
              AttemptsOf(Step(f, op), e) == Min(AttemptsOf(f, e) + Once(RejectsJob(f, op, e)), U32_MAX)
    ensures e in f.jobs ==> e.sequence <= LastOf(Step(f, op), e.queue)
    ensures e !in f.jobs ==> !RejectsJob(f, op, e)
  {
    if op.UpdateOp? && Pending(f, op.queue) != [] {
      FrontIsFirst(f, op.queue);
    }
  }

  lemma StepKeepsValid(f: Queues, op: Op)
    requires Valid(f)
    ensures Valid(Step(f, op))
  {
    match op
    case EnqueueOp(job, now) => EnqueueKeepsValid(f, job, now);
    case UpdateOp(queue, id, action) => UpdateKeepsValid(f, queue, id, action);
  }

  lemma {:induction false} GoneStaysGone(f: Queues, ops: seq<Op>, e: Entry)
    requires Valid(f) && RoomThroughout(f, ops) && e !in f.jobs && e.sequence <= LastOf(f, e.queue)
    ensures e !in Run(f, ops).jobs
    decreases |ops|
  {
    if ops != [] {
      StepKeepsValid(f, ops[0]);
      GoneStaysGone(Step(f, ops[0]), ops[1..], e);
    }
  }

  /**
   * In every run, the attempts of a pending job are those it had, none if it was enqueued meanwhile, and one more for
   * each rejection that named it while it was at the front, up to the largest count.
   */
  lemma {:induction false} AttemptsCountRejections(f: Queues, ops: seq<Op>, e: Entry)
    requires Valid(f) && RoomThroughout(f, ops) && e in Run(f, ops).jobs
    ensures Run(f, ops).jobs[e].attempts == Min(AttemptsOf(f, e) + Rejections(f, ops, e), U32_MAX)
    decreases |ops|
  {
    if ops != [] {
      var f', rest := Step(f, ops[0]), ops[1..];
      StepKeepsValid(f, ops[0]);
      AttemptsCountRejections(f', rest, e);
      StepCountsAttempts(f, ops[0], e);
      if e in f.jobs && e !in f'.jobs {
        GoneStaysGone(f', rest, e);
      }
    }
  }

  /** Sequence numbers count the jobs sent to a queue: each is one more than the last, so none is given out twice. */
  lemma {:induction false} SequencesCountUp(f: Queues, ops: seq<Op>, queue: string)
    requires RoomThroughout(f, ops)
    ensures LastOf(Run(f, ops), queue) == LastOf(f, queue) + |AllSent(f, ops, queue)|
    ensures forall i ::
        0 <= i < |AllSent(f, ops, queue)| ==> AllSent(f, ops, queue)[i].sequence == LastOf(f, queue) + 1 + i
    decreases |ops|
  {
    if ops != [] {
      var f', rest := Step(f, ops[0]), ops[1..];
      SequencesCountUp(f', rest, queue);
      assert LastOf(f', queue) == LastOf(f, queue) + |Sent(f, ops[0], queue)|;
      assert AllSent(f, ops, queue) == Sent(f, ops[0], queue) + AllSent(f', rest, queue);
    }
  }
}
