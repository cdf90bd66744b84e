/** The FIFO queues of the SQLite backend: rows keyed by queue and sequence, job ids unique across queues. */
module SqliteFifo {
  import opened Domain
  import opened Fifo
  import StoreModel

  predicate IdInUse(jobs: map<Entry, StoredJob>, id: string) {
    exists e :: e in jobs && jobs[e].job.id == id
  }

  /** What keeps the row of a job out of the table: a value that does not fit an SQL integer, or a job id in use. */
  predicate Refuses(f: Queues, job: Job, now: u64) {
    !Fits(f, job, now) || IdInUse(f.jobs, job.id)
  }

  predicate Fits(f: Queues, job: Job, now: u64) {
    Next(LastOf(f, job.queue)) <= I64_MAX && now <= I64_MAX
  }

  ghost predicate Unique(jobs: map<Entry, StoredJob>) {
    forall a, b {:trigger jobs[a], jobs[b]} :: a in jobs && b in jobs && jobs[a].job.id == jobs[b].job.id ==> a == b
  }

  /** The row with the least sequence number of a queue, if the queue has rows. */
  method SelectFront(jobs: map<Entry, StoredJob>, queue: string) returns (front: Front)
    ensures front == Fifo.Peek(Queues(map[], jobs), queue)
  {
    front := NoFront;
    ghost var f := Queues(map[], jobs);
    var todo := jobs.Keys;
    var least := Entry(queue, 0);
    while todo != {}
      invariant todo <= jobs.Keys
      invariant front.NoFront? ==> forall e :: e in jobs.Keys - todo ==> e.queue != queue
      invariant front.AtFront? ==> least in jobs && least.queue == queue && front.job == jobs[least]
      invariant front.AtFront? ==>
                forall e :: e in jobs.Keys - todo && e.queue == queue ==> least.sequence <= e.sequence
      decreases |todo|
    {
      var e :| e in todo;
      if e.queue == queue && (front.NoFront? || e.sequence < least.sequence) {
        least, front := e, AtFront(jobs[e]);
      }
      todo := todo - {e};
    }
    if front.AtFront? {
      LeastIsFront(f, queue, least);
    } else {
      assert Sequences(f, queue) == {};
    }
  }

  lemma LeastIsFront(f: Queues, queue: string, least: Entry)
    requires least in f.jobs && least.queue == queue
    requires forall e :: e in f.jobs && e.queue == queue ==> least.sequence <= e.sequence
    ensures Pending(f, queue) != [] && Pending(f, queue)[0] == f.jobs[least]
  {
    var order := StoreModel.Ascending(Sequences(f, queue));
    assert least.sequence in Sequences(f, queue);
    assert order[0] in Sequences(f, queue);
    var j :| 0 <= j < |order| && order[j] == least.sequence;
  }

  class SqliteQueues {
    var sequences: map<string, u64>
    var jobs: map<Entry, StoredJob>

    ghost function Model(): Queues
      reads this
    {
      Queues(sequences, jobs)
    }

    ghost predicate Inv()
      reads this
    {
      Valid(Model()) && Unique(jobs) && forall queue :: queue in sequences ==> sequences[queue] <= I64_MAX
    }

    constructor ()
      ensures Inv() && Model() == Queues(map[], map[])
    {
      sequences, jobs := map[], map[];
    }

    /**
     * The job goes to the back of its queue, or the transaction fails and nothing changes; nothing is ever overwritten.
     */
    method Enqueue(job: Job, now: u64) returns (r: Outcome<StoredJob>)
      requires Inv()
      modifies this
      ensures Inv() && (r.Err? <==> Refuses(old(Model()), job, now))
      ensures r.Ok? ==>
              (Model(), r.value) == Fifo.Enqueue(old(Model()), job, now) && Room(old(Model()), EnqueueOp(job, now))
      ensures r.Err? ==> Model() == old(Model())
      ensures r.Err? ==> r.error == if Fits(old(Model()), job, now) then Storage else InvalidArgument
    {
      var current := if job.queue in sequences then sequences[job.queue] else 0;
      var sequence := Next(current);
      if sequence > I64_MAX || now > I64_MAX {
        return Err(InvalidArgument);
      }
      if IdInUse(jobs, job.id) {
        return Err(Storage);
      }
      EnqueueKeepsValid(Model(), job, now);
      var stored := StoredJob(job, now, sequence, 0);
      sequences := sequences[job.queue := sequence];
      jobs := jobs[Entry(job.queue, sequence) := stored];
      r := Ok(stored);
    }

    method Peek(queue: string) returns (front: Front)
      ensures front == Fifo.Peek(Model(), queue)
    {
      front := SelectFront(jobs, queue);
      SamePending(Queues(map[], jobs), Model(), queue);
    }

    method UpdateFront(queue: string, id: string, action: Action) returns (accepted: bool)
      requires Inv()
      modifies this
      ensures Inv() && (Model(), accepted) == Update(old(Model()), queue, id, action)
    {
      var front := Peek(queue);
      if front.NoFront? || front.job.job.id != id {
        return false;
      }
      FrontIsFirst(Model(), queue);
      UpdateKeepsValid(Model(), queue, id, action);
      var message := front.job;
      var e := Entry(queue, message.sequence);
      if action.Ack? {
        jobs := jobs - {e};
      } else {
        message := message.(attempts := Bump(message.attempts));
        jobs := jobs[e := message];
      }
      return true;
    }
  }
}
