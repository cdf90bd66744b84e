/** The FIFO queues of the redb backend: two string-keyed tables, read by range scans. */
module RedbFifo {
  import opened Domain
  import opened Encoding
  import opened Fifo
  import opened KeyedTable
  import opened Lexicographic
  import StoreModel
  import opened TableKeys

  function KeyOf(e: Entry): string {
    FifoMessageKey(e.queue, e.sequence)
  }

  lemma KeysAreInjective()
    ensures Injective(KeyOf) && Injective(FifoSequenceKey)
  {
    forall a, b | KeyOf(a) == KeyOf(b) ensures a == b {
      FifoKeyInjective(a.queue, a.sequence, b.queue, b.sequence);
    }
    forall a, b | FifoSequenceKey(a) == FifoSequenceKey(b) ensures a == b {
      FifoSequenceKeyInjective(a, b);
    }
  }

  /** A scan from a queue's prefix starts with the oldest job of the queue; if there is none, with another key. */
  lemma ScanFindsTheFront(table: map<string, StoredJob>, f: Queues, queue: string, scan: seq<string>)
    requires Rep(table, f.jobs, KeyOf) && Injective(KeyOf) && Scans(table.Keys, FifoPrefix(queue), scan)
    ensures Pending(f, queue) == [] <==> scan == [] || !(FifoPrefix(queue) <= scan[0])
    ensures Pending(f, queue) != [] ==>
              && scan[0] == FifoMessageKey(queue, StoreModel.Ascending(Sequences(f, queue))[0])
              && scan[0] in table && table[scan[0]] == Pending(f, queue)[0]
  {
    var entries := PrefixScan(table, f.jobs, KeyOf, FifoPrefix(queue), scan);
    forall e: Entry ensures FifoPrefix(queue) <= KeyOf(e) <==> e.queue == queue {
      FifoPrefixTest(queue, e.queue, Digits(e.sequence));
    }
    if entries == [] {
      assert Sequences(f, queue) == {};
    } else {
      assert entries[0] in f.jobs && FifoPrefix(queue) <= KeyOf(entries[0]);
      FrontOfBlock(f, queue, entries);
      Lookup(table, f.jobs, KeyOf, entries[0]);
    }
  }

  lemma FrontOfBlock(f: Queues, queue: string, entries: seq<Entry>)
    requires entries != [] && InOrder(entries, KeyOf) && entries[0] in f.jobs && entries[0].queue == queue
    requires forall e :: e in f.jobs && e.queue == queue ==> e in entries
    ensures Pending(f, queue) != [] && StoreModel.Ascending(Sequences(f, queue))[0] == entries[0].sequence
    ensures Pending(f, queue)[0] == f.jobs[entries[0]]
  {
    var order := StoreModel.Ascending(Sequences(f, queue));
    assert entries[0].sequence in Sequences(f, queue);
    assert order[0] in Sequences(f, queue);
    var first := Entry(queue, order[0]);
    assert first in f.jobs;
    var i :| 0 <= i < |entries| && entries[i] == first;
    if i > 0 {
      assert OrderedAt(entries, KeyOf, 0, i);
      FifoKeyOrder(queue, entries[0].sequence, order[0]);
    }
    var j :| 0 <= j < |order| && order[j] == entries[0].sequence;
  }

  class RedbQueues {
    var sequences: map<string, u64>
    var jobs: map<string, StoredJob>
    ghost var model: Queues

    ghost predicate Inv()
      reads this
    {
      Rep(sequences, model.last, FifoSequenceKey) && Rep(jobs, model.jobs, KeyOf) && Fifo.Valid(model)
    }

    constructor ()
      ensures Inv() && model == Queues(map[], map[])
    {
      sequences, jobs, model := map[], map[], Queues(map[], map[]);
    }

    method Enqueue(job: Job, now: u64) returns (stored: StoredJob)
      requires Inv()
      modifies this
      ensures Inv() && (model, stored) == Fifo.Enqueue(old(model), job, now)
    {
      KeysAreInjective();
      var sequenceKey := FifoSequenceKey(job.queue);
      Lookup(sequences, model.last, FifoSequenceKey, job.queue);
      var current := if sequenceKey in sequences then sequences[sequenceKey] else 0;
      var sequence := Next(current);
      Insert(sequences, model.last, FifoSequenceKey, job.queue, sequence);
      sequences := sequences[sequenceKey := sequence];
      stored := StoredJob(job, now, sequence, 0);
      Insert(jobs, model.jobs, KeyOf, Entry(job.queue, sequence), stored);
      EnqueueKeepsValid(model, job, now);
      jobs := jobs[FifoMessageKey(job.queue, sequence) := stored];
      model := Fifo.Enqueue(model, job, now).0;
    }

    method Peek(queue: string) returns (front: Front)
      requires Inv()
      ensures front == Fifo.Peek(model, queue)
    {
      KeysAreInjective();
      var scan := Range(jobs.Keys, FifoPrefix(queue));
      ScanFindsTheFront(jobs, model, queue, scan);
      if scan != [] && FifoPrefix(queue) <= scan[0] {
        return AtFront(jobs[scan[0]]);
      }
      return NoFront;
    }

    method UpdateFront(queue: string, id: string, action: Action) returns (accepted: bool)
      requires Inv()
      modifies this
      ensures Inv() && (model, accepted) == Update(old(model), queue, id, action)
    {
      KeysAreInjective();
      var scan := Range(jobs.Keys, FifoPrefix(queue));
      ScanFindsTheFront(jobs, model, queue, scan);
      accepted := false;
      if scan != [] && FifoPrefix(queue) <= scan[0] {
        var key, message := scan[0], jobs[scan[0]];
        if message.job.id == id {
          FrontIsFirst(model, queue);
          UpdateKeepsValid(model, queue, id, action);
          ghost var e := Entry(queue, message.sequence);
          if action.Ack? {
            Remove(jobs, model.jobs, KeyOf, e);
            jobs := jobs - {key};
          } else {
            message := message.(attempts := Bump(message.attempts));
            Insert(jobs, model.jobs, KeyOf, e, message);
            jobs := jobs[key := message];
          }
          accepted := true;
        }
      }
      model := Update(model, queue, id, action).0;
    }
  }
}
