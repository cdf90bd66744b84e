/** Where SQLite's columns allow, its operations are those of the storage contract, and exactly there. */
module Portability {
  import opened Domain
  import opened StoreModel
  import opened StoreLaws
  import Sqlite

  /** SQLite does what the contract says, or fails and leaves the store as it was. */
  lemma DoesOrFails(s: Store, op: Op)
    ensures Sqlite.SqlStep(s, op) == Step(s, op) || (Sqlite.SqlStep(s, op).0 == s && Sqlite.SqlStep(s, op).1.Failed?)
  {
  }

  /** Whether an append is within what SQLite stores. */
  ghost predicate AppendFits(s: Store, message: NewMessage, now: u64) {
    && Next(CurrentHead(s, LogKey(message.topic, message.origin.Key()))) <= I64_MAX
    && now <= I64_MAX && !Sqlite.IdInUse(s, message.id)
  }

  ghost predicate PutFits(s: Store, m: StoredMessage) {
    m.headId <= I64_MAX && m.createdAtMs <= I64_MAX && !Sqlite.IdInUse(s, m.id)
  }

  /**
   * What a caller has to respect: fresh ids, and head ids, range ends and clock readings that fit a
   * signed 64-bit column. Requests both backends refuse are unrestricted.
   */
  ghost predicate Portable(s: Store, op: Op) {
    match op
    case AppendOp(message, now) => AppendFits(s, message, now)
    case PutOp(m) =>
      m.Position() in s.messages || m.headId == 0 || m.headId > Next(CurrentHead(s, m.Log())) || PutFits(s, m)
    case TombstoneOp(_, _, from, to, now) => from > to || (to <= I64_MAX && now <= I64_MAX)
    case DeleteOp(range, topic, origin, id, now) =>
      range.from > range.to
      || (range.to <= I64_MAX && range.createdAtMs <= I64_MAX &&
        AppendFits(Erase(s, {range.Extent()}), MarkerFor(id, range, topic, origin), now))
    case FetchOp(_, _, from, _) => from <= I64_MAX
    case GetHeadOp(_, _) => true
    case ListHeadsOp => true
  }

  ghost predicate HeadsFit(s: Store) {
    forall log :: log in s.heads ==> s.heads[log] <= I64_MAX
  }

  /** On a store SQLite can hold, the two backends agree on an operation exactly when it is portable. */
  lemma AgreeIffPortable(s: Store, op: Op)
    requires Valid(s) && HeadsFit(s)
    ensures Sqlite.SqlStep(s, op) == Step(s, op) <==> Portable(s, op)
  {
    match op
    case PutOp(m) =>
      if m.Position() in s.messages {
        assert m.headId <= I64_MAX;
      }
    case _ =>
  }

  /** The largest value of a signed 64-bit column. */
  const COLUMN_MAX: nat := 9_223_372_036_854_775_807

  ghost predicate IdTaken(s: Store, id: string) {
    exists slot :: slot in s.messages && s.messages[slot].id == id
  }

  /**
   * What SQLite answers where it refuses an operation: a head, a range end or a clock reading that does not fit is an
   * invalid argument, as is what every backend refuses as one, and an id in use is a storage error, if all fits.
   */
  lemma RefusedFor(s: Store, op: Op)
    requires Valid(s) && HeadsFit(s)
    ensures op.AppendOp? ==>
              var head, r := CurrentHead(s, LogKey(op.message.topic, op.message.origin.Key())), Sqlite.SqlStep(s, op).1;
              var fits := head + 1 <= COLUMN_MAX && op.now <= COLUMN_MAX;
              && (r == Failed(InvalidArgument) <==> !fits)
              && (r == Failed(Storage) <==> fits && IdTaken(s, op.message.id))
              && (r.Stored? <==> fits && !IdTaken(s, op.message.id))
    ensures op.PutOp? && op.incoming.Position() !in s.messages && 0 < op.incoming.headId ==>
              var head, r := CurrentHead(s, op.incoming.Log()), Sqlite.SqlStep(s, op).1;
              var fits := op.incoming.headId <= COLUMN_MAX && op.incoming.createdAtMs <= COLUMN_MAX;
              var next := op.incoming.headId == head + 1;
              && (r == Failed(InvalidArgument) <==> !next || !fits)
              && (r == Failed(Storage) <==> next && fits && IdTaken(s, op.incoming.id))
    ensures op.TombstoneOp? ==>
              (Sqlite.SqlStep(s, op).1 == Failed(InvalidArgument) <==>
               op.from > op.to || op.to > COLUMN_MAX || op.now > COLUMN_MAX)
    ensures op.DeleteOp? ==>
              var head, r := CurrentHead(s, LogKey(op.markerTopic, op.markerOrigin.Key())), Sqlite.SqlStep(s, op).1;
              var fits := op.range.to <= COLUMN_MAX && op.range.createdAtMs <= COLUMN_MAX && head + 1 <= COLUMN_MAX
                  && op.now <= COLUMN_MAX;
              && (r == Failed(InvalidArgument) <==> op.range.from > op.range.to || !fits)
              && (r == Failed(Storage) <==> op.range.from <= op.range.to && fits && IdTaken(s, op.id))
    ensures op.FetchOp? ==> (Sqlite.SqlStep(s, op).1 == Failed(InvalidArgument) <==> op.from > COLUMN_MAX)
  {
    if op.PutOp? && op.incoming.Position() !in s.messages && 0 < op.incoming.headId {
      assert op.incoming.headId > CurrentHead(s, op.incoming.Log());
    } else if op.DeleteOp? {
      SameIds(s, {op.range.Extent()}, op.id);
    }
  }

  lemma SameIds(s: Store, spans: set<Span>, id: string)
    ensures Sqlite.IdInUse(Erase(s, spans), id) <==> IdTaken(s, id)
  {
    if slot :| slot in s.messages && s.messages[slot].id == id {
      assert Erase(s, spans).messages[slot].id == id;
    }
  }

  lemma StepKeepsFit(s: Store, op: Op)
    requires Valid(s) && HeadsFit(s)
    ensures HeadsFit(Sqlite.SqlStep(s, op).0)
  {
  }

  ghost predicate PortableThroughout(s: Store, ops: seq<Op>)
    decreases |ops|
  {
    ops == [] || (Portable(s, ops[0]) && PortableThroughout(Step(s, ops[0]).0, ops[1..]))
  }

  function SqlRun(s: Store, ops: seq<Op>): (Store, seq<Reply>)
    decreases |ops|
  {
    if ops == [] then
      (s, [])
    else
      var (s1, reply) := Sqlite.SqlStep(s, ops[0]);
      var (s2, replies) := SqlRun(s1, ops[1..]);
      (s2, [reply] + replies)
  }

  /** Over every portable operation sequence the two runs give the same replies and the same store. */
  lemma {:induction false} RunsAgree(s: Store, ops: seq<Op>)
    requires Valid(s) && HeadsFit(s) && PortableThroughout(s, ops)
    ensures SqlRun(s, ops) == Run(s, ops)
    decreases |ops|
  {
    if ops != [] {
      AgreeIffPortable(s, ops[0]);
      StepKeepsValid(s, ops[0]);
      StepKeepsFit(s, ops[0]);
      RunsAgree(Step(s, ops[0]).0, ops[1..]);
    }
  }
}
