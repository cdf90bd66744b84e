/** The two backends themselves, driven by the same operations. */
module Backends {
  import opened Domain
  import opened StoreModel
  import opened StoreLaws
  import opened Portability
  import Redb
  import Sqlite

  method RedbStep(store: Redb.RedbStore, op: Op) returns (reply: Reply)
    requires store.Inv()
    modifies store
    ensures store.Inv() && (store.model, reply) == Step(old(store.model), op)
  {
    match op
    case AppendOp(message, now) =>
      var m := store.AppendMessage(message, now);
      reply := Stored(m);
    case PutOp(incoming) =>
      var r := store.PutReplicatedMessage(incoming);
      reply := if r.Ok? then Replicated(r.value) else Failed(r.error);
    case TombstoneOp(topic, origin, from, to, now) =>
      var r := store.TombstoneRange(topic, origin, from, to, now);
      reply := if r.Ok? then Changed(r.value) else Failed(r.error);
    case DeleteOp(range, topic, origin, id, now) =>
      var r := store.TombstoneRangeWithMarker(range, topic, origin, id, now);
      reply := if r.Ok? then Deleted(r.value.0, r.value.1) else Failed(r.error);
    case FetchOp(topic, origin, from, limit) =>
      var page := store.FetchMessages(topic, origin, from, limit);
      reply := Fetched(page);
    case GetHeadOp(topic, origin) =>
      var head, found := store.GetHead(topic, origin);
      reply := HeadIs(head, found);
    case ListHeadsOp =>
      ListHeadsIsTheHeads(store.model);
      var r := store.ListHeads();
      reply := Heads(set e | e in r.value);
  }

  method SqliteStep(store: Sqlite.SqliteStore, op: Op) returns (reply: Reply)
    requires store.Inv()
    modifies store
    ensures store.Inv() && (store.Model(), reply) == Sqlite.SqlStep(old(store.Model()), op)
  {
    match op
    case AppendOp(message, now) =>
      var r := store.AppendMessage(message, now);
      reply := if r.Ok? then Stored(r.value) else Failed(r.error);
    case PutOp(incoming) =>
      var r := store.PutReplicatedMessage(incoming);
      reply := if r.Ok? then Replicated(r.value) else Failed(r.error);
    case TombstoneOp(topic, origin, from, to, now) =>
      var r := store.TombstoneRange(topic, origin, from, to, now);
      reply := if r.Ok? then Changed(r.value) else Failed(r.error);
    case DeleteOp(range, topic, origin, id, now) =>
      var r := store.TombstoneRangeWithMarker(range, topic, origin, id, now);
      reply := if r.Ok? then Deleted(r.value.0, r.value.1) else Failed(r.error);
    case FetchOp(topic, origin, from, limit) =>
      var r := store.FetchMessages(topic, origin, from, limit);
      reply := if r.Ok? then Fetched(r.value) else Failed(r.error);
    case GetHeadOp(topic, origin) =>
      var head, found := store.GetHead(topic, origin);
      reply := HeadIs(head, found);
    case ListHeadsOp =>
      var entries := store.ListHeads();
      reply := Heads(entries);
  }

  method RedbRun(store: Redb.RedbStore, ops: seq<Op>) returns (replies: seq<Reply>)
    requires store.Inv()
    modifies store
    ensures store.Inv() && (store.model, replies) == Run(old(store.model), ops)
    decreases |ops|
  {
    replies := [];
    if ops != [] {
      var reply := RedbStep(store, ops[0]);
      var rest := RedbRun(store, ops[1..]);
      replies := [reply] + rest;
    }
  }

  method SqliteRun(store: Sqlite.SqliteStore, ops: seq<Op>) returns (replies: seq<Reply>)
    requires store.Inv()
    modifies store
    ensures store.Inv() && (store.Model(), replies) == SqlRun(old(store.Model()), ops)
    decreases |ops|
  {
    replies := [];
    if ops != [] {
      var reply := SqliteStep(store, ops[0]);
      var rest := SqliteRun(store, ops[1..]);
      replies := [reply] + rest;
    }
  }

  /** Fresh stores of either kind, driven by the same portable operations, reply alike and hold the same store. */
  method RunBoth(ops: seq<Op>)
    returns (redb: Redb.RedbStore, sqlite: Sqlite.SqliteStore, first: seq<Reply>, second: seq<Reply>)
    requires PortableThroughout(EMPTY, ops)
    ensures first == second && redb.Inv() && sqlite.Inv() && redb.model == sqlite.Model()
  {
    redb := new Redb.RedbStore();
    sqlite := new Sqlite.SqliteStore();
    first := RedbRun(redb, ops);
    second := SqliteRun(sqlite, ops);
    RunsAgree(EMPTY, ops);
  }
}
