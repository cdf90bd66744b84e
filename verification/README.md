# Verified model of msgbus

msgbus is a message bus whose daemons keep append-only logs, one per topic and origin node, pull
each other's logs, delete ranges through replicated delete markers, feed subscribers, and run FIFO
queues. This project models that behaviour in Dafny and proves what the system is for: logs agree
everywhere, deletes are exact, replicas converge, subscribers see ordered gap-free streams, and the
two storage backends are the same store wherever SQLite's columns allow.

Check everything with `dafny verify dfyconfig.toml`.

## How it is organised

- `Domain`, `NodeKey`: the entities, machine-integer bounds and saturation; node keys and peer specifications.
- `Store`, `StoreLaws`, `StoreOutcomes`: the storage contract as a function from store to store, its laws over every
  run, and what each operation answers and leaves, told from the contents of the store alone.
- `Server`, `ServerLaws`: the write requests of one daemon, and reading them back.
- `Cluster`, `ClusterInvariant`, `Applied`, `ClusterSafety`, `Convergence`, `Progress`: a cluster as a state machine. A
  node publishes, deletes, pulls a peer's logs one message at a time (storing a message and acting on it are two steps,
  batches may be stale), crashes at any point and restarts through a replay. Each step does what the storage contract
  says or fails and writes nothing; a run (`IsRun`) may fail anywhere, a trace (`IsTrace`) nowhere.
- `Mixed`, `Fitting`, `MixedLimits`, `WideDelete`: the same cluster with each node on redb or on SQLite. All its runs are
  runs; where everything fits SQLite's columns they are traces; and what happens otherwise, exactly.
- `Replication`, `Replay`: the imperative pull loops, against arbitrary peers, and the startup replay. `Daemons`: the
  cluster's own daemons meet the hypotheses of both.
- `Lexicographic`, `Encoding`, `TableKeys`, `KeyedTable`, `RedbStore`: the redb tables as maps from strings,
  with URL-safe unpadded base64 keys (section 5 of RFC 4648) over UTF-8 and 20-digit head ids, read by range scans.
- `SqliteStore`, `Portability`, `Backends`: the SQL tables, and the equivalence of the two backends.
- `Subscription`, `Resume`: the server's replay-then-live stream and the Rust SDK's reconnecting subscription.
- `Fifo`, `RedbFifo`, `SqliteFifo`: FIFO queues. `PeerSync`: synchronisation bookkeeping.

## What is assumed

- A storage transaction is atomic, and in the cluster it may fail at any time; the JSON codec is lossless.
- Message ids, clock readings, network answers and connection attempts are inputs. They are arbitrary unless a
  hypothesis says otherwise; the cluster's own peers are honest because they run this code (`DaemonsAreHonest`).
- In the cluster, node keys are distinct, and nodes write only to logs below the largest head id.
- Safety, the spreading of heads and the honesty of daemons are proved of every run, hence of every mix of redb and SQLite
  nodes without further assumptions (`MixedRunIsRun`). That markers take effect, and that stores become equal, is proved
  of traces, and of all mixed runs in which the clocks read at most `i64::MAX` with the exact condition
  (`MarkerIsRecordedIff`, `MixedStoresConvergeIff`).
- Each node has one synchronisation task. Its interleaving with everything else is arbitrary.

## Where the code does not do what one might expect

- A SQLite node that pulls a delete marker whose range ends beyond `i64::MAX` stores the marker, fails to act on it,
  and never reads it again; once down it does not come back up. `WideDeleteIsNotApplied` is such a run, a redb node
  deleting up to `u64::MAX`; `MarkerAppliesIff`, `StoredMarkerIsAppliedIff` and `ServesAgainIff` are the conditions. In
  every run, before and after such a marker, a settled node has recorded exactly the ranges its backend can
  (`MarkerIsRecordedIff`), so a cluster with a SQLite node converges exactly when no such range is deleted
  (`MixedStoresConvergeIff`).
- Head ids and sequence numbers saturate. At `u64::MAX` an append overwrites the last message
  (`AppendExtendsIffRoom`), an enqueue overwrites the last job (`EnqueueAppendsIff`), the startup replay reads the
  last page for ever unless a message stops it (`ReplayEndsIff`; in the cluster such a node does not restart), and a reconnecting subscription returns the last
  message again (`IncreasesIff`, `GaplessChain`), although the SDK documents that it resumes after it.
- Validation lets slashes into node parts. Among all triples of strings a node has its key to itself exactly when it has
  none (`KeyIsOwnIff`); among the nodes that validation admits, exactly when its parts cannot be divided differently
  into parts that are not blank (`KeyIsOwnAmongValidIff`).
- A subscription can skip heads: what it delivers has no gap exactly when no broadcast it hears skips a head beyond
  its page (`DeliveryHasNoGapIff`); a broadcast that comes after a higher one is lost (`DeliversRecordsOnly`), and so
  are heads at the seam when more was broadcast than the replay limit covers (`SeamClosesIff`).
- Storing a message and deleting a range commute on the store in every case, but the reported result differs exactly
  when the range covers a slot that holds the same message with the other deleted flag (`PutAndDeleteCommute`).
- SQLite refuses ids in use and values beyond a signed 64-bit column, which redb accepts (`AgreeIffPortable`).

## Model

| member | source | states |
|---|---|---|
| `Convergence.UpToDateStoresConverge` | crates/msgbus-server/src/sync.rs:141-344 | in every run from empty stores, whatever fails, once as many write-free rounds have passed as the peer graph is wide, any two nodes that are up and have acted on the markers they hold have stores equal in heads, messages, deleted flags and tombstones |
| `Convergence.StoresConverge` | crates/msgbus-server/src/sync.rs:141-344 | where nothing fails, any two nodes that are not down or between storing a marker and acting on it, whether or not they are syncing |
| `Convergence.RoundsSpreadHeads` | crates/msgbus-server/src/sync.rs:141-240 | after k rounds a node holds every head that any node within k peer links held at the start, whatever is written, restarted, aborted or fails meanwhile |
| `Convergence.CompletedSyncCatchesUp` | crates/msgbus-server/src/sync.rs:187-240 | a sync that starts, goes on and finishes within a stretch of any run leaves the node with every head its peer held when the stretch began |
| `Convergence.RoundsLevelHeads` | crates/msgbus-server/src/sync.rs:242-344 | after the rounds every node is exactly level with the origin of each log |
| `Convergence.SettledStoresAreEqual` | crates/msgbus-server/src/lib.rs:544-571 | in any cluster state satisfying the invariant, equal heads everywhere and no unapplied marker on two nodes force their stores to be equal, deletes included |
| `Convergence.TraceGoesAhead` | crates/msgbus-store-redb/src/lib.rs:388-423 | no node's head for any log ever goes back between two points of any run |
| `Progress.ConvergenceIsAttainable` | crates/msgbus-server/src/sync.rs:141-185 | from every state of every run of a connected cluster, with nodes down, syncs under way and markers left behind by failures, there is a write-free continuation that makes all stores equal; only nodes that are down or have left a marker unapplied need a restart |
| `Progress.NodeCanRest` | crates/msgbus-server/src/sync.rs:187-240 | any node can be brought to rest, all its markers applied, without touching the others, and without a crash unless a marker was left unapplied |
| `Progress.WritesAreSteps` | crates/msgbus-server/src/lib.rs:99-122 | a node that is up takes writes at any point of its sync |
| `Progress.CrashesAreSteps` | crates/msgbus-server/src/lib.rs:395-425 | a node can go down at any point, and act on any part of what it holds before it comes back |
| `Progress.TaskCanFinish` | crates/msgbus-server/src/sync.rs:187-240 | a running sync of a serving peer can always be run to its finish, from any point inside it |
| `Progress.SyncCanComplete` | crates/msgbus-server/src/sync.rs:187-240 | any idle node can complete a sync of any other node |
| `Progress.RoundCanHappen` | crates/msgbus-server/src/sync.rs:141-185 | a whole round over all peer links can be completed from any state at rest |
| `ClusterSafety.PrefixAgreement` | crates/msgbus-server/src/sync.rs:242-344 | in every state that any run reaches, whatever failed, each node's copy of a log is, up to deleted flags, a prefix of the origin's own log |
| `ClusterSafety.NodesAgree` | crates/msgbus-server/src/sync.rs:283-309 | any two nodes hold the same message wherever both hold one |
| `ClusterSafety.SyncNeverFails` | crates/msgbus-store-redb/src/lib.rs:115-181 | in every reachable state the message a sync stores is accepted, never a conflict or a gap, the marker it applies never fails, and it never fetches a log of its own node |
| `ClusterSafety.DeletedOnlyByOrigin` | crates/msgbus-server/src/lib.rs:271-289 | a message is deleted at any node only if the origin's own delete log holds a marker that covers it |
| `ClusterSafety.HeldMarkersTakeEffect` | crates/msgbus-store-redb/src/lib.rs:589-607 | where nothing fails, a serving node has deleted everything its markers cover, also copies that arrived later and undeleted |
| `Daemons.DaemonsAreHonest` | crates/msgbus-server/src/lib.rs:124-147 | a daemon of the cluster is an honest peer for every log it has listed: whenever in any run it answers, and however its store has grown, its answers meet the hypotheses of the pull loop |
| `Daemons.FetchesAreHonest` | crates/msgbus-server/src/lib.rs:124-147 | one answer, in one reachable state |
| `Daemons.StoresReplay` | crates/msgbus-server/src/main.rs:126 | every store of a reachable state, crashed ones included, meets the hypotheses of the startup replay |
| `Daemons.RestartsIffReplayEnds` | crates/msgbus-server/src/lib.rs:395-425 | the condition under which a restart is a step of the cluster is exactly that the replay of each of the node's delete logs ends |
| `Mixed.MixedRunIsRun` | crates/msgbus-server/src/main.rs:102-111 | every run of every mix of redb and SQLite nodes, whatever ids, heads, ranges and clocks, is a run of the cluster in which some steps fail, and all its states are reachable |
| `Mixed.MixedStepAttempts` | crates/msgbus-server/src/main.rs:102-111 | a step on either backend does what the storage contract says or fails and writes nothing |
| `Mixed.MixedRunsAreSafe` | crates/msgbus-server/src/sync.rs:242-344 | at every point of every such run what a node holds its origin holds too, with at least as long a log, and it is deleted only if a marker in the origin's own delete log covers it |
| `Fitting.FittingRunIsTrace` | crates/msgbus-server/src/main.rs:102-111 | with fresh ids and heads, range ends and clocks within `i64` nothing fails, so all results about traces hold |
| `Fitting.SameStep` | crates/msgbus-server/src/main.rs:102-111 | every store operation of every step of such a run is portable, so the step does the same on either backend |
| `Fitting.MixedStoresConverge` | crates/msgbus-server/src/sync.rs:141-344 | such runs converge, as above |
| `Fitting.MixedSyncNeverFails` | crates/msgbus-server/src/sync.rs:242-344 | in such runs every fetch, store and apply goes on with the sync, on either backend |
| `MixedLimits.MarkerIsRecordedIff` | crates/msgbus-server/src/lib.rs:544-571 | at every point of every run of every mix whose clocks fit, a settled node has recorded the range of a marker it holds if and only if it is on redb or the range ends at most at `i64::MAX` |
| `MixedLimits.MixedMarkersTakeEffect` | crates/msgbus-server/src/lib.rs:544-571 | and then it has deleted everything it holds that the marker covers |
| `MixedLimits.MixedStoresConvergeIff` | crates/msgbus-server/src/sync.rs:141-344 | in every such run, after the rounds and with all nodes settled, all stores are equal if and only if no node is on SQLite or no node has deleted a range that ends beyond `i64::MAX` |
| `MixedLimits.RedbStoresConverge` | crates/msgbus-server/src/sync.rs:141-344 | two redb nodes end up equal in any case |
| `MixedLimits.StepKeepsRecords` | crates/msgbus-store-sqlite/src/lib.rs:505-547 | every step keeps that a SQLite node records no range beyond `i64::MAX` and leaves no other unapplied |
| `MixedLimits.MarkerAppliesIff` | crates/msgbus-store-sqlite/src/lib.rs:505-547 | a SQLite node can act on a marker exactly when its range end and the clock fit; otherwise nothing changes |
| `MixedLimits.StoredMarkerIsAppliedIff` | crates/msgbus-server/src/sync.rs:283-309 | at any point of any run, a SQLite node that has stored a marker records its range exactly when it fits; otherwise the sync ends and the next one starts past the marker |
| `MixedLimits.ServesAgainIff` | crates/msgbus-server/src/main.rs:126 | at any point of any run, a SQLite node whose replay ends comes back up exactly when all its markers' ranges and the clock fit; otherwise nothing changes |
| `WideDelete.WideDeleteIsNotApplied` | crates/msgbus-server/src/lib.rs:271-289 | a run in which a redb node deletes up to `u64::MAX` and a SQLite node is left with a marker it holds, will not read again and has not applied |
| `ClusterInvariant.StepKeepsInv` | crates/msgbus-server/src/sync.rs:242-344 | every step of every node keeps the cluster invariant: genuine prefixes, declared tombstones, own markers applied, batches that continue their log |
| `ClusterInvariant.FailKeepsInv` | crates/msgbus-server/src/sync.rs:187-240 | and so does every step that fails |
| `ClusterInvariant.RunKeepsInv` | crates/msgbus-server/src/sync.rs:141-344 | the invariant holds in every state of every run |
| `Applied.StepLeavesOverdue` | crates/msgbus-server/src/lib.rs:544-571 | no step that succeeds leaves a marker of a node that is up unapplied, unless it was so before |
| `Applied.FailLeavesOverdue` | crates/msgbus-server/src/sync.rs:283-309 | one that fails leaves at most the marker behind that it was to act on |
| `Applied.RestartLeavesNothingOverdue` | crates/msgbus-server/src/lib.rs:395-425 | a restart applies every held marker, also those that failures left behind |
| `Applied.TraceKeepsApplied` | crates/msgbus-server/src/lib.rs:544-571 | where nothing fails, no marker of a node that is up is ever left unapplied |
| `ClusterInvariant.PublishKeepsInv` | crates/msgbus-server/src/lib.rs:99-122 | a publish, accepted or refused, keeps it |
| `ClusterInvariant.DeleteKeepsInv` | crates/msgbus-server/src/lib.rs:271-289 | a range delete with its marker keeps it |
| `ClusterInvariant.PutKeepsInv` | crates/msgbus-server/src/sync.rs:277-309 | storing a fetched message keeps it |
| `ClusterInvariant.ApplyKeepsInv` | crates/msgbus-server/src/lib.rs:544-571 | acting on a stored message succeeds and keeps it |
| `ClusterInvariant.RestartKeepsInv` | crates/msgbus-server/src/lib.rs:395-425 | a restart after a crash anywhere keeps it |
| `ClusterInvariant.FetchBatch` | crates/msgbus-server/src/lib.rs:124-147 | a batch is never empty below the advertised head, continues the local log without a gap, and only of other origins |
| `Replication.SyncHead` | crates/msgbus-server/src/sync.rs:242-344 | ends for every peer, right or wrong; the store stays valid and only grows; it fails exactly if an answer does not come through whole or holds an item that cannot be taken, and otherwise ends exactly when the log reaches the advertised head or an answer brings nothing new; an honest peer is caught up with in exactly as many fetches as there are batches of the limit, at least 1 and at most 10000 |
| `Replication.TakeOutcome` | crates/msgbus-server/src/sync.rs:277-314 | an item is taken exactly if it is blank, or a message of the log that the store accepts and that names a proper range if it is a marker; a stored marker's range is deleted, also if it was there before |
| `Replication.SyncPeer` | crates/msgbus-server/src/sync.rs:187-240 | ends for every listing; it succeeds exactly if there is a session, every entry listed is a head, and the pull of each listed log, in turn, ends well, and stops at the first that does not; every honest log before that reaches its listed head |
| `Replication.SyncOnce` | crates/msgbus-server/src/sync.rs:141-185 | every peer gets its turn whatever the others answer, each from the store the one before left, and the first turn that failed is reported |
| `Replication.ReceiveAll` | crates/msgbus-server/src/sync.rs:277-314 | for every stream, right or wrong, exactly its items up to the first that fails are stored and acted on; blank responses are skipped and not counted |
| `Replication.HonestStreamIsTaken` | crates/msgbus-server/src/sync.rs:277-314 | consecutive messages of the log, blanks between them or not, are all taken and raise the head by their number |
| `Replay.ReplayControlMessages` | crates/msgbus-server/src/lib.rs:395-425 | acts on the messages of each delete log once and in order, one log after the other; erases nothing but ranges of stored markers; if it gets through, every marker still standing has taken effect; it fails exactly at a message that cannot be acted on, the last it acts on, and is left unfinished only by a log without end or with more pages than passes; on honest stores it never fails and erases exactly the markers' ranges |
| `Replay.EndsInTime` | crates/msgbus-server/src/lib.rs:404-423 | below the largest head, one pass more than there are pages is enough for the replay of a log to end, whatever is on it |
| `Replay.ReplayLog` | crates/msgbus-server/src/lib.rs:404-423 | for any budget, stands exactly where the source's loop stands after that many pages; when it finishes, the messages acted on are the log's, heads 1 to its head, each once and in order |
| `Replay.ReplayedStoreIsStable` | crates/msgbus-server/src/lib.rs:395-425 | after any replay that got through, a second one changes nothing |
| `Replay.ReplayEndsIff` | crates/msgbus-server/src/lib.rs:404-423 | the replay of a delete log ends if and only if its head is below the largest, or a message on it stops the replay when it is read |
| `Replay.ReplayEndsPlainlyIff` | crates/msgbus-server/src/lib.rs:404-423 | where no marker names a range of the delete topic, it ends if and only if its head is below the largest or some message stored on it cannot be acted on |
| `Replay.ReplayGoesOnForever` | crates/msgbus-server/src/lib.rs:404-423 | otherwise every further pass is back at the largest head with the store unchanged |
| `Replay.HonestLogFinishes` | crates/msgbus-server/src/lib.rs:404-423 | on an honest store nothing stops it, and below the largest head it finishes right after its last page |
| `ServerLaws.PublishReadsBack` | crates/msgbus-server/src/lib.rs:99-122 | a publish is accepted exactly for an application topic and the daemon's own origin, changes nothing otherwise, and reads back as published at the next head, which is also what is answered |
| `ServerLaws.RefusedFor` | crates/msgbus-server/src/lib.rs:74-122 | a write that is refused gets the error for the first thing wrong: the topic, then the origin, then the range |
| `ServerLaws.DeleteTakesEffect` | crates/msgbus-server/src/lib.rs:271-289 | a delete is accepted exactly for an application topic, the own origin and a range that is not inverted; it deletes exactly the range, counts what was live, and its marker makes any other store delete the same; the marker is exactly that range at the end of the delete log |
| `StoreLaws.RunKeepsValid` | crates/msgbus-core/src/lib.rs:277-318 | over every operation sequence each log holds exactly heads 1 to its head and everything a tombstone covers is deleted |
| `StoreLaws.StepKeepsValid` | crates/msgbus-core/src/lib.rs:277-318 | every single operation keeps that, and a failed one changes nothing |
| `StoreLaws.RunExtends` | crates/msgbus-store-redb/src/lib.rs:115-181 | over every run history is append-only: heads grow, stored messages keep everything but the deleted flag, which never goes back |
| `StoreLaws.AppendExtendsIffRoom` | crates/msgbus-core/src/lib.rs:103-107 | an append with a new id keeps history exactly when the head is below the largest |
| `StoreOutcomes.ReplicationOutcome` | crates/msgbus-store-redb/src/lib.rs:115-181 | a replicated message is reported present exactly if its position holds just that message, with the flag raised where a recorded range reaches; a conflict exactly if it holds another that is not merely deleted by it; out of order exactly if the position is free and beyond the next head; otherwise it is stored and nothing else changes |
| `StoreOutcomes.FetchOutcome` | crates/msgbus-store-redb/src/lib.rs:57-78 | a fetch answers the log's messages from the head asked for, as many as there are up to the limit, 100 if it is 0 and 10000 at most |
| `StoreOutcomes.AppendOutcome` | crates/msgbus-store-redb/src/lib.rs:388-423 | an append stores the message as given at the next head, deleted at once if a recorded range reaches there, and changes nothing else |
| `StoreOutcomes.RangeDeleteOutcome` | crates/msgbus-store-redb/src/lib.rs:183-200 | a range delete is refused exactly if inverted; otherwise it deletes exactly the messages in the range, reports how many were not deleted before, and records the range |
| `StoreOutcomes.ControlOutcome` | crates/msgbus-server/src/lib.rs:544-571 | a control message has an effect exactly if it is on the delete topic, not deleted, and names a proper range of its own origin; otherwise the error for what is wrong with it, and no effect |
| `StoreOutcomes.ListingOutcome` | crates/msgbus-store-redb/src/lib.rs:88-113 | a head is listed exactly if it is a log's head, with the topic and origin of the message there |
| `StoreLaws.ReplicationIsIdempotent` | crates/msgbus-store-redb/src/lib.rs:115-181 | a replication that succeeded reports the message present when repeated, and changes nothing |
| `StoreLaws.PutAndDeleteCommute` | crates/msgbus-store-redb/src/lib.rs:115-200 | replicating a message and deleting a range give the same store in either order, in all branches, and the same result under an exact condition |
| `StoreLaws.RangeDeletesCommute` | crates/msgbus-store-redb/src/lib.rs:425-478 | two range deletes commute, and their counts add up to the live messages of the union in either order |
| `StoreLaws.RangeDeletesAddUp` | crates/msgbus-store-redb/src/lib.rs:425-478 | any sequence of range deletes, refused ones included, leaves the store that erasing the union of the others at once leaves, and its counts sum to the live messages of that union |
| `StoreLaws.RangeDeletesInAnyOrder` | crates/msgbus-store-redb/src/lib.rs:425-478 | so neither their order nor repeating them matters |
| `StoreLaws.EraseRecorded` | crates/msgbus-store-redb/src/lib.rs:425-478 | deleting recorded ranges again changes no message |
| `StoreLaws.ListHeadsIsTheHeads` | crates/msgbus-store-redb/src/lib.rs:88-113 | on a valid store the head listing never fails and is exactly the heads, one entry each |
| `StoreLaws.PageIsConsecutive` | crates/msgbus-store-redb/src/lib.rs:57-78 | a fetched page is the stored messages from the requested head on, consecutive, up to the limit or the head |
| `Redb.RedbStore.FetchMessages` | crates/msgbus-store-redb/src/lib.rs:57-78 | the range scan with prefix break and limit returns exactly the page of the abstract store |
| `Redb.RedbStore.GetHead` | crates/msgbus-store-redb/src/lib.rs:80-86 | the head table answers with the abstract head |
| `Redb.RedbStore.ListHeads` | crates/msgbus-store-redb/src/lib.rs:88-113 | scanning the head table and following each key to its message lists exactly the heads |
| `Redb.RedbStore.PutReplicatedMessage` | crates/msgbus-store-redb/src/lib.rs:115-181 | the tables change as the contract says, in all branches |
| `Redb.RedbStore.AppendMessage` | crates/msgbus-store-redb/src/lib.rs:388-423 | the tables change as the contract says |
| `Redb.RedbStore.TombstoneRangeInTxn` | crates/msgbus-store-redb/src/lib.rs:425-478 | the scan marks exactly the live messages of the range, counts them, and records the range |
| `Redb.RedbStore.TombstoneRange` | crates/msgbus-store-redb/src/lib.rs:183-200 | refuses an inverted range, otherwise deletes it |
| `Redb.RedbStore.TombstoneRangeWithMarker` | crates/msgbus-store-redb/src/lib.rs:202-238 | deletes the range and appends its marker in one transaction |
| `Redb.RedbStore.ApplyTombstoneMarkers` | crates/msgbus-store-redb/src/lib.rs:589-607 | the scan of the tombstone table stamps a message exactly as the recorded ranges cover it |
| `Redb.MessageScan` | crates/msgbus-store-redb/src/lib.rs:525-552 | a scan from a message key meets first exactly the log's stored messages from that head on, in head order |
| `TableKeys.MessageKeyOrder` | crates/msgbus-store-redb/src/lib.rs:550-552 | within a log the string order of keys is the numeric order of all 64-bit heads |
| `TableKeys.MessagePrefixTest` | crates/msgbus-store-redb/src/lib.rs:525-531 | a key has a log's prefix exactly when it belongs to that log |
| `TableKeys.HeadKeySplits` | crates/msgbus-store-redb/src/lib.rs:504-523 | a head key splits back into its parts, which name the key of the head's message |
| `TableKeys.HeadKeyInjective` | crates/msgbus-store-redb/src/lib.rs:504-506 | distinct logs have distinct head keys |
| `TableKeys.TombstoneKeyInjective` | crates/msgbus-store-redb/src/lib.rs:554-565 | distinct ranges have distinct tombstone keys |
| `TableKeys.FifoKeyOrder` | crates/msgbus-store-redb/src/lib.rs:571-577 | within a queue the string order of keys is the order of sequence numbers |
| `TableKeys.FifoPrefixTest` | crates/msgbus-store-redb/src/lib.rs:571-573 | a key has a queue's prefix exactly when it belongs to that queue |
| `Encoding.EncInjective` | crates/msgbus-store-redb/src/lib.rs:500-502 | UTF-8 followed by unpadded URL-safe base64 is injective on all strings |
| `Encoding.GroupsDecode` | crates/msgbus-store-redb/src/lib.rs:500-502 | the letters of a group stand for its bytes, six bits each in the URL-safe alphabet |
| `Encoding.DigitsValue` | crates/msgbus-store-redb/src/lib.rs:550-552 | the twenty digits are the decimal notation of the value |
| `Encoding.DigitsOrder` | crates/msgbus-store-redb/src/lib.rs:550-552 | twenty padded digits order and tell apart all 64-bit values |
| `KeyedTable.PrefixScan` | crates/msgbus-store-redb/src/lib.rs:57-78 | in any table with injective keys, a scan from a prefix meets first all entries whose keys have it, each once, in key order |
| `Sqlite.SqliteStore.FetchMessages` | crates/msgbus-store-sqlite/src/lib.rs:51-81 | the selected page is the abstract one, or an error if the head does not fit a column |
| `Sqlite.SqliteStore.ListHeads` | crates/msgbus-store-sqlite/src/lib.rs:96-127 | the join lists exactly the heads |
| `Sqlite.SqliteStore.PutReplicatedMessage` | crates/msgbus-store-sqlite/src/lib.rs:129-236 | the rows change as the contract says, or the transaction fails on a column or an id and changes nothing |
| `Sqlite.SqliteStore.AppendMessage` | crates/msgbus-store-sqlite/src/lib.rs:447-503 | likewise for an append |
| `Sqlite.SqliteStore.TombstoneRange` | crates/msgbus-store-sqlite/src/lib.rs:238-256 | likewise for a range delete, where a repeated range is ignored |
| `Sqlite.SqliteStore.TombstoneRangeWithMarker` | crates/msgbus-store-sqlite/src/lib.rs:258-296 | likewise for a delete with its marker, all or nothing |
| `Sqlite.ApplyTombstoneMarkers` | crates/msgbus-store-sqlite/src/lib.rs:754-783 | the query stamps a message exactly as the recorded ranges cover it |
| `Portability.AgreeIffPortable` | crates/msgbus-store-sqlite/src/lib.rs:129-296 | on a store SQLite can hold, the backends agree on an operation's result and effect exactly when it uses a fresh id and fitting values |
| `Portability.RefusedFor` | crates/msgbus-store-sqlite/src/lib.rs:129-296 | where SQLite refuses, a value beyond 2^63 - 1 is an invalid argument, and an id in use is a storage error if all values fit |
| `Portability.RunsAgree` | crates/msgbus-store-sqlite/src/lib.rs:129-296 | over every portable operation sequence they give the same replies and the same store |
| `Backends.RunBoth` | crates/msgbus-store-redb/src/lib.rs:50-238 | two fresh databases driven by the same portable operations reply alike and hold the same store |
| `Subscription.DeliveryIsOrdered` | crates/msgbus-server/src/lib.rs:149-221 | under every interleaving of writes, broadcasts, registration and page read, delivered heads strictly increase from the requested one and are stored messages of the log |
| `Subscription.BroadcastIsDeliveredIff` | crates/msgbus-server/src/lib.rs:190-206 | a broadcast is delivered exactly if its topic and origin are those asked for and its head is at least the one asked for and above every head on the page and of that topic and origin heard before |
| `Subscription.PageIsAsAsked` | crates/msgbus-server/src/lib.rs:155-172 | the page is what the log held from the head asked for, up to the replay limit asked for, 100 if it is 0 and 10000 at most |
| `Subscription.HeardUpToLag` | crates/msgbus-server/src/lib.rs:207-212 | what is heard are the broadcasts before the receiver falls behind |
| `Subscription.DeliveryHasNoGapIff` | crates/msgbus-server/src/lib.rs:149-221 | in every run what a subscriber receives has no gap if and only if no broadcast it heard skips a head beyond the end of its page; then it ends at the highest of them |
| `Subscription.DeliveryHasNoGap` | crates/msgbus-server/src/lib.rs:149-221 | with all broadcasts in head order and a backlog that fits, it is exactly the requested head and its successors up to the last announced |
| `Subscription.SeamClosesIff` | crates/msgbus-server/src/lib.rs:155-172 | no in-order continuation leaves a gap if and only if what was announced before registration lies below first + limit |
| `Subscription.DeliversRecordsOnly` | crates/msgbus-server/src/lib.rs:190-206 | a broadcast is delivered exactly when it is of the log and higher than everything before it, so one that comes late is lost |
| `Subscription.Forward` | crates/msgbus-server/src/lib.rs:174-218 | the forwarding loop sends the page followed by the passing broadcasts, as much as the client takes, and reports a lag exactly if there is one and the client took everything before it |
| `Subscription.RunOk` | crates/msgbus-server/src/lib.rs:149-221 | what holds of store, broadcasts and subscription in every state of every run |
| `Resume.ResilientSubscription.NextMessage` | crates/msgbus-sdk-rust/src/lib.rs:412-452 | answers with the first thing worth an answer that the open stream and all coming connections hold, leaves exactly the rest for later calls, waits only if there is none, and keeps the chain of returned heads across reconnects |
| `Resume.ResilientSubscription.Poll` | crates/msgbus-sdk-rust/src/lib.rs:412-452 | any number of calls answer exactly what was coming, in order, each connection asked from the resume point it finds |
| `Resume.ResilientSubscription.OpenStream` | crates/msgbus-sdk-rust/src/lib.rs:454-467 | reopens at the resume point, so the stream continues the chain |
| `Resume.ResilientSubscription.constructor` | crates/msgbus-sdk-rust/src/lib.rs:247-262 | starts at the requested head, at least 1, with nothing returned |
| `Resume.RetriedIff` | crates/msgbus-sdk-rust/src/lib.rs:474-479 | a failure is retried exactly for the codes unavailable, deadline exceeded, aborted and cancelled, on an open stream as on a connection; any other is answered |
| `Resume.ItemsAreAnswered` | crates/msgbus-sdk-rust/src/lib.rs:433-444 | every message and every empty response is answered, in order, and a stream that ends is reopened after the last message |
| `Resume.IncreasesIff` | crates/msgbus-sdk-rust/src/lib.rs:412-452 | against ordered streams the returned heads strictly increase if and only if none follows the largest head |
| `Resume.GaplessChain` | crates/msgbus-sdk-rust/src/lib.rs:435-440 | against gap-free streams the i-th head returned is the requested one plus i, or the largest if that is less |
| `Resume.StreamsAreInOrder` | crates/msgbus-server/src/lib.rs:178-217 | what a daemon delivers before its stream ends or fails meets what the client relies on |
| `Resume.AllServersKeepAnything` | crates/msgbus-sdk-rust/src/lib.rs:412-467 | every sequence of servers meets the weakest promise, so the contracts of the subscription hold against all of them |
| `Resume.DaemonsKeep` | crates/msgbus-server/src/lib.rs:178-217 | a daemon's streams, each from its own run of writers, broadcasts and page read, are ordered, and gap-free if the broadcasts heard skip none |
| `Resume.FollowDaemons` | crates/msgbus-sdk-rust/src/lib.rs:412-467 | end to end: across any connections to daemons, a client gets messages that the daemon which sent them holds in the log asked for; their heads strictly increase up to the largest, and are the requested head and its successors when the broadcasts heard skip none |
| `Resume.ComesFromServers` | crates/msgbus-sdk-rust/src/lib.rs:412-467 | everything a subscription has to answer was sent by one of its connections, or is the failure of one |
| `Fifo.QueueIsFirstInFirstOut` | crates/msgbus-store-redb/src/lib.rs:240-299 | in every run over any queues, what was enqueued equals what was acknowledged followed by what is pending |
| `Fifo.SequencesCountUp` | crates/msgbus-store-redb/src/lib.rs:240-256 | sequence numbers count the jobs of a queue, so none is reused, also after the queue empties |
| `Fifo.EnqueueAppendsIff` | crates/msgbus-store-redb/src/lib.rs:240-278 | a job goes to the back and the others keep their place exactly when its sequence number is free |
| `Fifo.AckTakesTheFront` | crates/msgbus-store-redb/src/lib.rs:293-295 | an acknowledgement succeeds exactly on the front and removes just it |
| `Fifo.RejectKeepsTheFront` | crates/msgbus-store-redb/src/lib.rs:297-299 | a rejection succeeds exactly on the front and changes only its attempts, to one more or the largest count |
| `Fifo.AttemptsCountRejections` | crates/msgbus-store-redb/src/lib.rs:297-299 | in every run a pending job's attempts are the rejections accepted for it since it was enqueued, capped at `u32::MAX` |
| `Fifo.OtherQueuesKeepTheirJobs` | crates/msgbus-store-redb/src/lib.rs:348-386 | an action on one queue leaves the others alone |
| `Fifo.StepConserves` | crates/msgbus-store-redb/src/lib.rs:240-299 | each operation neither loses, duplicates nor reorders a job |
| `RedbFifo.RedbQueues.Enqueue` | crates/msgbus-store-redb/src/lib.rs:240-278 | the two tables change as the abstract queue does |
| `RedbFifo.RedbQueues.Peek` | crates/msgbus-store-redb/src/lib.rs:280-291 | the first key of the scan is the oldest job of the queue, if it has the queue's prefix |
| `RedbFifo.RedbQueues.UpdateFront` | crates/msgbus-store-redb/src/lib.rs:348-386 | the table changes as the abstract queue does |
| `SqliteFifo.SqliteQueues.Enqueue` | crates/msgbus-store-sqlite/src/lib.rs:298-355 | fails exactly on a value that does not fit or an id in use, with the error for each and nothing changed; otherwise appends, and never overwrites |
| `SqliteFifo.SqliteQueues.Peek` | crates/msgbus-store-sqlite/src/lib.rs:357-370 | the selected row is the oldest job of the queue |
| `SqliteFifo.SqliteQueues.UpdateFront` | crates/msgbus-store-sqlite/src/lib.rs:549-601 | the rows change as the abstract queue does |
| `PeerSync.PeerTable.Record` | crates/msgbus-store-redb/src/lib.rs:301-329 | after any history each entry has its latest report, the length of its trailing run of failures capped at `u32::MAX`, and the latest success time a report names |
| `PeerSync.TrailingFailuresAre` | crates/msgbus-store-redb/src/lib.rs:301-329 | the failures counted are the reports at the end that are failures, and the one before them is not |
| `PeerSync.LatestSuccessIsOfASuccess` | crates/msgbus-server/src/sync.rs:411-467 | for reports whose failures name no success time, as a sync's do not, that is the time of the latest success, or 0 |
| `PeerSync.SharedEntryIff` | crates/msgbus-store-redb/src/lib.rs:533-548 | exactly which reports share an entry, a missing topic counting as the topic `-` |
| `PeerSync.SyncReportsDoNotMix` | crates/msgbus-server/src/sync.rs:411-467 | the reports that synchronisation writes share an entry only if they are about the same peer and log |
| `NodeKey.ParsedKeyPrintsBack` | crates/msgbus-core/src/lib.rs:53-70 | a key that parses prints back to itself and yields a valid slash-free node |
| `NodeKey.PrintedKeyParsesBackIff` | crates/msgbus-core/src/lib.rs:49-76 | a printed key parses back to its node exactly when the node is valid and slash-free |
| `NodeKey.KeyInjective` | crates/msgbus-core/src/lib.rs:49-51 | a slash-free node shares its key with no other node |
| `NodeKey.KeyIsOwnIff` | crates/msgbus-core/src/lib.rs:49-76 | among all triples of strings, a node has its key to itself if and only if none of its parts holds a slash |
| `NodeKey.KeyIsOwnAmongValidIff` | crates/msgbus-core/src/lib.rs:49-76 | among valid nodes, if and only if no slash of its first part has anything before it that is not blank, none of its last anything after it, and none of its middle one either |
| `NodeKey.KeysCollideWithSlashes` | crates/msgbus-core/src/lib.rs:72-76 | two different valid nodes share a key |
| `NodeKey.PinnedPeerParsesBackIff` | crates/msgbus-server/src/sync.rs:27-47 | `endpoint=key` parses to its halves exactly when the endpoint is not blank, the node is valid and slash-free, and the key has no `=` |
| `NodeKey.PeerIsParsed` | crates/msgbus-server/src/sync.rs:27-47 | what every peer specification parses to, with and without a key, and which are refused |
| `NodeKey.RefusedPartIff` | crates/msgbus-core/src/lib.rs:326-336 | a topic or a node part is refused exactly if it holds a NUL or nothing but white space |

## Left out

- gRPC, TLS, connection set-up, health and readiness replies: a connection is an input that answers or does not.
- Peer identity checks: the cluster model assumes distinct node keys and peers that are who they say.
- Conversions between wire and core messages: field copies, except that a message or head that does not convert is an error.
- The bookkeeping writes and the broadcasts inside `sync_once`, `sync_peer` and `sync_head`: what is recorded is proved in `PeerSync`, and broadcasts are steps of `Subscription`, not calls in the loops.
- The order of `list_heads` and of `list_peer_sync_states`: heads are compared as a set, and the listing of bookkeeping entries is not modelled.
- SQLite's bookkeeping table and its key with empty strings: same fold, different placeholder.
- The broadcast channel's capacity of 1024 and the client channel's of 128: lagging and a departed client can happen at any point.
- The Go client: its iterator repeats the resume logic of the Rust one.
- Command-line parsing, signals, and the synchronisation timer of the daemon.
- The internals of redb, SQLite, serde_json, tokio and UUID generation, and failures of the disk.
- `Replication.SyncHead`: pulls into a handle that satisfies the storage contract instead of into either backend. The redb backend meets that contract; the SQLite backend does where its operations are portable (`AgreeIffPortable`).
- `Replay.ReplayLog`: takes a budget of pages, because the source's loop need not end; `ReplayEndsIff` says when some budget is enough.
- `Mixed.RestartOn`: a replay that fails on a SQLite node changes nothing in one step; what it acted on before failing are `ReplayOne` steps.
