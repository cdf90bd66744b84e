/** Peer synchronisation bookkeeping: one summary per peer and log, folded over the reports recorded for it. */
module PeerSync {
  import opened Domain
  import opened Encoding
  import opened TableKeys

  datatype Option<T> = None | Some(value: T)

  /** A report as recorded, and the summary kept of the reports so far. */
  datatype PeerSyncState = PeerSyncState(
    peer: string, topic: Option<string>, origin: Option<NodeId>, localHead: u64, remoteHead: u64, lastSyncedHead: u64,
    lastAttemptAtMs: u64, lastSuccessAtMs: u64, consecutiveFailures: u32, lastError: Option<string>)

  function TopicText(state: PeerSyncState): string {
    if state.topic.Some? then state.topic.value else "-"
  }

  function OriginText(state: PeerSyncState): string {
    if state.origin.Some? then state.origin.value.Key() else "-"
  }

  function PeerSyncKey(state: PeerSyncState): string {
    "peer-sync/" + (Enc(state.peer) + "/" + (Enc(TopicText(state)) + "/" + Enc(OriginText(state))))
  }

  /** A report written by `sync_once`, `sync_peer` or `sync_head`: about a whole peer or about one log. */
  predicate WrittenBySync(state: PeerSyncState) {
    && (state.topic.Some? <==> state.origin.Some?)
    && (state.lastError.Some? ==> state.lastSuccessAtMs == 0)
  }

  // ---- The summaries ----

  /** The reports of a history that share a key. */
  function About(keyOf: PeerSyncState -> string, history: seq<PeerSyncState>, key: string): seq<PeerSyncState> {
    if history == [] then []
    else
      var n := |history| - 1;
      About(keyOf, history[..n], key) + if keyOf(history[n]) == key then [history[n]] else []
  }

  /** How many of the latest reports in a row are failures. */
  function TrailingFailures(reports: seq<PeerSyncState>): nat {
    if reports == [] || reports[|reports| - 1].lastError.None? then 0
      else 1 + TrailingFailures(reports[..|reports| - 1])
  }

  /** That many reports at the end are failures, and the one before them, if there is one, is not. */
  lemma {:induction false} TrailingFailuresAre(reports: seq<PeerSyncState>)
    ensures var k := TrailingFailures(reports);
            && k <= |reports| && (forall i :: |reports| - k <= i < |reports| ==> reports[i].lastError.Some?)
            && (k < |reports| ==> reports[|reports| - k - 1].lastError.None?)
  {
    if reports != [] && reports[|reports| - 1].lastError.Some? {
      TrailingFailuresAre(reports[..|reports| - 1]);
    }
  }

  /** The latest success time a report names, where a failure that names 0 names none; 0 if there is none. */
  function LatestSuccess(reports: seq<PeerSyncState>): u64 {
    if reports == [] then 0
    else
      var last := reports[|reports| - 1];
      if last.lastError.None? || last.lastSuccessAtMs != 0 then last.lastSuccessAtMs
        else LatestSuccess(reports[..|reports| - 1])
  }

  /** If failures name no success time, as those of a sync do not, it is the time of the latest success. */
  lemma {:induction false} LatestSuccessIsOfASuccess(reports: seq<PeerSyncState>)
    requires forall i :: 0 <= i < |reports| && reports[i].lastError.Some? ==> reports[i].lastSuccessAtMs == 0
    ensures if forall i :: 0 <= i < |reports| ==> reports[i].lastError.Some? then LatestSuccess(reports) == 0
            else exists i ::
              0 <= i < |reports| && reports[i].lastError.None? && LatestSuccess(reports) == reports[i].lastSuccessAtMs
                             && forall j :: i < j < |reports| ==> reports[j].lastError.Some?
  {
    if reports != [] {
      var n := |reports| - 1;
      if reports[n].lastError.Some? {
        LatestSuccessIsOfASuccess(reports[..n]);
        assert forall i :: 0 <= i < n ==> reports[..n][i] == reports[i];
      }
    }
  }

  /** The latest report, with the failures and the success time of the whole history. */
  ghost predicate Summarises(reports: seq<PeerSyncState>, summary: PeerSyncState) {
    && reports != []
    && summary == reports[|reports| - 1].(
                    consecutiveFailures := Min(TrailingFailures(reports),
                        U32_MAX), lastSuccessAtMs := LatestSuccess(reports))
  }

  ghost predicate EntryOk(keyOf: PeerSyncState -> string, entries: map<string, PeerSyncState>,
      history: seq<PeerSyncState>, key: string) {
    if key in entries then Summarises(About(keyOf, history, key), entries[key]) else About(keyOf, history, key) == []
  }

  lemma AboutExtends(keyOf: PeerSyncState -> string, history: seq<PeerSyncState>, report: PeerSyncState, key: string)
    ensures About(keyOf, history + [report], key) == About(keyOf, history, key) + if keyOf(report) == key then [report]
        else []
  {
    assert (history + [report])[..|history|] == history;
  }

  lemma EntryExtends(keyOf: PeerSyncState -> string, entries: map<string, PeerSyncState>, history: seq<PeerSyncState>,
      report: PeerSyncState, state: PeerSyncState, key: string)
    requires EntryOk(keyOf, entries, history, key)
    requires key == keyOf(report) ==> Summarises(About(keyOf, history, key) + [report], state)
    ensures EntryOk(keyOf, entries[keyOf(report) := state], history + [report], key)
  {
    AboutExtends(keyOf, history, report, key);
    assert key != keyOf(report) ==> About(keyOf, history + [report], key) == About(keyOf, history, key);
  }

  /** A failure extends the run of failures and keeps the success time; a success ends the run. */
  lemma SummaryExtends(reports: seq<PeerSyncState>, previous: Option<PeerSyncState>, report: PeerSyncState)
    requires if previous.Some? then Summarises(reports, previous.value) else reports == []
    ensures TrailingFailures(reports + [report]) == if report.lastError.None? then 0 else TrailingFailures(reports) + 1
    ensures LatestSuccess(reports + [report]) ==
            if report.lastError.None? || report.lastSuccessAtMs != 0 then report.lastSuccessAtMs
            else if previous.Some? then previous.value.lastSuccessAtMs else 0
  {
    assert (reports + [report])[..|reports|] == reports;
  }

  /** The new entry: a failure carries the previous entry's success time and counts on from its failures. */
  method Fold(previous: Option<PeerSyncState>, report: PeerSyncState) returns (state: PeerSyncState)
    ensures forall reports ::
        (if previous.Some? then Summarises(reports, previous.value)
          else reports == []) ==> Summarises(reports + [report], state)
  {
    state := report;
    if report.lastError.Some? {
      if previous.Some? {
        if state.lastSuccessAtMs == 0 {
          state := state.(lastSuccessAtMs := previous.value.lastSuccessAtMs);
        }
        var failures := previous.value.consecutiveFailures;
        state := state.(consecutiveFailures := if failures == U32_MAX then U32_MAX else failures + 1);
      } else {
        state := state.(consecutiveFailures := 1);
      }
    } else {
      state := state.(consecutiveFailures := 0);
    }
    forall reports | if previous.Some? then Summarises(reports, previous.value) else reports == []
      ensures Summarises(reports + [report], state)
    {
      SummaryExtends(reports, previous, report);
    }
  }

  /** The `PEER_SYNC` table and everything ever recorded in it. */
  class PeerTable {
    var entries: map<string, PeerSyncState>
    ghost var history: seq<PeerSyncState>

    /** Every entry is the summary of the reports recorded under its key, and there is one for each such key. */
    ghost predicate Inv()
      reads this
    {
      forall key {:trigger EntryOk(PeerSyncKey, entries, history, key)} :: EntryOk(PeerSyncKey, entries, history, key)
    }

    constructor ()
      ensures Inv() && history == []
    {
      entries, history := map[], [];
    }

    /** `record_peer_sync_state` */
    method Record(report: PeerSyncState)
      requires Inv()
      modifies this
      ensures Inv() && history == old(history) + [report]
    {
      var key := PeerSyncKey(report);
      assert EntryOk(PeerSyncKey, entries, history, key);
      var state := Fold(if key in entries then Some(entries[key]) else None, report);
      assert Summarises(About(PeerSyncKey, history, key) + [report], state);
      ghost var before, past := entries, history;
      entries := entries[key := state];
      history := history + [report];
      forall other ensures EntryOk(PeerSyncKey, entries, history, other) {
        assert EntryOk(PeerSyncKey, before, past, other);
        EntryExtends(PeerSyncKey, before, past, report, state, other);
      }
    }
  }

  // ---- Which reports share an entry ----

  lemma PeerSyncKeyInjective(a: PeerSyncState, b: PeerSyncState)
    ensures PeerSyncKey(a) == PeerSyncKey(b) <==>
            a.peer == b.peer && TopicText(a) == TopicText(b) && OriginText(a) == OriginText(b)
  {
    if PeerSyncKey(a) == PeerSyncKey(b) {
      PeerKeyParts(a.peer, TopicText(a), OriginText(a), b.peer, TopicText(b), OriginText(b));
    }
  }

  lemma PeerKeyParts(p: string, t: string, o: string, p': string, t': string, o': string)
    requires "peer-sync/" + (Enc(p) + "/" + (Enc(t) + "/" + Enc(o))) ==
        "peer-sync/" + (Enc(p') + "/" + (Enc(t') + "/" + Enc(o')))
    ensures p == p' && t == t' && o == o'
  {
    SameTail("peer-sync/", Enc(p) + "/" + (Enc(t) + "/" + Enc(o)), Enc(p') + "/" + (Enc(t') + "/" + Enc(o')));
    Segment(Enc(p), Enc(t) + "/" + Enc(o), Enc(p'), Enc(t') + "/" + Enc(o'));
    Segment(Enc(t), Enc(o), Enc(t'), Enc(o'));
    EncInjective(p, p');
    EncInjective(t, t');
    EncInjective(o, o');
  }

  /** A printed node id has slashes, so the placeholder for a missing origin is never one. */
  lemma OriginIsNotThePlaceholder(origin: NodeId)
    ensures origin.Key() != "-"
  {
    assert origin.Key()[|origin.tenantId|] == '/';
  }

  /**
   * Two reports share an entry exactly when they name the same peer, the same origin key, and the same topic or
   * no topic, where a missing topic counts as the topic "-".
   */
  lemma SharedEntryIff(a: PeerSyncState, b: PeerSyncState)
    ensures PeerSyncKey(a) == PeerSyncKey(b) <==>
            && a.peer == b.peer
            && (a.topic == b.topic || {a.topic, b.topic} == {None, Some("-")})
            && (if a.origin.Some? && b.origin.Some? then a.origin.value.Key() == b.origin.value.Key()
              else a.origin == b.origin)
  {
    PeerSyncKeyInjective(a, b);
    if a.origin.Some? {
      OriginIsNotThePlaceholder(a.origin.value);
    }
    if b.origin.Some? {
      OriginIsNotThePlaceholder(b.origin.value);
    }
  }

  /** The reports that synchronisation writes share an entry only if they are about the same peer and the same log. */
  lemma SyncReportsDoNotMix(a: PeerSyncState, b: PeerSyncState)
    requires WrittenBySync(a) && WrittenBySync(b) && PeerSyncKey(a) == PeerSyncKey(b)
    ensures a.peer == b.peer && a.topic == b.topic
    ensures a.origin.Some? == b.origin.Some? && (a.origin.Some? ==> a.origin.value.Key() == b.origin.value.Key())
  {
    SharedEntryIff(a, b);
  }
}
