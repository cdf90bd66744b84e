/**
 * Replaying delete markers at startup (`replay_control_messages`). The loops of the source need not end, so the
 * model gives each log a budget of passes and says exactly when some budget is enough.
 */
module Replay {
  import opened Domain
  import opened StoreModel
  import opened StoreLaws
  import opened Replication

  // ---- One pass of the loop over a log ----

  /** How a replay of one log stands: about to read from a head, through, or stopped at a message it cannot act on. */
  datatype Scan = Running(store: Store, from: u64) | Finished(store: Store) | Halted(store: Store)

  /** Acts on messages in order, up to the first that fails. */
  function ActOnAll(s: Store, page: seq<StoredMessage>): (Store, bool)
    decreases |page|
  {
    if page == [] then
      (s, true)
    else
      var (s', r) := ApplyControl(s, page[0]);
      if r.Ok? then ActOnAll(s', page[1..]) else (s', false)
  }

  /** How a page of a log is read: the store, and the head to read from. */
  type Reader = (Store, u64) -> seq<StoredMessage>

  function ReaderOf(log: LogKey): Reader {
    (s: Store, from: u64) => Page(s, log, from, 1000)
  }

  /** One pass: reads a page from head `from` on, acts on it, and moves on after its last message. */
  function Pass(read: Reader, s: Store, head: u64, from: u64): Scan {
    var page := read(s, from);
    if from > head || page == [] then
      Finished(s)
    else
      var (s', ok) := ActOnAll(s, page);
      if ok then Running(s', Next(page[|page| - 1].headId)) else Halted(s')
  }

  function Passes(read: Reader, s: Store, head: u64, from: u64, n: nat): Scan
    decreases n
  {
    if n == 0 then
      Running(s, from)
    else
      var scan := Pass(read, s, head, from);
      if scan.Running? then Passes(read, scan.store, head, scan.from, n - 1) else scan
  }

  lemma {:induction false} OneMorePass(read: Reader, s: Store, head: u64, from: u64, n: nat)
    ensures var scan := Passes(read, s, head, from, n);
            Passes(read, s, head, from, n + 1) == if scan.Running? then Pass(read, scan.store, head, scan.from)
              else scan
    decreases n
  {
    var scan := Pass(read, s, head, from);
    if n > 0 && scan.Running? {
      OneMorePass(read, scan.store, head, scan.from, n - 1);
    }
  }

  lemma {:induction false} EndedStaysEnded(read: Reader, s: Store, head: u64, from: u64, n: nat, m: nat)
    requires n <= m && !Passes(read, s, head, from, n).Running?
    ensures Passes(read, s, head, from, m) == Passes(read, s, head, from, n)
    decreases m
  {
    if n < m {
      EndedStaysEnded(read, s, head, from, n, m - 1);
      OneMorePass(read, s, head, from, m - 1);
    }
  }

  /** The pages read are the messages of a log, a thousand at a time. */
  ghost predicate Reads(read: Reader, log: LogKey) {
    forall s: Store, from: u64 {:trigger read(s, from)} ::
      Valid(s) && from > 0 ==> IsPage(s, log, from, CurrentHead(s, log), 1000, read(s, from))
  }

  lemma ReaderReads(log: LogKey)
    ensures Reads(ReaderOf(log), log)
  {
    forall s: Store, from: u64 | Valid(s) && from > 0
      ensures IsPage(s, log, from, CurrentHead(s, log), 1000, ReaderOf(log)(s, from))
    {
      PageIsConsecutive(s, log, from, 1000);
    }
  }

  // ---- What a pass does ----

  /** A message that stops the replay: on the delete topic, not deleted, and not a marker that can be acted on. */
  predicate Stops(m: StoredMessage) {
    m.topic == DELETE_TOPIC && !m.deleted && !m.IsMarker()
  }

  function MarkersOn(page: seq<StoredMessage>): set<Span> {
    set i | 0 <= i < |page| && page[i].IsMarker() :: page[i].payload.range.Extent()
  }

  lemma ControlStops(s: Store, m: StoredMessage)
    ensures ApplyControl(s, m).1.Ok? <==> !Stops(m)
  {
  }

  lemma {:induction false} ActingErases(s: Store, page: seq<StoredMessage>)
    ensures ActOnAll(s, page).1 <==> forall i :: 0 <= i < |page| ==> !Stops(page[i])
    ensures ActOnAll(s, page).1 ==> ActOnAll(s, page).0 == Erase(s, MarkersOn(page))
    decreases |page|
  {
    if page == [] {
      assert Erase(s, {}) == s;
    } else {
      var m, rest := page[0], page[1..];
      ControlErases(s, m);
      ControlStops(s, m);
      ActingErases(ApplyControl(s, m).0, rest);
      assert page == [m] + rest;
      MarkersOnAdd(m, rest, page);
      if m.IsMarker() {
        EraseErase(s, {m.payload.range.Extent()}, MarkersOn(rest));
      }
    }
  }

  lemma MarkersOnAdd(m: StoredMessage, rest: seq<StoredMessage>, page: seq<StoredMessage>)
    requires page == [m] + rest
    ensures MarkersOn(page) == (if m.IsMarker() then {m.payload.range.Extent()} else {}) + MarkersOn(rest)
  {
    forall t | t in MarkersOn(rest) ensures t in MarkersOn(page) {
      var i :| 0 <= i < |rest| && rest[i].IsMarker() && rest[i].payload.range.Extent() == t;
      assert page[i + 1] == rest[i];
    }
    forall t | t in MarkersOn(page)
      ensures t in (if m.IsMarker() then {m.payload.range.Extent()} else {}) + MarkersOn(rest)
    {
      var i :| 0 <= i < |page| && page[i].IsMarker() && page[i].payload.range.Extent() == t;
      if i > 0 {
        assert rest[i - 1] == page[i];
      }
    }
    if m.IsMarker() {
      assert page[0].IsMarker();
    }
  }

  /** The thousand positions of a log from head `from` on. */
  predicate InPage(slot: Slot, log: LogKey, from: nat) {
    slot.log == log && from <= slot.head < from + 1000
  }

  /** The ranges named by the markers among them. */
  ghost function MarkersIn(s: Store, log: LogKey, from: nat): set<Span> {
    set slot | slot in s.messages && InPage(slot, log, from) && s.messages[slot].IsMarker()
      :: s.messages[slot].payload.range.Extent()
  }

  /** The store once they have been acted on. */
  ghost function ActedOn(s: Store, log: LogKey, from: nat): Store {
    Erase(s, MarkersIn(s, log, from))
  }

  ghost predicate StopsIn(s: Store, log: LogKey, from: nat) {
    exists slot :: slot in s.messages && InPage(slot, log, from) && Stops(s.messages[slot])
  }

  lemma PageInPage(s: Store, log: LogKey, from: u64, page: seq<StoredMessage>)
    requires Valid(s) && 1 <= from && IsPage(s, log, from, CurrentHead(s, log), 1000, page)
    ensures MarkersOn(page) == MarkersIn(s, log, from)
    ensures (forall i :: 0 <= i < |page| ==> !Stops(page[i])) <==> !StopsIn(s, log, from)
  {
    forall slot | slot in s.messages && InPage(slot, log, from)
      ensures slot.head - from < |page| && page[slot.head - from] == s.messages[slot]
    {
      assert slot == Slot(log, from + (slot.head - from));
    }
    forall i | 0 <= i < |page| ensures StopsIn(s, log, from) || !Stops(page[i]) {
      assert page[i] == s.messages[Slot(log, from + i)] && InPage(Slot(log, from + i), log, from);
    }
    forall t | t in MarkersOn(page) ensures t in MarkersIn(s, log, from) {
      var i :| 0 <= i < |page| && page[i].IsMarker() && page[i].payload.range.Extent() == t;
      assert page[i] == s.messages[Slot(log, from + i)] && InPage(Slot(log, from + i), log, from);
    }
  }

  /** A pass at or below the head either stops, or erases what its page's markers name and moves on. */
  lemma PassAt(read: Reader, s: Store, log: LogKey, from: u64)
    requires Reads(read, log) && Valid(s) && 1 <= from <= CurrentHead(s, log)
    ensures var head := CurrentHead(s, log);
            var scan := Pass(read, s, head, from);
            if StopsIn(s, log, from) then scan.Halted?
              else scan == Running(ActedOn(s, log, from), Next(Min(from + 999, head)))
  {
    var page := read(s, from);
    PageInPage(s, log, from, page);
    ActingErases(s, page);
    var last := Slot(log, from + |page| - 1);
    assert page[|page| - 1] == s.messages[last] && s.messages[last].Position() == last;
  }

  // ---- When the replay of a log ends ----

  /** The store once the first `p` pages of a log have been acted on. */
  ghost function After(s: Store, log: LogKey, p: nat): Store {
    if p == 0 then s else ActedOn(After(s, log, p - 1), log, FirstOf(p - 1))
  }

  /** The first head of the page with number `p`. */
  function FirstOf(p: nat): nat {
    1000 * p + 1
  }

  lemma AfterNext(s: Store, log: LogKey, p: nat)
    ensures After(s, log, p + 1) == ActedOn(After(s, log, p), log, FirstOf(p))
  {
  }

  /** The message at a head stops the replay, in the copy that is there when its page comes up. */
  ghost predicate StopsWhenRead(s: Store, log: LogKey, h: u64) {
    h > 0 && Slot(log, h) in s.messages
    && Slot(log, h) in After(s, log, (h - 1) / 1000).messages
    && Stops(After(s, log, (h - 1) / 1000).messages[Slot(log, h)])
  }

  ghost predicate PageStops(s: Store, log: LogKey, p: nat) {
    StopsIn(After(s, log, p), log, FirstOf(p))
  }

  lemma {:induction false} AfterKeeps(s: Store, log: LogKey, p: nat)
    requires Valid(s)
    ensures Valid(After(s, log, p)) && After(s, log, p).heads == s.heads
    ensures After(s, log, p).messages.Keys == s.messages.Keys
  {
    if p > 0 {
      var before := After(s, log, p - 1);
      AfterKeeps(s, log, p - 1);
      EraseKeepsValid(before, MarkersIn(before, log, FirstOf(p - 1)));
    }
  }

  lemma {:induction false} AfterExtends(s: Store, log: LogKey, p: nat)
    ensures Extends(s, After(s, log, p))
  {
    if p > 0 {
      var before := After(s, log, p - 1);
      AfterExtends(s, log, p - 1);
      EraseExtends(before, MarkersIn(before, log, FirstOf(p - 1)));
      ExtendsTransitive(s, before, After(s, log, p));
    }
  }

  /** A message that stops the replay when it is read did so from the start. */
  lemma StopsFromTheStart(s: Store, log: LogKey, h: u64)
    requires StopsWhenRead(s, log, h)
    ensures Stops(s.messages[Slot(log, h)])
  {
    AfterExtends(s, log, (h - 1) / 1000);
  }

  lemma SomePageStopsIff(s: Store, log: LogKey)
    requires Valid(s)
    ensures (exists h: u64 :: StopsWhenRead(s, log, h)) <==>
            (exists p: nat :: FirstOf(p) <= CurrentHead(s, log) && PageStops(s, log, p))
  {
    if h: u64 :| StopsWhenRead(s, log, h) {
      var p := (h - 1) / 1000;
      assert InPage(Slot(log, h), log, FirstOf(p));
      assert PageStops(s, log, p);
    }
    if p: nat :| FirstOf(p) <= CurrentHead(s, log) && PageStops(s, log, p) {
      AfterKeeps(s, log, p);
      StopOfPage(s, After(s, log, p), log, p);
    }
  }

  lemma StopOfPage(s: Store, after: Store, log: LogKey, p: nat)
    requires after == After(s, log, p) && after.messages.Keys == s.messages.Keys && Valid(s)
    requires StopsIn(after, log, FirstOf(p))
    ensures exists h: u64 :: StopsWhenRead(s, log, h)
  {
    var slot :| slot in after.messages && InPage(slot, log, FirstOf(p)) && Stops(after.messages[slot]);
    assert slot == Slot(log, slot.head) && (slot.head - 1) / 1000 == p;
    assert StopsWhenRead(s, log, slot.head);
  }

  /** The stores a replay goes through, page by page. */
  type Stores = nat -> Store

  /** The pass over page `p` takes one store to the next. */
  ghost predicate GoesOn(read: Reader, stores: Stores, head: u64, p: nat) {
    FirstOf(p) <= head && PassesTo(read, stores(p), stores(p + 1), head, FirstOf(p))
  }

  ghost predicate PassesTo(read: Reader, before: Store, after: Store, head: u64, from: u64) {
    Pass(read, before, head, from) == Running(after, Next(Min(from + 999, head)))
  }

  ghost predicate GoesOnUpTo(read: Reader, stores: Stores, head: u64, p: nat) {
    forall q: nat {:trigger GoesOn(read, stores, head, q)} :: q < p ==> GoesOn(read, stores, head, q)
  }

  lemma {:induction false} ThroughPages(read: Reader, stores: Stores, head: u64, p: nat)
    requires GoesOnUpTo(read, stores, head, p)
    ensures Passes(read, stores(0), head, 1, p) == Running(stores(p), if p == 0 then 1 else Next(Min(1000 * p, head)))
    decreases p
  {
    if p > 0 {
      ThroughPages(read, stores, head, p - 1);
      OneMorePass(read, stores(0), head, 1, p - 1);
      assert GoesOn(read, stores, head, p - 1);
    }
  }

  ghost function StoresAfter(s: Store, log: LogKey): Stores {
    (p: nat) => After(s, log, p)
  }

  lemma PassOverPage(read: Reader, s: Store, log: LogKey, p: nat)
    requires Reads(read, log) && Valid(s) && FirstOf(p) <= CurrentHead(s, log)
    ensures PageStops(s, log, p) ==> Pass(read, After(s, log, p), CurrentHead(s, log), FirstOf(p)).Halted?
    ensures !PageStops(s, log, p) ==>
            PassesTo(read, After(s, log, p), After(s, log, p + 1), CurrentHead(s, log), FirstOf(p))
  {
    AfterKeeps(s, log, p);
    AfterNext(s, log, p);
    PassAt(read, After(s, log, p), log, FirstOf(p));
  }

  ghost predicate NoPageStops(s: Store, log: LogKey, p: nat) {
    forall q: nat {:trigger PageStops(s, log, q)} :: q < p ==> !PageStops(s, log, q)
  }

  /** As long as no page stops it, the replay is through the first `p` pages after `p` passes. */
  lemma PagesPassed(read: Reader, s: Store, log: LogKey, p: nat)
    requires Reads(read, log) && Valid(s) && 1000 * p < CurrentHead(s, log) + 1000 && NoPageStops(s, log, p)
    ensures Passes(read, s, CurrentHead(s, log), 1, p)
            == Running(After(s, log, p), if p == 0 then 1 else Next(Min(1000 * p, CurrentHead(s, log))))
  {
    var stores, head := StoresAfter(s, log), CurrentHead(s, log);
    forall q: nat | q < p ensures GoesOn(read, stores, head, q) {
      assert !PageStops(s, log, q);
      PassOverPage(read, s, log, q);
    }
    ThroughPages(read, stores, head, p);
    assert stores(0) == s;
  }

  lemma {:induction false} FirstStop(s: Store, log: LogKey, p: nat) returns (q: nat)
    requires PageStops(s, log, p)
    ensures q <= p && PageStops(s, log, q) && NoPageStops(s, log, q)
  {
    q := 0;
    while !PageStops(s, log, q)
      invariant q <= p && NoPageStops(s, log, q)
      decreases p - q
    {
      q := q + 1;
    }
  }

  /** A page that stops the replay is reached. */
  lemma StopIsReached(read: Reader, s: Store, log: LogKey, p: nat) returns (n: nat)
    requires Reads(read, log) && Valid(s) && FirstOf(p) <= CurrentHead(s, log) && PageStops(s, log, p)
    ensures n <= p + 1 && Passes(read, s, CurrentHead(s, log), 1, n).Halted?
  {
    var q := FirstStop(s, log, p);
    PagesPassed(read, s, log, q);
    PassOverPage(read, s, log, q);
    NextPassIs(read, s, CurrentHead(s, log), q, After(s, log, q), FirstOf(q));
    n := q + 1;
  }

  lemma NextPassIs(read: Reader, s: Store, head: u64, n: nat, s': Store, from: u64)
    requires Passes(read, s, head, 1, n) == Running(s', from)
    ensures Passes(read, s, head, 1, n + 1) == Pass(read, s', head, from)
  {
    OneMorePass(read, s, head, 1, n);
  }

  /** How many pages a log has. */
  function PagesOf(head: nat): nat {
    (head + 999) / 1000
  }

  /** Below the largest head, a replay that no page stops finishes right after its last page. */
  lemma ReplayFinishes(read: Reader, s: Store, log: LogKey)
    requires Reads(read, log) && Valid(s) && CurrentHead(s, log) < U64_MAX
    requires NoPageStops(s, log, PagesOf(CurrentHead(s, log)))
    ensures Passes(read, s, CurrentHead(s, log), 1, PagesOf(CurrentHead(s, log)) + 1)
            == Finished(After(s, log, PagesOf(CurrentHead(s, log))))
  {
    var head: nat := CurrentHead(s, log);
    var p := PagesOf(head);
    assert head <= 1000 * p < head + 1000;
    PagesPassed(read, s, log, p);
    OneMorePass(read, s, head, 1, p);
  }

  /** Below the largest head, one pass more than the log has pages is always enough for the replay to end. */
  lemma EndsInTime(read: Reader, s: Store, log: LogKey, budget: nat)
    requires Reads(read, log) && Valid(s) && CurrentHead(s, log) < U64_MAX && PagesOf(CurrentHead(s, log)) < budget
    ensures !Passes(read, s, CurrentHead(s, log), 1, budget).Running?
  {
    var head: nat := CurrentHead(s, log);
    var pages := PagesOf(head);
    if p: nat :| p < pages && PageStops(s, log, p) {
      assert FirstOf(p) <= head;
      var n := StopIsReached(read, s, log, p);
      EndedStaysEnded(read, s, head, 1, n, budget);
    } else {
      ReplayFinishes(read, s, log);
      EndedStaysEnded(read, s, head, 1, pages + 1, budget);
    }
  }

  /** A page acted on twice changes the store once. */
  lemma ActingAgain(s: Store, log: LogKey, from: nat, again: nat)
    requires Valid(s) && from <= again && !StopsIn(s, log, from)
    requires forall slot: Slot :: InPage(slot, log, again) ==> InPage(slot, log, from)
    ensures var s' := ActedOn(s, log, from); Valid(s') && !StopsIn(s', log, again) && ActedOn(s', log, again) == s'
  {
    var s' := ActedOn(s, log, from);
    EraseKeepsValid(s, MarkersIn(s, log, from));
    EraseExtends(s, MarkersIn(s, log, from));
    forall slot | slot in s'.messages && InPage(slot, log, again) ensures !Stops(s'.messages[slot]) {
      assert !Stops(s.messages[slot]);
    }
    forall t | t in MarkersIn(s', log, again) ensures t in s'.tombstones {
      var slot :| slot in s'.messages && InPage(slot, log, again) && s'.messages[slot].IsMarker()
                  && s'.messages[slot].payload.range.Extent() == t;
      assert s.messages[slot].IsMarker();
      assert t in MarkersIn(s, log, from);
    }
    EraseRecorded(s', MarkersIn(s', log, again));
  }

  /** At the largest head a replay that no page stops is back at that head after every further pass. */
  lemma {:induction false} ReplayGoesOnForever(read: Reader, s: Store, log: LogKey, pages: nat, n: nat)
    requires Reads(read, log) && Valid(s) && CurrentHead(s, log) == U64_MAX && NoPageStops(s, log, pages)
    requires pages > 0 && FirstOf(pages - 1) <= U64_MAX < FirstOf(pages - 1) + 1000
    ensures Passes(read, s, U64_MAX, 1, n).Running?
    ensures n >= pages ==> Passes(read, s, U64_MAX, 1, n) == Running(After(s, log, pages), U64_MAX)
    decreases n
  {
    if n <= pages {
      PagesPassed(read, s, log, n);
    } else {
      ReplayGoesOnForever(read, s, log, pages, n - 1);
      LastHeadAgain(read, s, log, pages);
      NextPassIs(read, s, U64_MAX, n - 1, After(s, log, pages), U64_MAX);
    }
  }

  lemma LastHeadAgain(read: Reader, s: Store, log: LogKey, pages: nat)
    requires Reads(read, log) && Valid(s) && CurrentHead(s, log) == U64_MAX && NoPageStops(s, log, pages)
    requires pages > 0 && FirstOf(pages - 1) <= U64_MAX < FirstOf(pages - 1) + 1000
    ensures Pass(read, After(s, log, pages), U64_MAX, U64_MAX) == Running(After(s, log, pages), U64_MAX)
  {
    var before := After(s, log, pages - 1);
    AfterKeeps(s, log, pages - 1);
    AfterNext(s, log, pages - 1);
    assert !PageStops(s, log, pages - 1);
    LastHeadStays(read, before, After(s, log, pages), log, FirstOf(pages - 1));
  }

  lemma LastHeadStays(read: Reader, before: Store, after: Store, log: LogKey, from: nat)
    requires Reads(read, log) && Valid(before) && CurrentHead(before, log) == U64_MAX && from <= U64_MAX < from + 1000
    requires after == ActedOn(before, log, from) && !StopsIn(before, log, from)
    ensures Pass(read, after, U64_MAX, U64_MAX) == Running(after, U64_MAX)
  {
    ActingAgain(before, log, from, U64_MAX);
    PassAt(read, after, log, U64_MAX);
  }

  ghost predicate Ends(s: Store, log: LogKey, n: nat) {
    !Passes(ReaderOf(log), s, CurrentHead(s, log), 1, n).Running?
  }

  /**
   * The replay of a log ends if and only if its head is below the largest one, or some message on it stops the
   * replay when it is read. A log at the largest head without such a message is read for ever.
   */
  lemma ReplayEndsIff(s: Store, log: LogKey)
    requires Valid(s)
    ensures (exists n :: Ends(s, log, n)) <==>
            CurrentHead(s, log) < U64_MAX || exists h: u64 :: StopsWhenRead(s, log, h)
  {
    var read, head := ReaderOf(log), CurrentHead(s, log);
    var pages := PagesOf(head);
    ReaderReads(log);
    SomePageStopsIff(s, log);
    if p: nat :| FirstOf(p) <= head && PageStops(s, log, p) {
      var n := StopIsReached(read, s, log, p);
      assert Ends(s, log, n);
    } else {
      forall q: nat | q < pages ensures !PageStops(s, log, q) {
        assert FirstOf(q) <= head;
      }
      if head < U64_MAX {
        ReplayFinishes(read, s, log);
        assert Ends(s, log, pages + 1);
      } else {
        forall n: nat ensures !Ends(s, log, n) {
          ReplayGoesOnForever(read, s, log, pages, n);
        }
      }
    }
  }

  /** No marker names a range of the delete topic, as none that a daemon writes does. */
  ghost predicate SparesDeleteLogs(s: Store) {
    forall slot {:trigger s.messages[slot].IsMarker()} ::
      slot in s.messages && s.messages[slot].IsMarker() ==> s.messages[slot].payload.range.topic != DELETE_TOPIC
  }

  ghost predicate SameDeleteLogs(s: Store, s': Store) {
    forall slot: Slot {:trigger SameAt(s, s', slot)} :: slot.log.topic == DELETE_TOPIC ==> SameAt(s, s', slot)
  }

  ghost predicate SameAt(s: Store, s': Store, slot: Slot) {
    slot in s.messages ==> slot in s'.messages && s'.messages[slot] == s.messages[slot]
  }

  /** Acting on markers then touches no message of a delete log. */
  lemma ActingSparesDeleteLogs(s: Store, log: LogKey, from: nat)
    requires SparesDeleteLogs(s)
    ensures SparesDeleteLogs(ActedOn(s, log, from)) && SameDeleteLogs(s, ActedOn(s, log, from))
  {
    var spans := MarkersIn(s, log, from);
    forall t | t in spans ensures t.log.topic != DELETE_TOPIC {
      var at :| at in s.messages && s.messages[at].IsMarker() && s.messages[at].payload.range.Extent() == t;
    }
    forall slot: Slot | slot.log.topic == DELETE_TOPIC ensures !CoveredBy(spans, slot) {
    }
  }

  /** So what is on a delete log is still there as it was when it is read. */
  lemma {:induction false} DeleteLogsStay(s: Store, log: LogKey, p: nat)
    requires SparesDeleteLogs(s)
    ensures SparesDeleteLogs(After(s, log, p)) && SameDeleteLogs(s, After(s, log, p))
    decreases p
  {
    if p > 0 {
      var before := After(s, log, p - 1);
      DeleteLogsStay(s, log, p - 1);
      ActingSparesDeleteLogs(before, log, FirstOf(p - 1));
      StillSame(s, before, ActedOn(before, log, FirstOf(p - 1)));
    }
  }

  lemma StillSame(a: Store, b: Store, c: Store)
    requires SameDeleteLogs(a, b) && SameDeleteLogs(b, c)
    ensures SameDeleteLogs(a, c)
  {
    forall slot: Slot | slot.log.topic == DELETE_TOPIC ensures SameAt(a, c, slot) {
      assert SameAt(a, b, slot) && SameAt(b, c, slot);
    }
  }

  lemma StopsWhenReadIff(s: Store, log: LogKey, h: u64)
    requires Valid(s) && SparesDeleteLogs(s) && h > 0 && Slot(log, h) in s.messages
    ensures StopsWhenRead(s, log, h) <==> Stops(s.messages[Slot(log, h)])
  {
    var slot := Slot(log, h);
    assert s.messages[slot].Position() == slot;
    if StopsWhenRead(s, log, h) {
      StopsFromTheStart(s, log, h);
    } else if log.topic == DELETE_TOPIC {
      DeleteLogsStay(s, log, (h - 1) / 1000);
      assert SameAt(s, After(s, log, (h - 1) / 1000), slot);
    }
  }

  /**
   * Where no marker names a range of the delete topic, the replay of a log ends if and only if its head is below the
   * largest one or some message stored on it cannot be acted on.
   */
  lemma ReplayEndsPlainlyIff(s: Store, log: LogKey)
    requires Valid(s) && SparesDeleteLogs(s)
    ensures (exists n :: Ends(s, log, n)) <==>
            || CurrentHead(s, log) < U64_MAX
            || exists h: u64 :: Slot(log, h) in s.messages && Stops(s.messages[Slot(log, h)])
  {
    ReplayEndsIff(s, log);
    if h: u64 :| StopsWhenRead(s, log, h) {
      StopsWhenReadIff(s, log, h);
    }
    if h: u64 :| Slot(log, h) in s.messages && Stops(s.messages[Slot(log, h)]) {
      StopsWhenReadIff(s, log, h);
    }
  }

  // ---- The loops, and what they leave behind ----

  /** The markers in a slot take effect: its range is among the applied ones. */
  ghost predicate Handled(s: Store, applied: set<Span>, slot: Slot) {
    slot in s.messages && s.messages[slot].IsMarker() ==> s.messages[slot].payload.range.Extent() in applied
  }

  ghost predicate HandledBelow(s: Store, applied: set<Span>, log: LogKey, from: nat) {
    forall slot: Slot {:trigger Handled(s, applied, slot)} ::
      slot.log == log && slot.head < from ==> Handled(s, applied, slot)
  }

  lemma HandledGrows(base: Store, a: set<Span>, b: set<Span>, slot: Slot)
    requires a <= b && Handled(Erase(base, a), a, slot)
    ensures Handled(Erase(base, b), b, slot)
  {
    if slot in base.messages && CoveredBy(a, slot) {
      var t :| t in a && t.Covers(slot);
      assert CoveredBy(b, slot);
    }
  }

  lemma HandledBelowGrows(base: Store, a: set<Span>, b: set<Span>, log: LogKey, from: nat)
    requires a <= b && HandledBelow(Erase(base, a), a, log, from)
    ensures HandledBelow(Erase(base, b), b, log, from)
  {
    forall slot: Slot | slot.log == log && slot.head < from ensures Handled(Erase(base, b), b, slot) {
      assert Handled(Erase(base, a), a, slot);
      HandledGrows(base, a, b, slot);
    }
  }

  /** A message read from slot `slot` some deletes ago. */
  ghost predicate ReadFrom(base: Store, applied: set<Span>, slot: Slot, m: StoredMessage) {
    && slot in base.messages && base.messages[slot].Same(m) && m.topic == slot.log.topic
    && (base.messages[slot].deleted ==> m.deleted)
    && (m.deleted ==> Erase(base, applied).messages[slot].deleted)
  }

  lemma ReadFromGrows(base: Store, a: set<Span>, b: set<Span>, slot: Slot, m: StoredMessage)
    requires a <= b && ReadFrom(base, a, slot, m)
    ensures ReadFrom(base, b, slot, m)
  {
    if CoveredBy(a, slot) {
      var t :| t in a && t.Covers(slot);
      assert CoveredBy(b, slot);
    }
  }

  /** A page read in full: its messages are copies of a log's, from head `from` on. */
  ghost predicate ReadsFrom(base: Store, applied: set<Span>, log: LogKey, from: nat, page: seq<StoredMessage>) {
    && from + |page| <= U64_MAX + 1
    && forall i {:trigger page[i]} :: 0 <= i < |page| ==> ReadFrom(base, applied, Slot(log, from + i), page[i])
  }

  /** The markers on a page are stored ones, and once they have been acted on, so are the page's positions. */
  lemma HandledPage(base: Store, done: set<Span>, log: LogKey, from: nat, page: seq<StoredMessage>)
    requires HandledBelow(Erase(base, done), done, log, from) && ReadsFrom(base, done, log, from, page)
    ensures HandledBelow(Erase(base, done + MarkersOn(page)), done + MarkersOn(page), log, from + |page|)
  {
    var after := done + MarkersOn(page);
    HandledBelowGrows(base, done, after, log, from);
    forall slot: Slot | slot.log == log && slot.head < from + |page| ensures Handled(Erase(base, after), after, slot) {
      if slot.head < from {
        assert Handled(Erase(base, after), after, slot);
      } else {
        var m := page[slot.head - from];
        assert slot == Slot(log, from + (slot.head - from)) && ReadFrom(base, done, slot, m);
        ReadFromGrows(base, done, after, slot, m);
      }
    }
  }

  lemma MarkersAreStored(base: Store, done: set<Span>, log: LogKey, from: nat, page: seq<StoredMessage>, k: nat)
    requires ReadsFrom(base, done, log, from, page) && k <= |page|
    ensures MarkersOn(page[..k]) <= Markers(base)
  {
    forall t | t in MarkersOn(page[..k]) ensures t in Markers(base) {
      var i :| 0 <= i < k && page[..k][i].IsMarker() && page[..k][i].payload.range.Extent() == t;
      assert page[i] == page[..k][i];
      assert base.messages[Slot(log, from + i)].IsMarker();
    }
  }

  /** How many messages of a page come before the first that stops the replay. */
  function Unstopped(page: seq<StoredMessage>): (k: nat)
    ensures k <= |page| && (forall i :: 0 <= i < k ==> !Stops(page[i])) && (k < |page| ==> Stops(page[k]))
  {
    if page == [] || Stops(page[0]) then 0 else 1 + Unstopped(page[1..])
  }

  lemma {:induction false} ActingStops(s: Store, page: seq<StoredMessage>)
    ensures ActOnAll(s, page).0 == ActOnAll(s, page[..Unstopped(page)]).0
    decreases |page|
  {
    if page != [] {
      ControlStops(s, page[0]);
      ControlErases(s, page[0]);
      if !Stops(page[0]) {
        var part := page[..Unstopped(page)];
        assert part[1..] == page[1..][..Unstopped(page[1..])];
        ActingStops(ApplyControl(s, page[0]).0, page[1..]);
      }
    }
  }

  /** Acting on messages up to the first that fails erases what the markers before it name. */
  lemma ActingErasesSome(s: Store, page: seq<StoredMessage>) returns (k: nat)
    ensures k <= |page| && ActOnAll(s, page).0 == Erase(s, MarkersOn(page[..k]))
    ensures (ActOnAll(s, page).1 ==> k == |page|)
  {
    k := Unstopped(page);
    ActingStops(s, page);
    ActingErases(s, page[..k]);
    ActingErases(s, page);
  }

  /** Of the messages acted on from some point on, none stops the replay, or just the last one does. */
  ghost predicate NoneStops(acted: seq<StoredMessage>, from: nat) {
    forall i :: from <= i < |acted| ==> !Stops(acted[i])
  }

  ghost predicate LastStops(acted: seq<StoredMessage>, from: nat) {
    from < |acted| && Stops(acted[|acted| - 1]) && forall i :: from <= i < |acted| - 1 ==> !Stops(acted[i])
  }

  ghost predicate StopsIf(acted: seq<StoredMessage>, from: nat, stopped: bool) {
    if stopped then LastStops(acted, from) else NoneStops(acted, from)
  }

  /** One page: every message on it is acted on, in order, up to the first that fails. */
  method ReplayPage(store: StoreHandle, page: seq<StoredMessage>) returns (ok: bool)
    modifies store
    ensures (store.state, ok) == ActOnAll(old(store.state), page)
    ensures old(store.acted) <= store.acted <= old(store.acted) + page
    ensures (ok ==> store.acted == old(store.acted) + page) && StopsIf(store.acted, |old(store.acted)|, !ok)
  {
    ok := true;
    var i := 0;
    while i < |page|
      invariant 0 <= i <= |page| && ok && store.acted == old(store.acted) + page[..i]
      invariant NoneStops(store.acted, |old(store.acted)|)
      invariant ActOnAll(store.state, page[i..]) == ActOnAll(old(store.state), page)
    {
      assert page[i..][0] == page[i] && page[i..][1..] == page[i + 1..];
      ControlStops(store.state, page[i]);
      var r := store.ApplyControlMessage(page[i]);
      if r.Err? {
        return false;
      }
      i := i + 1;
    }
  }

  lemma PageReads(base: Store, done: set<Span>, log: LogKey, from: u64, page: seq<StoredMessage>)
    requires Valid(base) && 1 <= from <= CurrentHead(base, log)
    requires IsPage(Erase(base, done), log, from, CurrentHead(base, log), 1000, page)
    ensures page != [] && from + |page| <= CurrentHead(base, log) + 1 && ReadsFrom(base, done, log, from, page)
    ensures page[|page| - 1].headId == from + |page| - 1
  {
    EraseKeepsValid(base, done);
    var s := Erase(base, done);
    forall i | 0 <= i < |page|
      ensures ReadFrom(base, done, Slot(log, from + i), page[i]) && page[i].headId == from + i
    {
      assert page[i] ==
             s.messages[Slot(log, from + i)] && s.messages[Slot(log, from + i)].Position() == Slot(log, from + i);
    }
  }

  /**
   * Copies of the first `n` messages of a log, in order, that differ from the stored ones at most in the deleted flag.
   */
  ghost predicate IsLog(base: Store, log: LogKey, n: nat, copies: seq<StoredMessage>) {
    |copies| == n <= U64_MAX && forall i: nat {:trigger IsCopy(base, log, copies, i)} ::
      i < n ==> IsCopy(base, log, copies, i)
  }

  ghost predicate IsCopy(base: Store, log: LogKey, copies: seq<StoredMessage>, i: nat)
    requires i < |copies| <= U64_MAX
  {
    Slot(log, i + 1) in base.messages && base.messages[Slot(log, i + 1)].Same(copies[i])
  }

  lemma LogExtends(base: Store, applied: set<Span>, log: LogKey, n: nat, copies: seq<StoredMessage>,
      page: seq<StoredMessage>)
    requires IsLog(base, log, n, copies) && ReadsFrom(base, applied, log, n + 1, page)
    ensures IsLog(base, log, n + |page|, copies + page)
  {
    var longer := copies + page;
    forall i: nat | i < n + |page| ensures IsCopy(base, log, longer, i) {
      if i < n {
        assert IsCopy(base, log, copies, i);
      } else {
        assert longer[i] == page[i - n];
      }
    }
  }

  /** What is known of the store after some passes: it is `base` without the ranges of some of its markers. */
  ghost predicate Erased(base: Store, s: Store, applied: set<Span>) {
    s == Erase(base, applied) && applied <= Markers(base)
  }

  /** Everything before head `from` was acted on, in order, and its markers are in effect. */
  ghost predicate ActedBelow(base: Store, s: Store, applied: set<Span>, log: LogKey, from: nat,
      copies: seq<StoredMessage>) {
    from > 0 && Erased(base, s, applied) && HandledBelow(s, applied, log, from) && IsLog(base, log, from - 1, copies)
  }

  /** Where a scan stands between passes; at the largest head it stands still. */
  ghost predicate ScanOk(base: Store, s: Store, applied: set<Span>, log: LogKey, from: nat,
      copies: seq<StoredMessage>) {
    && Erased(base, s, applied) && 1 <= from <= CurrentHead(base, log) + 1
    && (ActedBelow(base, s, applied, log, from, copies) || from == U64_MAX == CurrentHead(base, log))
  }

  lemma ErasesMore(base: Store, done: set<Span>, more: set<Span>)
    requires done <= Markers(base) && more <= Markers(base)
    ensures Erased(base, Erase(Erase(base, done), more), done + more)
  {
    EraseErase(base, done, more);
  }

  lemma ScanMovesOn(base: Store, done: set<Span>, log: LogKey, from: u64, copies: seq<StoredMessage>,
      page: seq<StoredMessage>,
      more: set<Span>, s: Store)
    requires ScanOk(base, Erase(base, done), done, log, from, copies) && from <= CurrentHead(base, log)
    requires page != [] && ReadsFrom(base, done, log, from, page) && from + |page| <= CurrentHead(base, log) + 1
    requires more == done + MarkersOn(page) && Erased(base, s, more)
    ensures ScanOk(base, s, more, log, Next(from + |page| - 1), copies + page)
  {
    if ActedBelow(base, Erase(base, done), done, log, from, copies) {
      HandledPage(base, done, log, from, page);
      LogExtends(base, done, log, from - 1, copies, page);
    }
  }

  lemma ScanStarts(base: Store, s: Store, done: set<Span>, log: LogKey)
    requires Valid(base) && Erased(base, s, done)
    ensures ScanOk(base, s, done, log, 1, [])
  {
    forall slot: Slot | slot.log == log && slot.head < 1 ensures Handled(s, done, slot) {
      assert slot !in base.messages;
    }
    assert ActedBelow(base, s, done, log, 1, []);
  }

  /** The facts about a scan, with the ranges in effect left open. */
  ghost predicate Stands(base: Store, done: set<Span>, log: LogKey, s: Store, from: nat, copies: seq<StoredMessage>) {
    exists applied :: done <= applied && ScanOk(base, s, applied, log, from, copies)
  }

  ghost predicate Through(base: Store, done: set<Span>, log: LogKey, s: Store, copies: seq<StoredMessage>) {
    exists applied :: done <= applied && ActedBelow(base, s, applied, log, CurrentHead(base, log) + 1, copies)
  }

  ghost predicate SomeErased(base: Store, done: set<Span>, s: Store) {
    exists applied :: done <= applied && Erased(base, s, applied)
  }

  lemma PageOk(read: Reader, base: Store, s: Store, applied: set<Span>, log: LogKey, from: u64,
      copies: seq<StoredMessage>,
      page: seq<StoredMessage>)
    returns (more: set<Span>)
    requires Reads(read, log) && page == read(s, from)
    requires Valid(base) && ScanOk(base, s, applied, log, from, copies) && from <= CurrentHead(base, log)
    ensures page != [] && applied <= more && Erased(base, ActOnAll(s, page).0, more)
    ensures ActOnAll(s, page).1 ==>
            ScanOk(base, ActOnAll(s, page).0, more, log, Next(page[|page| - 1].headId), copies + page)
  {
    EraseKeepsValid(base, applied);
    PageReads(base, applied, log, from, page);
    var k := ActingErasesSome(s, page);
    more := applied + MarkersOn(page[..k]);
    MarkersAreStored(base, applied, log, from, page, k);
    ErasesMore(base, applied, MarkersOn(page[..k]));
    if ActOnAll(s, page).1 {
      assert page[..k] == page;
      ScanMovesOn(base, applied, log, from, copies, page, more, ActOnAll(s, page).0);
    }
  }

  lemma PassOk(read: Reader, s: Store, from: u64, log: LogKey, base: Store, done: set<Span>,
      copies: seq<StoredMessage>, scan: Scan)
    requires Reads(read, log) && Valid(base) && Stands(base, done, log, s, from, copies)
    requires scan == Pass(read, s, CurrentHead(base, log), from)
    ensures SomeErased(base, done, scan.store)
    ensures scan.Running? ==> Stands(base, done, log, scan.store, scan.from, copies + read(s, from))
    ensures scan.Finished? ==> Through(base, done, log, scan.store, copies)
  {
    var applied :| done <= applied && ScanOk(base, s, applied, log, from, copies);
    if from <= CurrentHead(base, log) {
      var more := PageOk(read, base, s, applied, log, from, copies, read(s, from));
      assert done <= more;
    } else {
      assert ActedBelow(base, s, applied, log, CurrentHead(base, log) + 1, copies);
    }
  }

  /** The messages acted on in the passes that do not end the replay. */
  function ActedIn(read: Reader, s: Store, head: u64, from: u64, n: nat): seq<StoredMessage>
    decreases n
  {
    if n == 0 then
      []
    else
      var scan := Pass(read, s, head, from);
      if scan.Running? then read(s, from) + ActedIn(read, scan.store, head, scan.from, n - 1) else []
  }

  type Standing = (Store, u64, seq<StoredMessage>) -> bool

  /** What passes keep and what they end with. */
  ghost predicate PassKeeps(read: Reader, head: u64, inv: Standing, through: (Store, seq<StoredMessage>) -> bool,
      left: Store -> bool,
      s: Store, from: u64, copies: seq<StoredMessage>)
  {
    var scan := Pass(read, s, head, from);
    && left(scan.store)
    && (scan.Running? ==> inv(scan.store, scan.from, copies + read(s, from)))
    && (scan.Finished? ==> through(scan.store, copies))
  }

  lemma {:induction false} PassesKeep(read: Reader, head: u64, inv: Standing,
      through: (Store, seq<StoredMessage>) -> bool,
      left: Store -> bool, s: Store, from: u64, copies: seq<StoredMessage>, n: nat)
    requires forall s, from, copies {:trigger inv(s, from, copies)} ::
               inv(s, from, copies) ==> left(s) && PassKeeps(read, head, inv, through, left, s, from, copies)
    requires inv(s, from, copies)
    ensures left(Passes(read, s, head, from, n).store)
    ensures Passes(read, s, head, from, n).Finished? ==>
              through(Passes(read, s, head, from, n).store, copies + ActedIn(read, s, head, from, n))
    decreases n
  {
    assert copies + [] == copies;
    if n > 0 {
      var scan := Pass(read, s, head, from);
      assert PassKeeps(read, head, inv, through, left, s, from, copies);
      if scan.Running? {
        var longer := copies + read(s, from);
        PassesKeep(read, head, inv, through, left, scan.store, scan.from, longer, n - 1);
        assert longer + ActedIn(read, scan.store, head, scan.from, n - 1) == copies + ActedIn(read, s, head, from, n);
      }
    }
  }

  /**
   * Any number of passes over a log leave the store without some markers' ranges; if they finish, with all of them in
   * effect.
   */
  lemma PassesOk(read: Reader, s: Store, log: LogKey, base: Store, done: set<Span>, n: nat)
    requires Reads(read, log) && Valid(base) && Erased(base, s, done)
    ensures var end := Passes(read, s, CurrentHead(base, log), 1, n);
            && SomeErased(base, done, end.store)
            && (end.Finished? ==> Through(base, done, log, end.store, ActedIn(read, s, CurrentHead(base, log), 1, n)))
  {
    var head := CurrentHead(base, log);
    var inv: Standing := (s: Store, from: u64, copies: seq<StoredMessage>) => Stands(base, done, log, s, from, copies);
    var through := (s, copies) => Through(base, done, log, s, copies);
    var left := s => SomeErased(base, done, s);
    forall s, from, copies | inv(s, from, copies)
      ensures left(s) && PassKeeps(read, head, inv, through, left, s, from, copies)
    {
      PassOk(read, s, from, log, base, done, copies, Pass(read, s, head, from));
    }
    ScanStarts(base, s, done, log);
    PassesKeep(read, head, inv, through, left, s, 1, [], n);
    var acted := ActedIn(read, s, head, 1, n);
    assert [] + acted == acted;
  }

  /** One pass. */
  method ReplayPass(read: Reader, store: StoreHandle, head: u64, from: u64) returns (scan: Scan)
    modifies store
    ensures scan == Pass(read, old(store.state), head, from) && store.state == scan.store
    ensures old(store.acted) <= store.acted
    ensures scan.Running? ==> store.acted == old(store.acted) + read(old(store.state), from)
    ensures scan.Finished? ==> store.acted == old(store.acted)
    ensures StopsIf(store.acted, |old(store.acted)|, scan.Halted?)
  {
    var page := read(store.state, from);
    if from > head || page == [] {
      return Finished(store.state);
    }
    var ok := ReplayPage(store, page);
    scan := if ok then Running(store.state, Next(page[|page| - 1].headId)) else Halted(store.state);
  }

  /** The loop over one log, for as many passes as the budget allows. */
  method ReplayWith(read: Reader, store: StoreHandle, head: u64, budget: nat) returns (end: Scan)
    modifies store
    ensures end == Passes(read, old(store.state), head, 1, budget) && store.state == end.store
    ensures old(store.acted) <= store.acted
    ensures !end.Halted? ==> store.acted == old(store.acted) + ActedIn(read, old(store.state), head, 1, budget)
    ensures StopsIf(store.acted, |old(store.acted)|, end.Halted?)
  {
    end := Running(store.state, 1);
    ghost var all := store.acted + ActedIn(read, store.state, head, 1, budget);
    var n := budget;
    while n > 0
      invariant end.Running? && end.store == store.state && old(store.acted) <= store.acted
      invariant NoneStops(store.acted, |old(store.acted)|)
      invariant Passes(read, store.state, head, end.from, n) == Passes(read, old(store.state), head, 1, budget)
      invariant store.acted + ActedIn(read, store.state, head, end.from, n) == all
    {
      ghost var acted := store.acted;
      ghost var rest := ActedIn(read, store.state, head, end.from, n);
      end := ReplayPass(read, store, head, end.from);
      if !end.Running? {
        assert end.Finished? ==> acted + rest == acted;
        return;
      }
      n := n - 1;
    }
  }

  // ---- All delete logs ----

  /**
   * Every stored message on the delete topic is a marker that names a range of an application log of its own origin.
   */
  ghost predicate HonestStore(s: Store) {
    forall slot {:trigger s.messages[slot]} :: slot in s.messages ==>
      && HonestMessage(s.messages[slot])
      && (s.messages[slot].IsMarker() ==> s.messages[slot].payload.range.topic != DELETE_TOPIC)
  }

  lemma MarkersSpared(base: Store, spans: set<Span>)
    requires Valid(base) && HonestStore(base) && spans <= Markers(base)
    ensures Markers(Erase(base, spans)) == Markers(base)
  {
    forall slot | slot in base.messages && base.messages[slot].IsMarker() ensures !CoveredBy(spans, slot) {
      forall t | t in spans ensures !t.Covers(slot) {
        var other :| other in base.messages && base.messages[other].IsMarker() &&
          base.messages[other].payload.range.Extent() == t;
        assert base.messages[slot].Position() == slot;
      }
    }
    forall slot | slot in base.messages
      ensures base.messages[slot].IsMarker() <==> Erase(base, spans).messages[slot].IsMarker() {
    }
  }

  lemma HonestStoreStaysSo(base: Store, spans: set<Span>)
    requires HonestStore(base)
    ensures HonestStore(Erase(base, spans))
  {
  }

  /** On an honest store nothing stops the replay. */
  lemma {:induction false} HonestPagesGoOn(s: Store, log: LogKey, p: nat)
    requires HonestStore(s)
    ensures HonestStore(After(s, log, p)) && !PageStops(s, log, p)
  {
    if p > 0 {
      HonestPagesGoOn(s, log, p - 1);
      HonestStoreStaysSo(After(s, log, p - 1), MarkersIn(After(s, log, p - 1), log, FirstOf(p - 1)));
    }
  }

  lemma HonestLogFinishes(s: Store, log: LogKey, budget: nat)
    requires Valid(s) && HonestStore(s)
    ensures var end := Passes(ReaderOf(log), s, CurrentHead(s, log), 1, budget);
            !end.Halted? && (CurrentHead(s, log) < U64_MAX && PagesOf(CurrentHead(s, log)) < budget ==> end.Finished?)
  {
    var head, read := CurrentHead(s, log), ReaderOf(log);
    ReaderReads(log);
    forall p: nat ensures !PageStops(s, log, p) {
      HonestPagesGoOn(s, log, p);
    }
    if head < U64_MAX {
      ReplayFinishes(read, s, log);
      if PagesOf(head) < budget {
        EndedStaysEnded(read, s, head, 1, PagesOf(head) + 1, budget);
      } else if !Passes(read, s, head, 1, budget).Running? {
        EndedStaysEnded(read, s, head, 1, budget, PagesOf(head) + 1);
      }
    } else {
      ReplayGoesOnForever(read, s, log, PagesOf(head), budget);
    }
  }

  method ReplayLogWith(read: Reader, store: StoreHandle, head: u64, budget: nat, ghost log: LogKey, ghost base: Store,
      ghost done: set<Span>)
    returns (end: Scan, ghost applied: set<Span>)
    requires Reads(read, log) && Valid(base) && Erased(base, store.state, done) && head == CurrentHead(base, log)
    modifies store
    ensures end == Passes(read, old(store.state), head, 1, budget) && store.state == end.store
    ensures done <= applied && Erased(base, store.state, applied) && old(store.acted) <= store.acted
    ensures StopsIf(store.acted, |old(store.acted)|, end.Halted?)
    ensures end.Finished? ==> ActedBelow(base, store.state, applied, log, head + 1, store.acted[|old(store.acted)|..])
  {
    PassesOk(read, store.state, log, base, done, budget);
    end := ReplayWith(read, store, head, budget);
    ghost var copies := store.acted[|old(store.acted)|..];
    if end.Finished? {
      SuffixOf(old(store.acted), ActedIn(read, old(store.state), head, 1, budget));
    }
    applied := AppliedBy(base, done, log, store.state, copies, end.Finished?);
  }

  /** The ranges that passes over a log have erased. */
  lemma AppliedBy(base: Store, done: set<Span>, log: LogKey, s: Store, copies: seq<StoredMessage>, finished: bool)
    returns (applied: set<Span>)
    requires SomeErased(base, done, s) && (finished ==> Through(base, done, log, s, copies))
    ensures done <= applied && Erased(base, s, applied)
    ensures finished ==> ActedBelow(base, s, applied, log, CurrentHead(base, log) + 1, copies)
  {
    if finished {
      applied :| done <= applied && ActedBelow(base, s, applied, log, CurrentHead(base, log) + 1, copies);
    } else {
      applied :| done <= applied && Erased(base, s, applied);
    }
  }

  /** One delete log: exactly the passes it takes, its messages acted on once each and in order when it finishes. */
  method ReplayLog(store: StoreHandle, head: TopicHead, budget: nat, ghost base: Store, ghost done: set<Span>)
    returns (end: Scan, ghost applied: set<Span>)
    requires Valid(base) && Erased(base, store.state, done) && head.headId == CurrentHead(base, head.Log())
    modifies store
    ensures end == Passes(ReaderOf(head.Log()), old(store.state), head.headId, 1, budget) && store.state == end.store
    ensures done <= applied && Erased(base, store.state, applied) && old(store.acted) <= store.acted
    ensures StopsIf(store.acted, |old(store.acted)|, end.Halted?) && (end.Running? ==> !Affordable(head.headId, budget))
    ensures end.Finished? ==>
              ActedBelow(base, store.state, applied, head.Log(), head.headId + 1, store.acted[|old(store.acted)|..])
  {
    ReaderReads(head.Log());
    if Affordable(head.headId, budget) {
      EraseKeepsValid(base, done);
      EndsInTime(ReaderOf(head.Log()), store.state, head.Log(), budget);
    }
    end, applied := ReplayLogWith(ReaderOf(head.Log()), store, head.headId, budget, head.Log(), base, done);
  }

  lemma AllHandled(base: Store, applied: set<Span>, listing: set<TopicHead>)
    requires Valid(base) && ListHeads(base) == Ok(listing)
    requires forall e :: e in listing ==> HandledHead(Erase(base, applied), applied, e)
    ensures Markers(Erase(base, applied)) <= applied
  {
    var s := Erase(base, applied);
    EraseKeepsValid(base, applied);
    ListHeadsIsTheHeads(base);
    forall slot | slot in s.messages && s.messages[slot].IsMarker()
      ensures s.messages[slot].payload.range.Extent() in applied
    {
      assert s.messages[slot].Position() == slot;
      assert slot.log in base.heads;
      var e := HeadEntry(base, slot.log);
      assert e in listing && e.Log() == slot.log && HandledHead(s, applied, e);
      assert Handled(s, applied, slot);
    }
  }

  ghost predicate HandledHead(s: Store, applied: set<Span>, e: TopicHead) {
    e.topic == DELETE_TOPIC ==> HandledBelow(s, applied, e.Log(), e.headId + 1)
  }

  /** Copies of whole logs, one after the other. */
  ghost predicate AreLogs(base: Store, order: seq<TopicHead>, copies: seq<StoredMessage>)
    decreases |order|
  {
    if order == [] then copies == []
    else
      var n := |order| - 1;
      var rest := |copies| - order[n].headId;
      rest >= 0 && IsLog(base, order[n].Log(), order[n].headId, copies[rest..]) &&
        AreLogs(base, order[..n], copies[..rest])
  }

  lemma LogsExtend(base: Store, order: seq<TopicHead>, copies: seq<StoredMessage>, head: TopicHead,
      more: seq<StoredMessage>)
    requires AreLogs(base, order, copies) && IsLog(base, head.Log(), head.headId, more)
    ensures AreLogs(base, order + [head], copies + more)
  {
    var longer, all := order + [head], copies + more;
    assert longer[..|order|] == order && all[..|copies|] == copies && all[|copies|..] == more;
  }

  /** The delete heads among some heads, each once. */
  ghost predicate Once(order: seq<TopicHead>, heads: set<TopicHead>) {
    && (forall e {:trigger IsListed(order, heads, e)} :: IsListed(order, heads, e))
    && (forall i, j :: 0 <= i < j < |order| ==> order[i] != order[j])
  }

  ghost predicate IsListed(order: seq<TopicHead>, heads: set<TopicHead>, e: TopicHead) {
    e in order <==> e in heads && e.topic == DELETE_TOPIC
  }

  lemma OnceMore(order: seq<TopicHead>, heads: set<TopicHead>, head: TopicHead)
    requires Once(order, heads) && head !in heads
    ensures Once(WithHead(order, head), heads + {head})
  {
    var longer := WithHead(order, head);
    assert IsListed(order, heads, head);
    forall e ensures IsListed(longer, heads + {head}, e) {
      assert IsListed(order, heads, e);
    }
    forall i, j | 0 <= i < j < |longer| ensures longer[i] != longer[j] {
      assert j == |order| ==> longer[i] in order;
    }
  }

  /** How the replay ended; `Unfinished` stands for a log that took more passes than the budget allowed. */
  datatype End = Done | Stopped | Unfinished

  /** What holds between two logs: those seen so far have been acted on, one after the other. */
  ghost predicate LogsOk(base: Store, s: Store, applied: set<Span>, order: seq<TopicHead>, seen: set<TopicHead>,
      copies: seq<StoredMessage>) {
    && Erased(base, s, applied) && Once(order, seen) && AreLogs(base, order, copies)
    && forall e {:trigger HandledHead(s, applied, e)} :: e in seen ==> HandledHead(s, applied, e)
  }

  lemma LogsOkMore(base: Store, before: Store, s: Store, done: set<Span>, applied: set<Span>, order: seq<TopicHead>,
      seen: set<TopicHead>, copies: seq<StoredMessage>, head: TopicHead, more: seq<StoredMessage>)
    requires LogsOk(base, before, done, order, seen, copies) && head !in seen && done <= applied
    requires HeadActedOn(base, before, s, done, applied, head, more)
    ensures LogsOk(base, s, applied, WithHead(order, head), seen + {head}, copies + more)
  {
    forall e | e in seen + {head} ensures HandledHead(s, applied, e) {
      if e != head && e.topic == DELETE_TOPIC {
        assert HandledHead(before, done, e);
        HandledBelowGrows(base, done, applied, e.Log(), e.headId + 1);
      }
    }
    OnceMore(order, seen, head);
    if head.topic == DELETE_TOPIC {
      LogsExtend(base, order, copies, head, more);
    } else {
      assert copies + more == copies;
    }
  }

  /** The budget covers a log: it has an end, and enough passes to get there. */
  predicate Affordable(head: u64, budget: nat) {
    head < U64_MAX && PagesOf(head) < budget
  }

  predicate HeadAffordable(e: TopicHead, budget: nat) {
    e.topic == DELETE_TOPIC ==> Affordable(e.headId, budget)
  }

  ghost predicate HeadsAffordable(listing: set<TopicHead>, budget: nat) {
    forall e {:trigger HeadAffordable(e, budget)} :: e in listing ==> HeadAffordable(e, budget)
  }

  ghost predicate HeadIs(base: Store, e: TopicHead) {
    e.headId == CurrentHead(base, e.Log())
  }

  /** One listed head: if it is a delete log's, that log. */
  method ReplayHead(store: StoreHandle, head: TopicHead, budget: nat, ghost base: Store, ghost done: set<Span>)
    returns (end: End, ghost applied: set<Span>, ghost more: seq<StoredMessage>)
    requires Valid(base) && Erased(base, store.state, done) && head.headId == CurrentHead(base, head.Log())
    modifies store
    ensures done <= applied && Erased(base, store.state, applied) && old(store.acted) <= store.acted
    ensures StopsIf(store.acted, |old(store.acted)|, end.Stopped?)
    ensures end.Unfinished? ==> !HeadAffordable(head, budget)
    ensures end.Done? ==>
            store.acted == old(store.acted) + more &&
              HeadActedOn(base, old(store.state), store.state, done, applied, head, more)
    ensures HonestStore(base) ==> !end.Stopped?
    ensures HonestStore(base) && HeadAffordable(head, budget) ==> end.Done?
  {
    end, applied, more := Done, done, [];
    if head.topic == DELETE_TOPIC {
      if HonestStore(base) {
        HonestStoreStaysSo(base, done);
        EraseKeepsValid(base, done);
        HonestLogFinishes(store.state, head.Log(), budget);
      }
      var scan;
      scan, applied := ReplayLog(store, head, budget, base, done);
      end := match scan case Finished(_) => Done case Halted(_) => Stopped case Running(_, _) => Unfinished;
      more := store.acted[|old(store.acted)|..];
    }
  }

  /** A head's log was acted on, or the head is not a delete log's and nothing happened. */
  ghost predicate HeadActedOn(base: Store, before: Store, s: Store, done: set<Span>, applied: set<Span>,
      head: TopicHead,
      more: seq<StoredMessage>)
  {
    if head.topic == DELETE_TOPIC then ActedBelow(base, s, applied, head.Log(), head.headId + 1, more)
    else s == before && applied == done && more == []
  }

  function WithHead(order: seq<TopicHead>, head: TopicHead): seq<TopicHead> {
    if head.topic == DELETE_TOPIC then order + [head] else order
  }

  lemma NothingYet(base: Store, s: Store)
    requires Erased(base, s, {})
    ensures LogsOk(base, s, {}, [], {}, [])
  {
    forall e ensures IsListed([], {}, e) {
    }
  }

  ghost predicate Split(listing: set<TopicHead>, todo: set<TopicHead>, seen: set<TopicHead>) {
    todo + seen == listing && todo !! seen
  }

  lemma SeenMore(listing: set<TopicHead>, todo: set<TopicHead>, seen: set<TopicHead>, head: TopicHead)
    requires Split(listing, todo, seen) && head in todo
    ensures Split(listing, todo - {head}, seen + {head})
  {
  }

  lemma SuffixOf<T>(a: seq<T>, b: seq<T>)
    ensures (a + b)[|a|..] == b
  {
  }

  lemma Regroup<T>(a: seq<T>, b: seq<T>, c: seq<T>)
    ensures (a + b) + c == a + (b + c)
  {
  }

  method ReplayNext(store: StoreHandle, head: TopicHead, budget: nat, ghost base: Store, ghost done: set<Span>,
      ghost order: seq<TopicHead>, ghost seen: set<TopicHead>, ghost before: seq<StoredMessage>,
      ghost copies: seq<StoredMessage>)
    returns (end: End, ghost applied: set<Span>, ghost longer: seq<StoredMessage>)
    requires Valid(base) && LogsOk(base, store.state, done, order, seen, copies) && store.acted == before + copies
    requires head !in seen && HeadIs(base, head)
    modifies store
    ensures Erased(base, store.state, applied) && before <= store.acted && old(store.acted) <= store.acted
    ensures StopsIf(store.acted, |old(store.acted)|, end.Stopped?)
    ensures end.Unfinished? ==> !HeadAffordable(head, budget)
    ensures end.Done? ==>
              LogsOk(base, store.state, applied, WithHead(order, head), seen + {head}, longer) &&
                store.acted == before + longer
    ensures HonestStore(base) ==> !end.Stopped?
    ensures HonestStore(base) && HeadAffordable(head, budget) ==> end.Done?
  {
    ghost var more;
    end, applied, more := ReplayHead(store, head, budget, base, done);
    longer := copies + more;
    if end.Done? {
      LogsOkMore(base, old(store.state), store.state, done, applied, order, seen, copies, head, more);
      Regroup(before, copies, more);
    }
  }

  /** The loop over the listed heads, in whatever order they come. */
  method ReplayLogs(store: StoreHandle, listing: set<TopicHead>, budget: nat, ghost base: Store)
    returns (end: End, ghost applied: set<Span>, ghost order: seq<TopicHead>)
    requires Valid(base) && Erased(base, store.state, {})
    requires forall e {:trigger HeadIs(base, e)} :: e in listing ==> HeadIs(base, e)
    modifies store
    ensures Erased(base, store.state, applied) && old(store.acted) <= store.acted
    ensures StopsIf(store.acted, |old(store.acted)|, end.Stopped?)
    ensures end.Unfinished? ==> !HeadsAffordable(listing, budget)
    ensures end.Done? ==> LogsOk(base, store.state, applied, order, listing, store.acted[|old(store.acted)|..])
    ensures HonestStore(base) ==> !end.Stopped?
    ensures HonestStore(base) && HeadsAffordable(listing, budget) ==> end.Done?
  {
    applied, order, end := {}, [], Done;
    NothingYet(base, store.state);
    ghost var before, copies := store.acted, [];
    var todo := listing;
    ghost var seen := {};
    while todo != {}
      invariant Split(listing, todo, seen) && store.acted == before + copies && end.Done?
      invariant LogsOk(base, store.state, applied, order, seen, copies) && NoneStops(store.acted, |before|)
      decreases |todo|
    {
      var head :| head in todo;
      assert HeadIs(base, head) && (HeadAffordable(head, budget) || !HeadAffordable(head, budget));
      end, applied, copies := ReplayNext(store, head, budget, base, applied, order, seen, before, copies);
      if !end.Done? {
        return;
      }
      SeenMore(listing, todo, seen, head);
      order, seen, todo := WithHead(order, head), seen + {head}, todo - {head};
    }
    SuffixOf(before, copies);
  }

  predicate AllAffordable(s: Store, budget: nat) {
    forall log :: log in s.heads && log.topic == DELETE_TOPIC ==> Affordable(s.heads[log], budget)
  }

  /**
   * `replay_control_messages` acts on the messages of each delete log once, in order, one log after the other, and
   * changes nothing but to erase ranges of stored markers. If it gets through, every marker still standing has taken
   * effect. It fails exactly if it comes to a message that cannot be acted on, which is then the last it acts on, and
   * runs out of passes only if some delete log has no end or more pages than that. On an honest store it never fails,
   * and given enough passes it leaves exactly the markers' ranges erased.
   */
  method ReplayControlMessages(store: StoreHandle, budget: nat)
    returns (end: End, ghost applied: set<Span>, ghost order: seq<TopicHead>)
    requires Valid(store.state)
    modifies store
    ensures Erased(old(store.state), store.state, applied) && old(store.acted) <= store.acted
    ensures StopsIf(store.acted, |old(store.acted)|, end.Stopped?)
    ensures end.Unfinished? ==> !AllAffordable(old(store.state), budget)
    ensures end.Done? ==> ListHeads(old(store.state)).Ok? && Markers(store.state) <= applied
    ensures end.Done? ==>
              && Once(order, ListHeads(old(store.state)).value)
              && AreLogs(old(store.state), order, store.acted[|old(store.acted)|..])
    ensures HonestStore(old(store.state)) ==> !end.Stopped? && (end.Done? ==> applied == Markers(old(store.state)))
    ensures HonestStore(old(store.state)) && AllAffordable(old(store.state), budget) ==> end.Done?
  {
    ghost var base := store.state;
    assert Erase(base, {}) == base;
    ListHeadsIsTheHeads(base);
    var listing := ListHeads(store.state).value;
    end, applied, order := ReplayLogs(store, listing, budget, base);
    if end.Done? {
      AllHandled(base, applied, listing);
    }
    if HonestStore(base) {
      MarkersSpared(base, applied);
    }
  }

  /** After any replay that succeeded, a second one changes nothing, whatever markers it applies. */
  lemma ReplayedStoreIsStable(s: Store, applied: set<Span>, again: set<Span>)
    requires Valid(s) && Markers(Erase(s, applied)) <= applied && again <= Markers(Erase(s, applied))
    ensures Erase(Erase(s, applied), again) == Erase(s, applied)
  {
    EraseKeepsValid(s, applied);
    EraseRecorded(Erase(s, applied), again);
  }
}
