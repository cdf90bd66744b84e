/** What every run of store operations keeps, and which operations may be reordered. */
module StoreLaws {
  import opened Domain
  import opened StoreModel

  // ---- The invariant ----

  lemma CoveredByUnion(a: set<Span>, b: set<Span>, slot: Slot)
    ensures CoveredBy(a + b, slot) <==> CoveredBy(a, slot) || CoveredBy(b, slot)
  {
    if t :| t in a && t.Covers(slot) {
      assert t in a + b;
    }
    if t :| t in b && t.Covers(slot) {
      assert t in a + b;
    }
  }

  lemma EraseKeepsValid(s: Store, spans: set<Span>)
    requires Valid(s)
    ensures Valid(Erase(s, spans))
  {
    forall slot | slot in s.messages
      ensures CoveredBy(s.tombstones + spans, slot) ==> Erase(s, spans).messages[slot].deleted
    {
      CoveredByUnion(s.tombstones, spans, slot);
    }
  }

  /** Writing a message at or right after a log's head keeps the store valid. */
  lemma InsertKeepsValid(s: Store, s': Store, m: StoredMessage)
    requires Valid(s) && 1 <= m.headId <= CurrentHead(s, m.Log()) + 1
    requires CoveredBy(s.tombstones, m.Position()) ==> m.deleted
    requires s'.tombstones == s.tombstones && s'.messages == s.messages[m.Position() := m]
    requires s'.heads == s.heads[m.Log() := Max(CurrentHead(s, m.Log()), m.headId)]
    ensures Valid(s')
  {
    InsertKeepsHeads(s, s', m.Log(), m.headId);
    assert forall slot {:trigger s'.messages[slot]} :: slot in s'.messages ==> s'.messages[slot].Position() == slot;
  }

  lemma InsertKeepsHeads(s: Store, s': Store, log: LogKey, head: u64)
    requires forall slot {:trigger slot in s.messages} ::
        slot in s.messages <==> slot.log in s.heads && 1 <= slot.head <= s.heads[slot.log]
    requires s'.messages.Keys == s.messages.Keys + {Slot(log, head)} && 1 <= head <= CurrentHead(s, log) + 1
    requires s'.heads == s.heads[log := Max(CurrentHead(s, log), head)]
    ensures forall slot {:trigger slot in s'.messages} ::
        slot in s'.messages <==> slot.log in s'.heads && 1 <= slot.head <= s'.heads[slot.log]
  {
    forall slot ensures slot in s'.messages <==> slot.log in s'.heads && 1 <= slot.head <= s'.heads[slot.log] {
      assert slot in s'.messages.Keys <==> slot in s.messages || slot == Slot(log, head);
      assert slot in s.messages <==> slot.log in s.heads && 1 <= slot.head <= s.heads[slot.log];
    }
  }

  lemma AppendKeepsValid(s: Store, message: NewMessage, now: u64)
    requires Valid(s)
    ensures Valid(Append(s, message, now).0)
  {
    InsertKeepsValid(s, Append(s, message, now).0, Fresh(s, message, now));
  }

  lemma PutKeepsValid(s: Store, incoming: StoredMessage)
    requires Valid(s)
    ensures Valid(PutReplicated(s, incoming).0)
  {
    var m := Stamp(s, incoming);
    if PutReplicated(s, incoming).1 == Ok(Inserted) {
      assert m.Position() in s.messages ==> m.Log() in s.heads && m.headId <= s.heads[m.Log()];
      var s' := Install(s, m);
      assert s'.heads == s.heads[m.Log() := Max(CurrentHead(s, m.Log()), m.headId)];
      InsertKeepsValid(s, s', m);
    }
  }

  lemma StepKeepsValid(s: Store, op: Op)
    requires Valid(s)
    ensures Valid(Step(s, op).0)
    ensures Step(s, op).1.Failed? ==> Step(s, op).0 == s
  {
    match op
    case AppendOp(message, now) => AppendKeepsValid(s, message, now);
    case PutOp(incoming) => PutKeepsValid(s, incoming);
    case TombstoneOp(topic, origin, from, to, _) => EraseKeepsValid(s, {Span(LogKey(topic, origin.Key()), from, to)});
    case DeleteOp(range, markerTopic, markerOrigin, id, now) =>
      EraseKeepsValid(s, {range.Extent()});
      AppendKeepsValid(Erase(s, {range.Extent()}), MarkerFor(id, range, markerTopic, markerOrigin), now);
    case _ =>
  }

  /** Every run from a valid store, in particular from the empty one, stays valid. */
  lemma {:induction false} RunKeepsValid(s: Store, ops: seq<Op>)
    requires Valid(s)
    ensures Valid(Run(s, ops).0)
    decreases |ops|
  {
    if ops != [] {
      StepKeepsValid(s, ops[0]);
      RunKeepsValid(Step(s, ops[0]).0, ops[1..]);
    }
  }

  /** In a valid store `list_heads` succeeds and names each log with a head exactly once. */
  lemma ListHeadsIsTheHeads(s: Store)
    requires Valid(s)
    ensures ListHeads(s).Ok? && |ListHeads(s).value| == |s.heads|
    ensures forall e :: e in ListHeads(s).value ==> e.Log() in s.heads && s.heads[e.Log()] == e.headId
    ensures forall log :: log in s.heads ==> HeadEntry(s, log) in ListHeads(s).value && HeadEntry(s, log).Log() == log
  {
    forall log | log in s.heads ensures Slot(log, s.heads[log]) in s.messages && HeadEntry(s, log).Log() == log {
      assert Slot(log, s.heads[log]) in s.messages;
    }
    SameSize(s, s.heads.Keys);
    assert ListHeads(s).value == set log | log in s.heads.Keys :: HeadEntry(s, log);
  }

  lemma {:induction false} SameSize(s: Store, logs: set<LogKey>)
    requires logs <= s.heads.Keys
    requires forall log :: log in s.heads ==> Slot(log, s.heads[log]) in s.messages && HeadEntry(s, log).Log() == log
    ensures |set log | log in logs :: HeadEntry(s, log)| == |logs|
    decreases logs
  {
    if logs != {} {
      var log0 :| log0 in logs;
      SameSize(s, logs - {log0});
      var rest := set log | log in logs - {log0} :: HeadEntry(s, log);
      assert HeadEntry(s, log0) !in rest;
      assert (set log | log in logs :: HeadEntry(s, log)) == rest + {HeadEntry(s, log0)};
    }
  }

  lemma {:induction false} AscendingInterval(lo: nat, hi: nat, heads: set<nat>)
    requires forall h: nat :: h in heads <==> lo <= h <= hi
    ensures |Ascending(heads)| == if lo <= hi then hi - lo + 1 else 0
    ensures forall i :: 0 <= i < |Ascending(heads)| ==> Ascending(heads)[i] == lo + i
    decreases hi - lo
  {
    if lo > hi {
      assert heads == {};
    } else {
      var all := Ascending(heads);
      assert lo in heads && IsLeast(heads, all[0]);
      AscendingInterval(lo + 1, hi, heads - {lo});
    }
  }

  /**
   * In a valid store a page is the run of consecutive heads that starts at `from` (or at 1) and
   * stops at the limit or at the log's head, whichever comes first.
   */
  lemma PageIsConsecutive(s: Store, log: LogKey, from: u64, limit: nat)
    requires Valid(s)
    ensures IsPage(s, log, Max(from, 1), CurrentHead(s, log), limit, Page(s, log, from, limit))
  {
    StoredHeads(s, log, from);
    PageOfInterval(s, log, from, Max(from, 1), CurrentHead(s, log), limit);
  }

  /** A page is the messages from `first` on, in order, up to the limit or the head. */
  ghost predicate IsPage(s: Store, log: LogKey, first: nat, head: u64, limit: nat, page: seq<StoredMessage>) {
    && |page| == (if first <= head then Min(limit, head - first + 1) else 0)
    && forall i :: 0 <= i < |page| ==>
         first + i <= U64_MAX && Slot(log, first + i) in s.messages && page[i] == s.messages[Slot(log, first + i)]
  }

  lemma PageOfInterval(s: Store, log: LogKey, from: u64, first: nat, head: u64, limit: nat)
    requires forall h: nat :: h in HeadsFrom(s, log, from) <==> first <= h <= head
    ensures IsPage(s, log, first, head, limit, Page(s, log, from, limit))
  {
    var heads, page := Ascending(HeadsFrom(s, log, from)), Page(s, log, from, limit);
    AscendingInterval(first, head, HeadsFrom(s, log, from));
    PageElements(s, log, from, limit, heads);
    forall i | 0 <= i < |page|
      ensures first + i <= U64_MAX && Slot(log, first + i) in s.messages && page[i] == s.messages[Slot(log, first + i)]
    {
      assert heads[i] == first + i;
    }
  }

  lemma PageElements(s: Store, log: LogKey, from: u64, limit: nat, heads: seq<nat>)
    requires heads == Ascending(HeadsFrom(s, log, from))
    ensures |Page(s, log, from, limit)| == Min(limit, |heads|)
    ensures forall i :: 0 <= i < Min(limit, |heads|) ==>
              heads[i] <= U64_MAX && Slot(log, heads[i]) in s.messages &&
                Page(s, log, from, limit)[i] == s.messages[Slot(log, heads[i])]
  {
    forall i | 0 <= i < Min(limit, |heads|) ensures heads[i] <= U64_MAX && Slot(log, heads[i]) in s.messages {
      assert heads[i] in HeadsFrom(s, log, from);
    }
  }

  lemma StoredHeads(s: Store, log: LogKey, from: u64)
    requires Valid(s)
    ensures forall h: nat :: h in HeadsFrom(s, log, from) <==> Max(from, 1) <= h <= CurrentHead(s, log)
  {
    forall h: nat ensures h in HeadsFrom(s, log, from) <==> Max(from, 1) <= h <= CurrentHead(s, log) {
      if Max(from, 1) <= h <= CurrentHead(s, log) {
        assert Slot(log, h) in s.messages;
      }
    }
  }

  // ---- History is append-only ----

  /** `s'` holds everything `s` holds: heads only grow, messages only become deleted. */
  ghost predicate Extends(s: Store, s': Store) {
    && (forall log :: log in s.heads ==> log in s'.heads && s.heads[log] <= s'.heads[log])
    && (forall slot :: slot in s.messages ==> slot in s'.messages && s.messages[slot].Same(s'.messages[slot]))
    && (forall slot :: slot in s.messages && s.messages[slot].deleted ==> s'.messages[slot].deleted)
    && s.tombstones <= s'.tombstones
  }

  lemma ExtendsTransitive(a: Store, b: Store, c: Store)
    requires Extends(a, b) && Extends(b, c)
    ensures Extends(a, c)
  {
  }

  lemma EraseExtends(s: Store, spans: set<Span>)
    ensures Extends(s, Erase(s, spans))
  {
  }

  lemma PutExtends(s: Store, m: StoredMessage)
    ensures Extends(s, PutReplicated(s, m).0)
  {
  }

  /**
   * Appending a message with a fresh id keeps every stored message exactly when the log's head is
   * below the largest 64-bit value; at that value the saturated head id overwrites the last message.
   */
  lemma AppendExtendsIffRoom(s: Store, message: NewMessage, now: u64)
    requires Valid(s)
    requires forall slot :: slot in s.messages ==> s.messages[slot].id != message.id
    ensures Extends(s, Append(s, message, now).0) <==>
            CurrentHead(s, LogKey(message.topic, message.origin.Key())) < U64_MAX
  {
    var log := LogKey(message.topic, message.origin.Key());
    if CurrentHead(s, log) == U64_MAX {
      assert Slot(log, U64_MAX) in s.messages;
      assert !s.messages[Slot(log, U64_MAX)].Same(Append(s, message, now).0.messages[Slot(log, U64_MAX)]);
    }
  }

  ghost predicate Room(s: Store, op: Op) {
    match op
    case AppendOp(message, _) => CurrentHead(s, LogKey(message.topic, message.origin.Key())) < U64_MAX
    case DeleteOp(_, topic, origin, _, _) => CurrentHead(s, LogKey(topic, origin.Key())) < U64_MAX
    case _ => true
  }

  ghost predicate RoomThroughout(s: Store, ops: seq<Op>) {
    forall i :: 0 <= i < |ops| ==> Room(Run(s, ops[..i]).0, ops[i])
  }

  lemma AppendExtends(s: Store, message: NewMessage, now: u64)
    requires Valid(s) && CurrentHead(s, LogKey(message.topic, message.origin.Key())) < U64_MAX
    ensures Extends(s, Append(s, message, now).0)
  {
  }

  lemma StepExtends(s: Store, op: Op)
    requires Valid(s) && Room(s, op)
    ensures Extends(s, Step(s, op).0)
  {
    match op
    case AppendOp(message, now) => AppendExtends(s, message, now);
    case PutOp(incoming) => PutExtends(s, incoming);
    case TombstoneOp(topic, origin, from, to, _) => EraseExtends(s, {Span(LogKey(topic, origin.Key()), from, to)});
    case DeleteOp(range, topic, origin, id, now) =>
      if range.from <= range.to {
        var s1 := Erase(s, {range.Extent()});
        EraseKeepsValid(s, {range.Extent()});
        EraseExtends(s, {range.Extent()});
        AppendExtends(s1, MarkerFor(id, range, topic, origin), now);
        ExtendsTransitive(s, s1, Step(s, op).0);
      }
    case _ =>
  }

  /** Over any run, a stored message keeps its contents, stays deleted once deleted, and heads never decrease. */
  lemma {:induction false} RunExtends(s: Store, ops: seq<Op>)
    requires Valid(s) && RoomThroughout(s, ops)
    ensures Extends(s, Run(s, ops).0)
    decreases |ops|
  {
    if ops != [] {
      StepKeepsValid(s, ops[0]);
      var s1 := Step(s, ops[0]).0;
      assert ops[..0] == [] && Room(s, ops[0]);
      StepExtends(s, ops[0]);
      forall i | 0 <= i < |ops[1..]| ensures Room(Run(s1, ops[1..][..i]).0, ops[1..][i]) {
        assert ops[..i + 1][0] == ops[0] && ops[..i + 1][1..] == ops[1..][..i];
        assert Room(Run(s, ops[..i + 1]).0, ops[i + 1]);
      }
      RunExtends(s1, ops[1..]);
      ExtendsTransitive(s, s1, Run(s, ops).0);
    }
  }

  /** A successful replication repeated at once reports that the message is present and changes nothing. */
  lemma ReplicationIsIdempotent(s: Store, m: StoredMessage)
    requires PutReplicated(s, m).1.Ok?
    ensures PutReplicated(PutReplicated(s, m).0, m) == (PutReplicated(s, m).0, Ok(AlreadyPresent))
  {
  }

  // ---- Order independence ----

  lemma EraseErase(s: Store, a: set<Span>, b: set<Span>)
    ensures Erase(Erase(s, a), b) == Erase(s, a + b)
  {
    assert s.tombstones + a + b == s.tombstones + (a + b);
    forall slot | slot in s.messages
      ensures Erase(Erase(s, a), b).messages[slot] == Erase(s, a + b).messages[slot]
    {
      CoveredByUnion(a, b, slot);
    }
    assert Erase(Erase(s, a), b).messages == Erase(s, a + b).messages;
  }

  /** Erasing ranges that are already recorded changes nothing in a valid store. */
  lemma EraseRecorded(s: Store, spans: set<Span>)
    requires Valid(s) && spans <= s.tombstones
    ensures Erase(s, spans) == s
  {
    forall slot | slot in s.messages && CoveredBy(spans, slot) ensures s.messages[slot].deleted {
      var t :| t in spans && t.Covers(slot);
      assert t in s.tombstones && CoveredBy(s.tombstones, slot);
    }
    assert Erase(s, spans).messages == s.messages;
    assert s.tombstones + spans == s.tombstones;
  }

  /**
   * Range deletes commute, repeat harmlessly, and their counts add up to the number of live
   * messages in the union of the ranges, in either order.
   */
  lemma RangeDeletesCommute(s: Store, a: Span, b: Span)
    requires a.from <= a.to && b.from <= b.to
    ensures var (sa, ca) := Tombstone(s, a);
            var (sab, cab) := Tombstone(sa, b);
            var (sb, cb) := Tombstone(s, b);
            var (sba, cba) := Tombstone(sb, a);
            && sab == sba
            && ca.value + cab.value == cb.value + cba.value == |Live(s, {a, b})|
            && (a == b ==> sab == sa && cab.value == 0)
  {
    EraseErase(s, {a}, {b});
    EraseErase(s, {b}, {a});
    assert {a} + {b} == {a, b} == {b} + {a};
    CountsAdd(s, a, b);
    CountsAdd(s, b, a);
    assert {b, a} == {a, b};
    if a == b {
      assert {a, b} == {a};
    }
  }

  lemma CountsAdd(s: Store, a: Span, b: Span)
    ensures |Live(s, {a})| + |Live(Erase(s, {a}), {b})| == |Live(s, {a, b})|
  {
    LiveSplits(s, {a}, {b});
    assert {a} + {b} == {a, b};
  }

  lemma LiveSplits(s: Store, a: set<Span>, b: set<Span>)
    ensures |Live(s, a)| + |Live(Erase(s, a), b)| == |Live(s, a + b)|
  {
    var first, second := Live(s, a), Live(Erase(s, a), b);
    forall slot ensures slot in Live(s, a + b) <==> slot in first + second {
      CoveredByUnion(a, b, slot);
    }
    assert first !! second;
    assert Live(s, a + b) == first + second;
  }

  /** A sequence of range deletes, and how many messages they delete altogether; refused ones count for nothing. */
  function DeleteRanges(s: Store, spans: seq<Span>): (Store, nat)
    decreases |spans|
  {
    if spans == [] then
      (s, 0)
    else
      var (s1, changed) := Tombstone(s, spans[0]);
      var (s2, count) := DeleteRanges(s1, spans[1..]);
      (s2, (if changed.Ok? then changed.value else 0) + count)
  }

  /** The ranges among them that are not inverted. */
  function Accepted(spans: seq<Span>): set<Span> {
    set t | t in spans && t.from <= t.to
  }

  lemma AcceptedFirst(t: Span, rest: seq<Span>, spans: seq<Span>)
    requires spans == [t] + rest
    ensures Accepted(spans) == if t.from <= t.to then {t} + Accepted(rest) else Accepted(rest)
  {
  }

  /** A sequence of range deletes amounts to erasing a union of ranges at once, and counts what was live in it. */
  ghost predicate AddsUp(s: Store, spans: seq<Span>, union: set<Span>) {
    DeleteRanges(s, spans) == (Erase(s, union), |Live(s, union)|)
  }

  lemma NothingAddsUp(s: Store)
    ensures AddsUp(s, [], {})
  {
    assert Erase(s, {}).messages == s.messages;
    assert Live(s, {}) == {};
  }

  lemma OneMoreAddsUp(s: Store, t: Span, spans: seq<Span>, union: set<Span>)
    requires spans != [] && spans[0] == t && t.from <= t.to && AddsUp(Erase(s, {t}), spans[1..], union)
    ensures AddsUp(s, spans, {t} + union)
  {
    EraseErase(s, {t}, union);
    LiveSplits(s, {t}, union);
  }

  lemma RefusedAddsUp(s: Store, spans: seq<Span>, union: set<Span>)
    requires spans != [] && spans[0].from > spans[0].to && AddsUp(s, spans[1..], union)
    ensures AddsUp(s, spans, union)
  {
  }

  /** Any sequence of range deletes adds up to the ranges among them that are not inverted. */
  lemma {:induction false} RangeDeletesAddUp(s: Store, spans: seq<Span>)
    ensures AddsUp(s, spans, Accepted(spans))
    decreases |spans|
  {
    if spans == [] {
      NothingAddsUp(s);
    } else {
      var t, rest := spans[0], spans[1..];
      AcceptedFirst(t, rest, spans);
      if t.from <= t.to {
        RangeDeletesAddUp(Erase(s, {t}), rest);
        OneMoreAddsUp(s, t, spans, Accepted(rest));
      } else {
        RangeDeletesAddUp(s, rest);
        RefusedAddsUp(s, spans, Accepted(rest));
      }
    }
  }

  /** So the order of range deletes, and repeating one, makes no difference to the store or to the total. */
  lemma RangeDeletesInAnyOrder(s: Store, a: seq<Span>, b: seq<Span>)
    requires forall t :: t in a <==> t in b
    ensures DeleteRanges(s, a) == DeleteRanges(s, b)
  {
    RangeDeletesAddUp(s, a);
    RangeDeletesAddUp(s, b);
    assert Accepted(a) == Accepted(b);
  }

  lemma StampAfterErase(s: Store, m: StoredMessage, span: Span)
    ensures Stamp(Erase(s, {span}), m) == m.(deleted := Stamp(s, m).deleted || span.Covers(m.Position()))
    ensures forall slot :: CoveredBy({span}, slot) <==> span.Covers(slot)
  {
    CoveredByUnion(s.tombstones, {span}, m.Position());
    assert span in {span};
  }

  lemma EraseInstall(s: Store, m: StoredMessage, span: Span)
    ensures Erase(Install(s, m), {span}) ==
        Install(Erase(s, {span}), m.(deleted := m.deleted || span.Covers(m.Position())))
  {
    StampAfterErase(s, m, span);
    var left, right := Erase(Install(s, m), {span}), Install(Erase(s, {span}),
        m.(deleted := m.deleted || span.Covers(m.Position())));
    assert left.messages == right.messages;
  }

  lemma InstallStored(s: Store, m: StoredMessage)
    requires m.Position() in s.messages && s.messages[m.Position()] == m && m.headId <= CurrentHead(s, m.Log())
    ensures Install(s, m) == s
  {
  }

  /**
   * Replicating a message and deleting a range commute on the store, in every branch replication
   * takes. The reported outcome changes exactly when the slot already holds the same message with
   * the other deleted flag and the range covers it.
   */
  lemma PutAndDeleteCommute(s: Store, m: StoredMessage, span: Span)
    requires Valid(s)
    ensures Erase(PutReplicated(s, m).0, {span}) == PutReplicated(Erase(s, {span}), m).0
    ensures PutReplicated(s, m).1 == PutReplicated(Erase(s, {span}), m).1 <==>
            !(m.headId > 0 && span.Covers(m.Position()) && m.Position() in s.messages
              && s.messages[m.Position()].Same(m) && s.messages[m.Position()].deleted != Stamp(s, m).deleted)
  {
    StampAfterErase(s, m, span);
    EraseInstall(s, Stamp(s, m), span);
    if m.headId > 0 && m.Position() in s.messages && s.messages[m.Position()].Same(m) && span.Covers(m.Position()) {
      InstallStored(Erase(s, {span}), Stamp(Erase(s, {span}), m));
    }
  }
}
