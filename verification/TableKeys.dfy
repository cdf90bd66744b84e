/**
 * The string keys of the redb tables: distinct entries get distinct keys, and each log's keys form one ordered block.
 */
module TableKeys {
  import opened Domain
  import opened Encoding
  import opened Lexicographic
  import opened NodeKey

  function HeadKey(log: LogKey): string {
    "head/" + Enc(log.topic) + "/" + Enc(log.origin)
  }

  /** The encoded topic and origin of a head key. */
  function HeadKeyParts(key: string): Outcome<(string, string)> {
    if !("head/" <= key) then
      Err(Storage)
    else
      var parts := Split(key[5..], '/');
      if |parts| != 2 then Err(Storage) else Ok((parts[0], parts[1]))
  }

  function LogPrefix(kind: string, log: LogKey): string {
    kind + (Enc(log.topic) + "/" + (Enc(log.origin) + "/"))
  }

  function MessagePrefix(log: LogKey): string {
    LogPrefix("msg/", log)
  }

  function RawMessageKey(topicPart: string, originPart: string, head: u64): string {
    "msg/" + topicPart + "/" + originPart + "/" + Digits(head)
  }

  function MessageKey(slot: Slot): string {
    MessagePrefix(slot.log) + Digits(slot.head)
  }

  function TombstonePrefix(log: LogKey): string {
    LogPrefix("tombstone/", log)
  }

  function TombstoneKey(t: Span): string {
    TombstonePrefix(t.log) + (Digits(t.from) + "-" + Digits(t.to))
  }

  function FifoSequenceKey(queue: string): string {
    "fifo-seq/" + Enc(queue)
  }

  function FifoPrefix(queue: string): string {
    "fifo/" + (Enc(queue) + "/")
  }

  function FifoMessageKey(queue: string, sequence: u64): string {
    FifoPrefix(queue) + Digits(sequence)
  }

  // ---- Slash-free segments are recovered from a key ----

  lemma {:induction false} Segment(a: string, r: string, b: string, s: string)
    requires '/' !in a && '/' !in b && a + "/" + r == b + "/" + s
    ensures a == b && r == s
  {
    var left, right := a + "/" + r, b + "/" + s;
    assert left[|a|] == '/' == right[|b|];
    assert (a != "" ==> left[0] == a[0]) && (b != "" ==> right[0] == b[0]);
    if a == "" || b == "" {
      assert left[1..] == r && right[1..] == s;
    } else {
      assert left[1..] == a[1..] + "/" + r && right[1..] == b[1..] + "/" + s;
      Segment(a[1..], r, b[1..], s);
      assert a == [a[0]] + a[1..] && b == [b[0]] + b[1..];
    }
  }

  lemma SameTail(p: string, a: string, b: string)
    requires p + a == p + b
    ensures a == b
  {
    assert a == (p + a)[|p|..] && b == (p + b)[|p|..];
  }

  lemma TwoSegments(kind: string, a: string, b: string, r: string, a': string, b': string, r': string)
    requires '/' !in a && '/' !in b && '/' !in a' && '/' !in b'
    requires kind + (a + "/" + (b + "/" + r)) == kind + (a' + "/" + (b' + "/" + r'))
    ensures a == a' && b == b' && r == r'
  {
    SameTail(kind, a + "/" + (b + "/" + r), a' + "/" + (b' + "/" + r'));
    Segment(a, b + "/" + r, a', b' + "/" + r');
    Segment(b, r, b', r');
  }

  lemma HeadKeyShape(log: LogKey)
    ensures HeadKey(log) + "/" == "head/" + (Enc(log.topic) + "/" + (Enc(log.origin) + "/" + ""))
  {
  }

  lemma HeadKeyInjective(a: LogKey, b: LogKey)
    requires HeadKey(a) == HeadKey(b)
    ensures a == b
  {
    HeadKeyShape(a);
    HeadKeyShape(b);
    TwoSegments("head/", Enc(a.topic), Enc(a.origin), "", Enc(b.topic), Enc(b.origin), "");
    EncInjective(a.topic, b.topic);
    EncInjective(a.origin, b.origin);
  }

  /** A head key splits back into its two encoded parts, which name the message key of the log's head. */
  lemma HeadKeySplits(log: LogKey, head: u64)
    ensures HeadKeyParts(HeadKey(log)) == Ok((Enc(log.topic), Enc(log.origin)))
    ensures RawMessageKey(Enc(log.topic), Enc(log.origin), head) == MessageKey(Slot(log, head))
  {
    assert HeadKey(log) == "head/" + (Enc(log.topic) + ['/'] + Enc(log.origin));
    assert HeadKey(log)[5..] == Enc(log.topic) + ['/'] + Enc(log.origin);
    SplitPiece(Enc(log.topic), Enc(log.origin), '/');
    SplitWhole(Enc(log.origin), '/');
  }

  lemma LogPrefixShape(kind: string, log: LogKey, rest: string)
    ensures LogPrefix(kind, log) + rest == kind + (Enc(log.topic) + "/" + (Enc(log.origin) + "/" + rest))
  {
  }

  lemma LogPrefixTest(kind: string, a: LogKey, b: LogKey, tail: string)
    ensures LogPrefix(kind, a) <= LogPrefix(kind, b) + tail <==> a == b
  {
    if LogPrefix(kind, a) <= LogPrefix(kind, b) + tail {
      var key := LogPrefix(kind, b) + tail;
      var rest := key[|LogPrefix(kind, a)|..];
      assert key == LogPrefix(kind, a) + rest;
      LogPrefixShape(kind, a, rest);
      LogPrefixShape(kind, b, tail);
      TwoSegments(kind, Enc(a.topic), Enc(a.origin), rest, Enc(b.topic), Enc(b.origin), tail);
      EncInjective(a.topic, b.topic);
      EncInjective(a.origin, b.origin);
    }
  }

  /** A message key starts with a log's prefix exactly when the message is in that log. */
  lemma MessagePrefixTest(log: LogKey, slot: Slot)
    ensures MessagePrefix(log) <= MessageKey(slot) <==> slot.log == log
  {
    LogPrefixTest("msg/", log, slot.log, Digits(slot.head));
  }

  /** Within a log, message keys are ordered as the head ids are. */
  lemma MessageKeyOrder(log: LogKey, h: u64, h': u64)
    ensures LexLe(MessageKey(Slot(log, h)), MessageKey(Slot(log, h'))) <==> h <= h'
  {
    LexPrefix(MessagePrefix(log), Digits(h), Digits(h'));
    DigitsOrder(h, h');
  }

  lemma MessageKeyInjective(a: Slot, b: Slot)
    requires MessageKey(a) == MessageKey(b)
    ensures a == b
  {
    MessagePrefixTest(a.log, b);
    SameTail(MessagePrefix(a.log), Digits(a.head), Digits(b.head));
    DigitsOrder(a.head, b.head);
  }

  lemma TombstonePrefixTest(log: LogKey, t: Span)
    ensures TombstonePrefix(log) <= TombstoneKey(t) <==> t.log == log
  {
    LogPrefixTest("tombstone/", log, t.log, Digits(t.from) + "-" + Digits(t.to));
  }

  lemma TombstoneKeyInjective(a: Span, b: Span)
    requires TombstoneKey(a) == TombstoneKey(b)
    ensures a == b
  {
    TombstonePrefixTest(a.log, b);
    var x, y := Digits(a.from) + "-" + Digits(a.to), Digits(b.from) + "-" + Digits(b.to);
    SameTail(TombstonePrefix(a.log), x, y);
    assert Digits(a.from) == x[..20] == y[..20] == Digits(b.from);
    assert Digits(a.to) == x[21..] == y[21..] == Digits(b.to);
    DigitsOrder(a.from, b.from);
    DigitsOrder(a.to, b.to);
  }

  lemma FifoPrefixTest(a: string, b: string, tail: string)
    ensures FifoPrefix(a) <= FifoPrefix(b) + tail <==> a == b
  {
    if FifoPrefix(a) <= FifoPrefix(b) + tail {
      var rest := (FifoPrefix(b) + tail)[|FifoPrefix(a)|..];
      assert FifoPrefix(b) + tail == FifoPrefix(a) + rest;
      assert FifoPrefix(a) + rest == "fifo/" + (Enc(a) + "/" + rest);
      assert FifoPrefix(b) + tail == "fifo/" + (Enc(b) + "/" + tail);
      SameTail("fifo/", Enc(a) + "/" + rest, Enc(b) + "/" + tail);
      Segment(Enc(a), rest, Enc(b), tail);
      EncInjective(a, b);
    }
  }

  lemma FifoKeyInjective(a: string, i: u64, b: string, j: u64)
    requires FifoMessageKey(a, i) == FifoMessageKey(b, j)
    ensures a == b && i == j
  {
    FifoPrefixTest(a, b, Digits(j));
    SameTail(FifoPrefix(a), Digits(i), Digits(j));
    DigitsOrder(i, j);
  }

  lemma FifoKeyOrder(queue: string, i: u64, j: u64)
    ensures LexLe(FifoMessageKey(queue, i), FifoMessageKey(queue, j)) <==> i <= j
  {
    LexPrefix(FifoPrefix(queue), Digits(i), Digits(j));
    DigitsOrder(i, j);
  }

  lemma FifoSequenceKeyInjective(a: string, b: string)
    requires FifoSequenceKey(a) == FifoSequenceKey(b)
    ensures a == b
  {
    SameTail("fifo-seq/", Enc(a), Enc(b));
    EncInjective(a, b);
  }
}
