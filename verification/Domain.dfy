/** The domain types of the message bus: node identities, logs, messages and tombstones. */
module Domain {

  const U64_MAX: nat := 0xFFFF_FFFF_FFFF_FFFF
  const I64_MAX: nat := 0x7FFF_FFFF_FFFF_FFFF
  const U32_MAX: nat := 0xFFFF_FFFF

  type u64 = n: nat | n <= U64_MAX
  type u32 = n: nat | n <= U32_MAX
  type byte = n: nat | n < 256

  /** The reserved topic that carries delete markers. */
  const DELETE_TOPIC: string := "$msgbus.delete"

  datatype MsgbusError = InvalidArgument | NotFound | Conflict | Storage | Serialization | PermissionDenied

  datatype Outcome<+T> = Ok(value: T) | Err(error: MsgbusError)

  datatype NodeId = NodeId(tenantId: string, blName: string, deviceId: string) {
    function Key(): string {
      tenantId + "/" + blName + "/" + deviceId
    }
  }

  /** A log is named by its topic and the key of its origin, which is how both backends index it. */
  datatype LogKey = LogKey(topic: string, origin: string)

  /** One position of one log. */
  datatype Slot = Slot(log: LogKey, head: u64)

  /** A deleted range of one log. */
  datatype Span = Span(log: LogKey, from: u64, to: u64) {
    predicate Covers(slot: Slot) {
      slot.log == log && from <= slot.head <= to
    }
  }

  datatype TombstoneRange = TombstoneRange(topic: string, origin: NodeId, from: u64, to: u64, createdAtMs: u64) {
    function Extent(): Span {
      Span(LogKey(topic, origin.Key()), from, to)
    }
  }

  /**
   * A payload seen through the JSON codec, which is taken to be lossless: either bytes that do not
   * parse as a tombstone, or the encoding of one.
   */
  datatype Payload = Bytes(bytes: seq<byte>) | Encoded(range: TombstoneRange)

  datatype NewMessage = NewMessage(id: string, topic: string, origin: NodeId, payload: Payload, headers: map<string,
      string>)

  datatype StoredMessage = StoredMessage(
    id: string, topic: string, origin: NodeId, headId: u64, payload: Payload,
    headers: map<string, string>, createdAtMs: u64, deleted: bool)
  {
    function Log(): LogKey {
      LogKey(topic, origin.Key())
    }

    function Position(): Slot {
      Slot(Log(), headId)
    }

    /** Equality of everything but the deleted flag. */
    predicate Same(that: StoredMessage) {
      this.(deleted := that.deleted) == that
    }

    /** A delete marker that `apply_control_message` acts on. */
    predicate IsMarker() {
      topic == DELETE_TOPIC && !deleted && payload.Encoded? && payload.range.origin == origin
      && payload.range.from <= payload.range.to
    }
  }

  datatype TopicHead = TopicHead(topic: string, origin: NodeId, headId: u64) {
    function Log(): LogKey {
      LogKey(topic, origin.Key())
    }
  }

  datatype ReplicateResult = Inserted | AlreadyPresent

  function Min(a: nat, b: nat): nat {
    if a <= b then a else b
  }

  function Max(a: nat, b: nat): nat {
    if a <= b then b else a
  }

  /** Saturating increment of a head id or a sequence number. */
  function Next(n: u64): u64 {
    if n == U64_MAX then U64_MAX else n + 1
  }

  /** The number of messages one fetch may return. */
  function EffectiveLimit(limit: u32): (n: nat)
    ensures 1 <= n <= 10_000
  {
    if limit == 0 then 100 else Min(limit, 10_000)
  }
}
