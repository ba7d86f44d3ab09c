/**
 The benchmark's message, `Data`, as its generated protobuf type holds it:
 an `int32` id, an optional `google.protobuf.Timestamp` and an `int64` jitter
 in microseconds. The byte encoding is produced by generated code that is not
 part of this model; encoding and decoding appear only as their outcomes.
 */
module Wire {
  import opened Optional
  import opened RustInt

  datatype Timestamp = Timestamp(seconds: int, nanos: int)

  datatype Data = Data(id: int, ts: Option<Timestamp>, jitter: int)

  /** Every field holds a value of its declared protobuf width. */
  predicate WellTyped(m: Data) {
    && IsI32(m.id)
    && IsI64(m.jitter)
    && (m.ts.Some? ==> IsI64(m.ts.value.seconds) && IsI32(m.ts.value.nanos))
  }

  /** A message as decoding produces it: every field within its width. */
  type Msg = m: Data | WellTyped(m) witness Data(0, None, 0)

  /**
   `msg.ts` read through the message field: an absent time stamp reads as
   the default `Timestamp`, zero seconds and zero nanoseconds.
   */
  function TsOrDefault(m: Data): (t: Timestamp)
    requires WellTyped(m)
    ensures IsI64(t.seconds) && IsI32(t.nanos)
    ensures m.ts.Some? ==> t == m.ts.value
    ensures m.ts.None? ==> t.seconds == 0 && t.nanos == 0
  {
    match m.ts
    case Some(t) => t
    case None => Timestamp(0, 0)
  }
}
