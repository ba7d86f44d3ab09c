/**
 Time arithmetic of the benchmark. A Rust `Duration` (whole seconds in a `u64`
 plus nanoseconds below one second) is a number of nanoseconds here; an
 `Instant` is a nanosecond count on an arbitrary monotonic scale; a
 `SystemTime` is a signed nanosecond offset from the Unix epoch.
 */
module Time {
  import opened Optional
  import opened RustInt

  const NanosPerSec: nat := 1_000_000_000
  const NanosPerMilli: nat := 1_000_000
  const NanosPerMicro: nat := 1_000

  /** The largest `Duration`: `u64::MAX` seconds and 999 999 999 nanoseconds. */
  const MaxDuration: nat := U64Max * NanosPerSec + (NanosPerSec - 1)

  type Duration = d: nat | d <= MaxDuration

  /** A wall-clock reading as the platform stores it: seconds in an `i64`. */
  type SystemTime = w: int | I64Min * NanosPerSec <= w <= I64Max * NanosPerSec + (NanosPerSec - 1)

  /**
   `to_secs_and_nanos` (publisher): whole seconds as `i64` and the remaining
   nanoseconds as `i32`. The `as i32` cast never truncates; the `as i64` cast
   wraps only for durations beyond `i64::MAX` seconds.
   */
  function ToSecsAndNanos(d: Duration): (r: (int, int))
    ensures IsI64(r.0) && IsI32(r.1)
    ensures 0 <= r.1 < NanosPerSec && r.1 == d % NanosPerSec
    ensures (r.0 - d / NanosPerSec) % 0x1_0000_0000_0000_0000 == 0
    ensures d / NanosPerSec <= I64Max ==> 0 <= r.0 && r.0 * NanosPerSec + r.1 == d
    ensures d / NanosPerSec > I64Max ==> r.0 < 0
  {
    var seconds := d / NanosPerSec;      // d.as_secs()
    var part := seconds * NanosPerSec;   // Duration::from_secs(seconds)
    var nanos := AsI32(d - part);        // (d - part).as_nanos() as i32
    (AsI64(seconds), nanos)
  }

  /**
   The subscriber's rebuild of the send time,
   `Duration::from_secs(seconds as u64) + Duration::from_nanos(nanos as u64)`.
   The sum panics when it exceeds the largest `Duration` (None here).
   */
  function SendTime(seconds: int, nanos: int): (r: Option<Duration>)
    requires IsI64(seconds) && IsI32(nanos)
    ensures 0 <= seconds && 0 <= nanos ==> r == Some(seconds * NanosPerSec + nanos)
    ensures 0 <= seconds && nanos < 0 && r.Some? ==> r.value >= U64Max + 1 + I32Min
  {
    var total := AsU64(seconds) * NanosPerSec + AsU64(nanos);
    if total <= MaxDuration then Some(total) else None
  }

  /** Splitting a duration and rebuilding it on the subscriber side gives the duration back. */
  lemma SplitRebuildRoundTrip(d: Duration)
    requires d / NanosPerSec <= I64Max
    ensures var (s, n) := ToSecsAndNanos(d); SendTime(s, n) == Some(d)
  {
  }

  /**
   The time stamp a message carries: the wall clock split into seconds and
   nanoseconds, or (0, 0) when the clock reads before the Unix epoch
   (`duration_since(UNIX_EPOCH)` failing).
   */
  function Stamp(wall: SystemTime): (r: (int, int))
    ensures IsI64(r.0) && IsI32(r.1)
    ensures wall >= 0 ==> r.0 >= 0 && 0 <= r.1 < NanosPerSec && r.0 * NanosPerSec + r.1 == wall
    ensures wall < 0 ==> r == (0, 0)
  {
    if wall >= 0 then ToSecsAndNanos(wall) else (0, 0)
  }

  /**
   `later - earlier` on `Instant`s, including `Instant::elapsed`: the
   difference, or zero when `later` is the earlier instant (the subtraction
   saturates).
   */
  function Elapsed(later: int, earlier: int): (r: nat)
    ensures earlier <= later ==> earlier + r == later
    ensures later < earlier ==> r == 0
  {
    if earlier <= later then later - earlier else 0
  }

  /** `Duration::as_micros`: whole microseconds, rounded down. */
  function Micros(d: nat): (r: nat)
    ensures r * NanosPerMicro <= d < (r + 1) * NanosPerMicro
  {
    Quot(d, NanosPerMicro)
  }

  /**
   The reported delay, `(recvtime - sendtime).as_micros()`. `Duration`
   subtraction panics (None) when the message claims to be sent after it was
   received.
   */
  function DelayMicros(recv: Duration, send: Duration): (r: Option<nat>)
    ensures r.Some? <==> send <= recv
    ensures r.Some? ==> send + r.value * NanosPerMicro <= recv < send + (r.value + 1) * NanosPerMicro
  {
    if recv < send then None else Some(Micros(recv - send))
  }

  /**
   The printed fraction of the send time stamp, `nanos / 1000000` on an `i32`
   (rounding toward zero): whole milliseconds, from 0 to 999 for a well-formed
   stamp.
   */
  function MillisField(nanos: int): (r: int)
    requires IsI32(nanos)
    ensures 0 <= nanos < NanosPerSec ==> 0 <= r <= 999
    ensures 0 <= nanos ==> r * NanosPerMilli <= nanos < (r + 1) * NanosPerMilli
    ensures nanos < 0 ==> r <= 0 && (r - 1) * NanosPerMilli < nanos <= r * NanosPerMilli
  {
    TruncDiv(nanos, NanosPerMilli)
  }

  /**
   A message stamped by the publisher and received at a later wall-clock time
   reports as delay the whole microseconds between the two readings.
   */
  lemma StampedDelay(sent: SystemTime, received: SystemTime)
    requires 0 <= sent <= received
    ensures sent <= MaxDuration && received <= MaxDuration
    ensures var (s, n) := Stamp(sent);
      SendTime(s, n) == Some(sent as Duration) &&
      DelayMicros(received as Duration, sent as Duration) == Some((received - sent) / NanosPerMicro)
  {
  }
}
