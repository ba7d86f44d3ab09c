/**
 The subscriber: one loop that, at each iteration, services whichever of
 three sources `select!` finds ready first (the run deadline, an incoming
 sample, a byte from standard input) until the deadline passes or `q` is
 typed.

 The choice `select!` makes is not modelled as a priority: the sequence of
 events given to the loop is that choice. A panic inside the sample branch
 ends the process; it is the `Aborted` phase here.
 */
module Subscriber {
  import opened Optional
  import opened RustInt
  import opened Time
  import opened Text
  import opened Wire

  /** Run duration in seconds when `--time` is absent or does not parse. */
  const DefaultRunSeconds: nat := 1000000
  const Quit: Byte := 'q' as int as Byte
  const Idle: Byte := 0
  /** The pause after reading a zero byte, `sleep(Duration::from_secs(1))`. */
  const IdleNap: nat := NanosPerSec

  datatype Phase = Running | Stopped | Aborted

  /** The branch `select!` completes at one iteration. */
  datatype Event =
    | Timeout                                         // the sleep until the run deadline ended
    | Sample(decoded: Option<Msg>, recvWall: SystemTime)  // a sample, its decoding (None: parse error), the wall clock at receipt
    | Read(byte: Option<Byte>)                        // read_exact ended: the byte read, or None when it failed

  /** An event and the instant at which its branch completed. */
  datatype Arrival = Arrival(event: Event, at: int)

  /** The deadline's branch can only complete once the deadline has passed. */
  predicate Ready(endTime: int, a: Arrival) {
    a.event.Timeout? ==> endTime <= a.at
  }

  /** The fields of one report line. */
  datatype Report = Report(recvWall: Duration, id: int, seconds: int, millis: int, jitter: int, delay: nat)

  /** The state the loop carries from one iteration to the next. */
  datatype LoopState = LoopState(
    phase: Phase,
    input: Byte,          // the one-byte stdin buffer
    reports: seq<Report>, // lines written to standard output
    parseErrors: nat,     // "Parse Error" lines logged
    napped: nat)          // nanoseconds spent in the one-second pauses

  function Initial(): LoopState {
    LoopState(Running, 0, [], 0, 0)
  }

  /** Servicing a decoded sample received at `recv`. */
  function Deliver(s: LoopState, msg: Msg, recv: Duration): (t: LoopState)
  {
    var ts := TsOrDefault(msg);
    match SendTime(ts.seconds, ts.nanos)
    case None => s.(phase := Aborted)
    case Some(send) =>
      match DelayMicros(recv, send)
      case None => s.(phase := Aborted)
      case Some(delay) =>
        s.(reports := s.reports + [Report(recv, msg.id, ts.seconds, MillisField(ts.nanos), msg.jitter, delay)])
  }

  /** One iteration of the loop. */
  function Step(s: LoopState, ev: Event): (t: LoopState)
  {
    match ev
    case Timeout => s.(phase := Stopped)
    case Sample(decoded, wall) =>
      if wall < 0 then s.(phase := Aborted)
      else if decoded.None? then s.(parseErrors := s.parseErrors + 1)
      else Deliver(s, decoded.value, wall)
    case Read(b) =>
      var input := if b.Some? then b.value else s.input;
      if input == Quit then s.(phase := Stopped, input := input)
      else if input == Idle then s.(input := input, napped := s.napped + IdleNap)
      else s.(input := input)
  }

  /** The loop over a sequence of events: it stops consuming them once it leaves `Running`. */
  function RunSpec(s: LoopState, trace: seq<Arrival>): (t: LoopState)
    decreases |trace|
  {
    if trace == [] || s.phase != Running then s
    else RunSpec(Step(s, trace[0].event), trace[1..])
  }

  /**
   Only the deadline and a typed `q` stop the loop; samples and other bytes
   never do.
   */
  lemma StopCauses(s: LoopState, ev: Event)
    requires s.phase == Running && s.input != Quit
    ensures Step(s, ev).phase == Stopped <==> ev == Timeout || ev == Read(Some(Quit))
    ensures ev.Sample? ==> Step(s, ev).phase != Stopped
  {
  }

  /**
   A sample whose decoding failed is logged and the loop goes on without a
   report line; a decoded sample stamped no later than its receipt adds
   exactly one report line, whose delay is the whole microseconds between
   send and receipt.
   */
  lemma SampleOutcome(s: LoopState, decoded: Option<Msg>, wall: SystemTime)
    requires s.phase == Running && wall >= 0
    ensures decoded.None? ==>
      Step(s, Sample(decoded, wall)) == s.(parseErrors := s.parseErrors + 1)
    ensures decoded.Some? ==>
      var m := decoded.value;
      var ts := TsOrDefault(m);
      0 <= ts.seconds && 0 <= ts.nanos && ts.seconds * NanosPerSec + ts.nanos <= wall ==>
        var t := Step(s, Sample(decoded, wall));
        var sent := ts.seconds * NanosPerSec + ts.nanos;
        && t.phase == Running
        && |t.reports| == |s.reports| + 1
        && t.reports[..|s.reports|] == s.reports
        && var r := t.reports[|s.reports|];
        && r.id == m.id && r.seconds == ts.seconds && r.jitter == m.jitter
        && r.millis * NanosPerMilli <= ts.nanos < (r.millis + 1) * NanosPerMilli
        && (ts.nanos < NanosPerSec ==> r.millis <= 999)
        && sent + r.delay * NanosPerMicro <= wall < sent + (r.delay + 1) * NanosPerMicro
  {
  }

  /**
   The sample branch panics, ending the process without a line, exactly when
   the receive clock reads before the epoch, when the message's send stamp
   does not convert to a duration, or when the send stamp is later than the
   receipt; whatever the stamp's field values, a decoded sample otherwise adds
   one report line and the loop goes on.
   */
  lemma SamplePanics(s: LoopState, decoded: Option<Msg>, wall: SystemTime)
    requires s.phase == Running
    ensures wall < 0 ==> Step(s, Sample(decoded, wall)) == s.(phase := Aborted)
    ensures wall >= 0 && decoded.Some? ==>
      var ts := TsOrDefault(decoded.value);
      var send := SendTime(ts.seconds, ts.nanos);
      var t := Step(s, Sample(decoded, wall));
      && (t == s.(phase := Aborted) <==> send.None? || send.value > wall)
      && (send.Some? && send.value <= wall ==>
            t.phase == Running && |t.reports| == |s.reports| + 1 && t.reports[..|s.reports|] == s.reports)
  {
  }

  /**
   Reading a zero byte pauses one second and goes on; any byte other than
   zero and `q` goes on with no effect. A failed read re-examines the byte
   left in the buffer: after end of input the last byte read is serviced
   again at every iteration.
   */
  lemma ReadOutcome(s: LoopState, b: Byte)
    requires s.phase == Running
    ensures Step(s, Read(Some(Idle))) == s.(input := Idle, napped := s.napped + IdleNap)
    ensures b != Quit && b != Idle ==> Step(s, Read(Some(b))) == s.(input := b)
    ensures Step(s, Read(None)) == Step(s, Read(Some(s.input)))
  {
  }

  /** A loop that is still running never holds `q` in its buffer. */
  lemma {:induction false} RunningNeverHoldsQuit(s: LoopState, trace: seq<Arrival>)
    requires s.phase == Running && s.input != Quit
    ensures RunSpec(s, trace).phase == Running ==> RunSpec(s, trace).input != Quit
    decreases |trace|
  {
    if trace != [] {
      var t := Step(s, trace[0].event);
      if t.phase == Running {
        RunningNeverHoldsQuit(t, trace[1..]);
      }
    }
  }

  /**
   A loop that has stopped was stopped by an event: its deadline or a typed
   `q`. Report lines are only ever appended.
   */
  lemma {:induction false} RunStopsOnlyOnTimeoutOrQuit(s: LoopState, trace: seq<Arrival>)
    requires s.phase == Running && s.input != Quit
    ensures s.reports <= RunSpec(s, trace).reports
    ensures RunSpec(s, trace).phase == Stopped ==>
      exists i | 0 <= i < |trace| :: trace[i].event == Timeout || trace[i].event == Read(Some(Quit))
    decreases |trace|
  {
    if trace != [] {
      var t := Step(s, trace[0].event);
      StopCauses(s, trace[0].event);
      if t.phase == Running {
        assert t.reports[..|s.reports|] == s.reports by {
          match trace[0].event
          case Timeout =>
          case Read(_) =>
          case Sample(d, w) =>
        }
        RunStopsOnlyOnTimeoutOrQuit(t, trace[1..]);
        if RunSpec(t, trace[1..]).phase == Stopped {
          var i :| 0 <= i < |trace[1..]| && (trace[1..][i].event == Timeout || trace[1..][i].event == Read(Some(Quit)));
          assert trace[i + 1] == trace[1..][i];
        }
      } else {
        assert RunSpec(s, trace) == t;
      }
    }
  }

  /** The number of samples in a trace that decoded. */
  function Decoded(trace: seq<Arrival>): (n: nat)
    ensures n <= |trace|
  {
    if trace == [] then 0
    else (if trace[0].event.Sample? && trace[0].event.decoded.Some? then 1 else 0) + Decoded(trace[1..])
  }

  /** Each report line comes from a decoded sample: never more lines than decoded samples. */
  lemma {:induction false} ReportsFromDecodedSamples(s: LoopState, trace: seq<Arrival>)
    ensures |RunSpec(s, trace).reports| <= |s.reports| + Decoded(trace)
    decreases |trace|
  {
    if trace != [] && s.phase == Running {
      var t := Step(s, trace[0].event);
      ReportsFromDecodedSamples(t, trace[1..]);
    }
  }

  /** A first event that is the deadline or a typed `q` ends the run without any report line. */
  lemma StopBeforeAnyMessage(trace: seq<Arrival>)
    requires |trace| > 0 && (trace[0].event == Timeout || trace[0].event == Read(Some(Quit)))
    ensures RunSpec(Initial(), trace).phase == Stopped
    ensures RunSpec(Initial(), trace).reports == []
  {
  }

  /** The send stamp as printed, `{seconds}.{nanos / 1000000}`. */
  function TsText(seconds: int, nanos: int): (s: string)
    requires IsI32(nanos)
  {
    IntToString(seconds) + "." + IntToString(MillisField(nanos))
  }

  /**
   The fraction is the millisecond count written without zero padding: a
   stamp less than 100 ms into its second prints fewer than three digits
   after the point.
   */
  lemma TsTextNotPadded(seconds: int, nanos: int)
    requires 0 <= nanos < NanosPerSec
    ensures TsText(seconds, nanos) == IntToString(seconds) + "." + NatToString(nanos / NanosPerMilli)
    ensures nanos < 100 * NanosPerMilli ==> |NatToString(nanos / NanosPerMilli)| <= 2
    ensures |NatToString(nanos / NanosPerMilli)| <= 3
  {
    assert Pow10(2) == 100 && Pow10(3) == 1000;
    NatToStringLength(nanos / NanosPerMilli, 3);
    if nanos < 100 * NanosPerMilli {
      NatToStringLength(nanos / NanosPerMilli, 2);
    }
  }

  /** A report line; the receive time's RFC 3339 text comes from a formatter outside this model. */
  function ReportLine(rfc3339: string, r: Report): (line: string)
  {
    rfc3339 + ":  " + IntToString(r.id) + ", ts = " + IntToString(r.seconds) + "." + IntToString(r.millis)
      + ", send jitter = " + IntToString(r.jitter) + " us, delay = " + NatToString(r.delay) + " us"
  }

  /** The run duration: the parsed `--time` value, or the default when it is absent or does not parse. */
  method RunSeconds(time: Option<string>) returns (t: nat)
    ensures IsU64(t)
    ensures time.None? ==> t == DefaultRunSeconds
    ensures time.Some? && ParseU64(time.value).None? ==> t == DefaultRunSeconds
    ensures time.Some? && ParseU64(time.value).Some? ==> t == ParseU64(time.value).value
  {
    t := DefaultRunSeconds;
    if time.Some? {
      var parsed := ParseU64(time.value);
      t := if parsed.Some? then parsed.value else t;
    }
  }

  /** The subscriber process after setup: its run deadline and the loop's state. */
  class Multiplexer {
    const endTime: int
    var phase: Phase
    var input: Byte
    var reports: seq<Report>
    var parseErrors: nat
    var napped: nat

    function State(): LoopState
      reads this
    {
      LoopState(phase, input, reports, parseErrors, napped)
    }

    /** Computes the run deadline, `t` seconds after `start`, once and for all. */
    constructor (start: int, t: nat)
      requires IsU64(t)
      ensures endTime == start + t * NanosPerSec
      ensures State() == Initial()
    {
      endTime := start + t * NanosPerSec;
      phase, input, reports, parseErrors, napped := Running, 0, [], 0, 0;
    }

    /** One iteration of the loop. */
    method Handle(a: Arrival)
      requires phase == Running && Ready(endTime, a)
      modifies this`phase, this`input, this`reports, this`parseErrors, this`napped
      ensures State() == Step(old(State()), a.event)
    {
      match a.event
      case Timeout =>
        phase := Stopped;
      case Sample(decoded, wall) =>
        if wall < 0 {
          phase := Aborted;
        } else if decoded.None? {
          parseErrors := parseErrors + 1;
        } else {
          var msg := decoded.value;
          var ts := TsOrDefault(msg);
          var send := SendTime(ts.seconds, ts.nanos);
          if send.None? {
            phase := Aborted;
          } else {
            var delay := DelayMicros(wall, send.value);
            if delay.None? {
              phase := Aborted;
            } else {
              reports := reports + [Report(wall, msg.id, ts.seconds, MillisField(ts.nanos), msg.jitter, delay.value)];
            }
          }
        }
      case Read(b) =>
        if b.Some? {
          input := b.value;
        }
        if input == Quit {
          phase := Stopped;
        } else if input == Idle {
          napped := napped + IdleNap;
        }
    }

    /** The loop over a sequence of events; returns how many it consumed before leaving `Running`. */
    method Run(trace: seq<Arrival>) returns (consumed: nat)
      requires forall i | 0 <= i < |trace| :: Ready(endTime, trace[i])
      modifies this`phase, this`input, this`reports, this`parseErrors, this`napped
      ensures State() == RunSpec(old(State()), trace)
      ensures consumed <= |trace|
      ensures phase == Running ==> consumed == |trace|
    {
      consumed := 0;
      while consumed < |trace| && phase == Running
        invariant consumed <= |trace|
        invariant RunSpec(old(State()), trace) == RunSpec(State(), trace[consumed..])
        decreases |trace| - consumed
      {
        assert trace[consumed..][1..] == trace[consumed + 1..];
        Handle(trace[consumed]);
        consumed := consumed + 1;
      }
    }
  }

  /**
   A run of zero seconds (`--time 0`): the deadline's branch is ready from the
   first iteration, and a first timeout ends the loop before any line. Yet
   `select!` may serve a sample that is ready at the same iteration first,
   which is then reported before the timeout ends the loop.
   */
  lemma ZeroDurationRaces(start: int, m: Msg, wall: SystemTime, at: int)
    requires start <= at && 0 <= wall
    requires var ts := TsOrDefault(m); var send := SendTime(ts.seconds, ts.nanos);
      send.Some? && send.value <= wall
    ensures ParseU64("0") == Some(0)
    ensures var endTime := start + 0 * NanosPerSec;
      var sample, timeout := Arrival(Sample(Some(m), wall), at), Arrival(Timeout, at);
      && Ready(endTime, timeout) && Ready(endTime, sample)
      && RunSpec(Initial(), [timeout]) == Initial().(phase := Stopped)
      && var t := RunSpec(Initial(), [sample, timeout]);
         t.phase == Stopped && |t.reports| == 1
  {
    ParseU64RoundTrip(0);
    var sample := Arrival(Sample(Some(m), wall), at);
    var timeout := Arrival(Timeout, at);
    var first := Step(Initial(), sample.event);
    assert first.phase == Running && |first.reports| == 1;
    assert [sample, timeout][1..] == [timeout];
    assert RunSpec(Initial(), [sample, timeout]) == RunSpec(first, [timeout]);
    assert RunSpec(first, [timeout]) == RunSpec(Step(first, Timeout), []);
  }
}
