/**
 The publisher: 5000 topic publishers declared once, then an endless loop
 that wakes on a fixed 80 ms cadence, sends one message on each of the first
 375 publishers and advances its deadline by exactly one period.

 Clock readings (`Instant::now()`, `SystemTime::now()`), the outcome of
 encoding each message and the instants around each `put` are inputs of a
 tick; the transport is the log of puts handed to it.
 */
module Publisher {
  import opened Optional
  import opened RustInt
  import opened Time
  import opened Text
  import opened Wire

  const TopicCount: nat := 5000
  const BatchLimit: nat := 375
  const Period: nat := 80 * NanosPerMilli
  const SingleBlockingLimit: nat := 10 * NanosPerMilli
  const TotalBlockingLimit: nat := 20 * NanosPerMilli
  const KeyPrefix: string := "prefix/db/DBI_"

  /** The key expression of publisher `idx`, `prefix/db/DBI_{idx}`. */
  function KeyExpr(idx: nat): (k: string)
    ensures |KeyPrefix| < |k| && k[..|KeyPrefix|] == KeyPrefix
    ensures k[|KeyPrefix|..] == NatToString(idx)
  {
    KeyPrefix + NatToString(idx)
  }

  /** Every publisher has a key of its own. */
  lemma KeyExprInjective(i: nat, j: nat)
    ensures KeyExpr(i) == KeyExpr(j) <==> i == j
  {
    if KeyExpr(i) == KeyExpr(j) {
      assert KeyExpr(i)[|KeyPrefix|..] == NatToString(i);
      assert KeyExpr(j)[|KeyPrefix|..] == NatToString(j);
      NatToStringInjective(i, j);
    }
  }

  /** A declared publisher; the transport's own state is not modelled. */
  datatype PublisherHandle = PublisherHandle(key: string)

  /** The publishers as the setup loop registers them, in index order. */
  function Registered(): (pubs: seq<PublisherHandle>)
  {
    seq(TopicCount, (i: int) requires 0 <= i => PublisherHandle(KeyExpr(i)))
  }

  /** The setup loop declares 5000 publishers, publisher `i` on key `i`, no two on the same key. */
  lemma RegisteredKeys()
    ensures var pubs := Registered();
      && |pubs| == TopicCount
      && (forall i | 0 <= i < |pubs| :: pubs[i].key == KeyExpr(i))
      && (forall i, j | 0 <= i < |pubs| && 0 <= j < |pubs| && i != j :: pubs[i].key != pubs[j].key)
  {
    var pubs := Registered();
    forall i, j | 0 <= i < |pubs| && 0 <= j < |pubs| && i != j
      ensures pubs[i].key != pubs[j].key
    {
      KeyExprInjective(i, j);
    }
  }

  /** What one message of a batch observes. */
  datatype SendReading = SendReading(
    instant: int,      // Instant::now() for the jitter
    wall: SystemTime,  // SystemTime::now() for the send stamp
    encoded: bool,     // whether write_to_bytes succeeded
    putStart: int,     // Instant::now() before put
    putEnd: int)       // the instant put returned, for ts1.elapsed()

  /** What one iteration of the publishing loop observes. */
  datatype TickInput = TickInput(
    now: int,                  // Instant::now() before the sleep guard
    batchStart: int,           // ts_all
    sends: seq<SendReading>,   // one per processed publisher, in order
    batchEnd: int)             // the instant of ts_all.elapsed()

  /** Console warnings of the publisher; none of them steers the loop. */
  datatype Diagnostic = EncodeError | LargeSingleBlocking(micros: nat) | LargeTotalBlocking(micros: nat)

  /** A message handed to the transport on a publisher's key. */
  datatype Put = Put(key: string, msg: Data)

  /** The number of publishers a tick processes, `take(375)`. */
  function BatchSize(registered: nat): (n: nat)
    ensures n <= registered && n <= BatchLimit
    ensures n == registered || n == BatchLimit
  {
    if registered < BatchLimit then registered else BatchLimit
  }

  /**
   The sleep before a batch: only when the clock reads before the deadline,
   and then exactly until the deadline.
   */
  function SleepFor(now: int, deadline: int): (d: nat)
    ensures d > 0 <==> now < deadline
    ensures deadline <= now + d
    ensures now < deadline ==> now + d == deadline
  {
    if now < deadline then deadline - now else 0
  }

  /** `(Instant::now() - ts).as_micros() as i64`, measured from the loop's deadline. */
  function Jitter(instant: int, deadline: int): (j: int)
    ensures IsI64(j)
  {
    AsI64(Micros(Elapsed(instant, deadline)))
  }

  /** The jitter fits its `i64` field: at most `i64::MAX` microseconds after the deadline. */
  predicate JitterFits(instant: int, deadline: int) {
    Micros(Elapsed(instant, deadline)) <= I64Max
  }

  /**
   A reading taken at or after the deadline yields as jitter the whole
   microseconds since the deadline; a reading before it yields zero. Later
   readings never yield less jitter.
   */
  lemma JitterMeaning(a: int, b: int, deadline: int)
    requires a <= b && JitterFits(b, deadline)
    ensures 0 <= Jitter(a, deadline) <= Jitter(b, deadline)
    ensures deadline <= a ==> Jitter(a, deadline) * NanosPerMicro <= a - deadline < (Jitter(a, deadline) + 1) * NanosPerMicro
    ensures a < deadline ==> Jitter(a, deadline) == 0
  {
  }

  /**
   The message publisher `idx` sends: its index, the wall-clock stamp and the
   jitter. The index is below 375, so `idx as i32` keeps it unchanged.
   */
  function MessageFor(idx: nat, deadline: int, r: SendReading): (m: Data)
    requires idx < BatchLimit
    ensures WellTyped(m)
  {
    var (seconds, nanos) := Stamp(r.wall);
    Data(idx, Some(Timestamp(seconds, nanos)), Jitter(r.instant, deadline))
  }

  /**
   A message carries its publisher's index as id, a time stamp that rebuilds
   to the wall-clock reading (zero before the epoch) and the jitter from the
   deadline.
   */
  lemma MessageForFields(idx: nat, deadline: int, r: SendReading)
    requires idx < BatchLimit
    ensures var m := MessageFor(idx, deadline, r);
      && m.id == idx
      && m.ts.Some?
      && (r.wall >= 0 ==> SendTime(m.ts.value.seconds, m.ts.value.nanos) == Some(r.wall as Duration))
      && (r.wall < 0 ==> m.ts.value == Timestamp(0, 0))
      && m.jitter == Jitter(r.instant, deadline)
  {
  }

  /** The positions of a batch whose message encoded, in ascending order. */
  function EncodedIndices(sends: seq<SendReading>): (ix: seq<nat>)
    ensures forall i | 0 <= i < |ix| :: ix[i] < |sends| && sends[ix[i]].encoded
    ensures forall i, j | 0 <= i < j < |ix| :: ix[i] < ix[j]
    ensures forall k | 0 <= k < |sends| && sends[k].encoded :: k in ix
  {
    if sends == [] then []
    else
      var k := |sends| - 1;
      EncodedIndices(sends[..k]) + (if sends[k].encoded then [k] else [])
  }

  /** The puts of one batch: one per encoded message, on its own publisher, in index order. */
  function BatchPuts(pubs: seq<PublisherHandle>, deadline: int, sends: seq<SendReading>): (puts: seq<Put>)
    requires |sends| <= |pubs| && |sends| <= BatchLimit
  {
    if sends == [] then []
    else
      var k := |sends| - 1;
      BatchPuts(pubs, deadline, sends[..k])
        + (if sends[k].encoded then [Put(pubs[k].key, MessageFor(k, deadline, sends[k]))] else [])
  }

  /** The warnings printed while sending a batch: encode errors and long single puts. */
  function SendLog(sends: seq<SendReading>): (log: seq<Diagnostic>)
  {
    if sends == [] then []
    else
      var k := |sends| - 1;
      var r := sends[k];
      var elapsed := Elapsed(r.putEnd, r.putStart);
      SendLog(sends[..k])
        + (if !r.encoded then [EncodeError]
           else if elapsed > SingleBlockingLimit then [LargeSingleBlocking(Micros(elapsed))]
           else [])
  }

  /** The warning printed after a batch that took longer than 20 ms in total. */
  function TotalLog(input: TickInput): (log: seq<Diagnostic>)
  {
    var elapsed := Elapsed(input.batchEnd, input.batchStart);
    if elapsed > TotalBlockingLimit then [LargeTotalBlocking(Micros(elapsed))] else []
  }

  /** Sending message `k` of a batch adds its put, if it encoded, and its warnings. */
  lemma BatchStep(pubs: seq<PublisherHandle>, deadline: int, sends: seq<SendReading>, k: nat)
    requires |sends| <= |pubs| && |sends| <= BatchLimit && k < |sends|
    ensures BatchPuts(pubs, deadline, sends[..k + 1]) == BatchPuts(pubs, deadline, sends[..k])
      + (if sends[k].encoded then [Put(pubs[k].key, MessageFor(k, deadline, sends[k]))] else [])
    ensures SendLog(sends[..k + 1]) == SendLog(sends[..k]) + SendLog([sends[k]])
  {
    assert sends[..k + 1][..k] == sends[..k];
  }

  datatype TickOutcome = TickOutcome(slept: nat, puts: seq<Put>, log: seq<Diagnostic>, next: int)

  /** One iteration of the publishing loop, from the deadline it starts with. */
  function TickSpec(deadline: int, pubs: seq<PublisherHandle>, input: TickInput): (o: TickOutcome)
    requires |input.sends| == BatchSize(|pubs|)
  {
    TickOutcome(
      SleepFor(input.now, deadline),
      BatchPuts(pubs, deadline, input.sends),
      SendLog(input.sends) + TotalLog(input),
      deadline + Period)
  }

  /**
   The puts of a batch are exactly the encoded messages, each on the
   publisher of its own index; a failed encode drops that message alone.
   */
  lemma {:induction false} BatchPutsSelect(pubs: seq<PublisherHandle>, deadline: int, sends: seq<SendReading>)
    requires |sends| <= |pubs| && |sends| <= BatchLimit
    ensures var puts := BatchPuts(pubs, deadline, sends); var ix := EncodedIndices(sends);
      && |puts| == |ix|
      && forall i | 0 <= i < |ix| :: puts[i] == Put(pubs[ix[i]].key, MessageFor(ix[i], deadline, sends[ix[i]]))
  {
    if sends != [] {
      var k := |sends| - 1;
      var front := sends[..k];
      BatchPutsSelect(pubs, deadline, front);
      var ix := EncodedIndices(front);
      var tail := if sends[k].encoded then [Put(pubs[k].key, MessageFor(k, deadline, sends[k]))] else [];
      assert BatchPuts(pubs, deadline, sends) == BatchPuts(pubs, deadline, front) + tail;
      assert EncodedIndices(sends) == ix + (if sends[k].encoded then [k] else []);
      forall i | 0 <= i < |ix|
        ensures front[ix[i]] == sends[ix[i]]
      {
      }
    }
  }

  /**
   A tick's batch: ids strictly ascend, every id names a processed publisher
   whose message encoded and whose key it is sent on, and every encoded
   message is sent.
   */
  lemma BatchOrder(pubs: seq<PublisherHandle>, deadline: int, sends: seq<SendReading>)
    requires pubs == Registered() && |sends| == BatchSize(|pubs|)
    ensures var puts := BatchPuts(pubs, deadline, sends);
      && (forall i, j | 0 <= i < j < |puts| :: puts[i].msg.id < puts[j].msg.id)
      && (forall i | 0 <= i < |puts| ::
            0 <= puts[i].msg.id < |sends| && sends[puts[i].msg.id].encoded && puts[i].key == KeyExpr(puts[i].msg.id))
      && (forall k | 0 <= k < |sends| :: sends[k].encoded <==> exists i | 0 <= i < |puts| :: puts[i].msg.id == k)
  {
    var puts := BatchPuts(pubs, deadline, sends);
    var ix := EncodedIndices(sends);
    BatchPutsSelect(pubs, deadline, sends);
    forall i | 0 <= i < |ix|
      ensures puts[i].msg.id == ix[i]
    {
      MessageForFields(ix[i], deadline, sends[ix[i]]);
    }
    forall k | 0 <= k < |sends| && sends[k].encoded
      ensures exists i | 0 <= i < |puts| :: puts[i].msg.id == k
    {
      var i :| 0 <= i < |ix| && ix[i] == k;
      assert puts[i].msg.id == k;
    }
  }

  /** Clock readings within a batch never go backwards. */
  predicate Monotone(sends: seq<SendReading>) {
    forall i, j | 0 <= i <= j < |sends| :: sends[i].instant <= sends[j].instant
  }

  /**
   With clock readings that never go backwards and fit the jitter field, the
   jitter of the messages of a batch is never negative and never decreases
   in the order they are sent.
   */
  lemma BatchJitterNonDecreasing(pubs: seq<PublisherHandle>, deadline: int, sends: seq<SendReading>)
    requires |sends| <= |pubs| && |sends| <= BatchLimit
    requires Monotone(sends)
    requires forall i | 0 <= i < |sends| :: JitterFits(sends[i].instant, deadline)
    ensures var puts := BatchPuts(pubs, deadline, sends);
      forall i, j | 0 <= i <= j < |puts| :: 0 <= puts[i].msg.jitter <= puts[j].msg.jitter
  {
    var puts := BatchPuts(pubs, deadline, sends);
    var ix := EncodedIndices(sends);
    BatchPutsSelect(pubs, deadline, sends);
    forall i, j | 0 <= i <= j < |puts|
      ensures 0 <= puts[i].msg.jitter <= puts[j].msg.jitter
    {
      assert ix[i] <= ix[j];
      MessageForFields(ix[i], deadline, sends[ix[i]]);
      MessageForFields(ix[j], deadline, sends[ix[j]]);
      JitterMeaning(sends[ix[i]].instant, sends[ix[j]].instant, deadline);
    }
  }

  /**
   The clock of one tick reads in program order: the batch starts once the
   sleep guard is done, and the readings of the batch never go backwards and
   lie between the batch's start and its end.
   */
  predicate ClockInOrder(deadline: int, input: TickInput) {
    && input.now + SleepFor(input.now, deadline) <= input.batchStart
    && Monotone(input.sends)
    && forall i | 0 <= i < |input.sends| :: input.batchStart <= input.sends[i].instant <= input.batchEnd
  }

  /**
   On a clock that reads in order, every message of a batch is sent at or
   after the deadline, and the jitter it carries is exactly the whole
   microseconds by which it missed the deadline (no reading is clamped to
   zero), provided the batch ends within `i64::MAX` microseconds of it.
   */
  lemma JitterIsLateness(pubs: seq<PublisherHandle>, deadline: int, input: TickInput)
    requires |input.sends| == BatchSize(|pubs|)
    requires ClockInOrder(deadline, input) && JitterFits(input.batchEnd, deadline)
    ensures forall i | 0 <= i < |input.sends| :: deadline <= input.sends[i].instant
    ensures var puts := TickSpec(deadline, pubs, input).puts;
      forall i | 0 <= i < |puts| ::
        && 0 <= puts[i].msg.id < |input.sends|
        && puts[i].msg.jitter == Micros(input.sends[puts[i].msg.id].instant - deadline)
  {
    var sends := input.sends;
    var puts := BatchPuts(pubs, deadline, sends);
    var ix := EncodedIndices(sends);
    BatchPutsSelect(pubs, deadline, sends);
    forall i | 0 <= i < |sends|
      ensures deadline <= sends[i].instant && JitterFits(sends[i].instant, deadline)
    {
      JitterMeaning(sends[i].instant, input.batchEnd, deadline);
    }
    forall i | 0 <= i < |puts|
      ensures puts[i].msg.id == ix[i]
      ensures puts[i].msg.jitter == Micros(sends[ix[i]].instant - deadline)
    {
      MessageForFields(ix[i], deadline, sends[ix[i]]);
    }
  }

  /** A reading with its put timing forgotten. */
  function Untimed(r: SendReading): SendReading {
    r.(putStart := 0, putEnd := 0)
  }

  /**
   The overrun warnings are diagnostics only: two ticks whose readings differ
   only in the instants measured for them sleep alike, send the same batch
   and move to the same deadline.
   */
  lemma DiagnosticsDoNotSteer(deadline: int, pubs: seq<PublisherHandle>, a: TickInput, b: TickInput)
    requires |a.sends| == BatchSize(|pubs|) && |b.sends| == |a.sends|
    requires a.now == b.now
    requires forall i | 0 <= i < |a.sends| :: Untimed(a.sends[i]) == Untimed(b.sends[i])
    ensures TickSpec(deadline, pubs, a).slept == TickSpec(deadline, pubs, b).slept
    ensures TickSpec(deadline, pubs, a).puts == TickSpec(deadline, pubs, b).puts
    ensures TickSpec(deadline, pubs, a).next == TickSpec(deadline, pubs, b).next
  {
    SameUntimedSamePuts(pubs, deadline, a.sends, b.sends);
  }

  lemma {:induction false} SameUntimedSamePuts(pubs: seq<PublisherHandle>, deadline: int, a: seq<SendReading>, b: seq<SendReading>)
    requires |a| <= |pubs| && |a| <= BatchLimit && |b| == |a|
    requires forall i | 0 <= i < |a| :: Untimed(a[i]) == Untimed(b[i])
    ensures BatchPuts(pubs, deadline, a) == BatchPuts(pubs, deadline, b)
  {
    if a != [] {
      var k := |a| - 1;
      assert Untimed(a[k]) == Untimed(b[k]);
      assert a[k].encoded == b[k].encoded && a[k].wall == b[k].wall && a[k].instant == b[k].instant;
      SameUntimedSamePuts(pubs, deadline, a[..k], b[..k]);
    }
  }

  /** Every tick input has one reading per processed publisher. */
  predicate InputsFit(pubs: seq<PublisherHandle>, inputs: seq<TickInput>) {
    forall i | 0 <= i < |inputs| :: |inputs[i].sends| == BatchSize(|pubs|)
  }

  datatype RunOutcome = RunOutcome(deadlines: seq<int>, sleeps: seq<nat>, puts: seq<Put>, log: seq<Diagnostic>, next: int)

  /**
   Consecutive iterations of the publishing loop, from a starting deadline:
   each run extends the run over the inputs before it by one tick, served at
   the deadline that run ended with.
   */
  function RunSpec(deadline: int, pubs: seq<PublisherHandle>, inputs: seq<TickInput>): (o: RunOutcome)
    requires InputsFit(pubs, inputs)
    decreases |inputs|
  {
    if inputs == [] then RunOutcome([], [], [], [], deadline)
    else
      var before := RunSpec(deadline, pubs, inputs[..|inputs| - 1]);
      var t := TickSpec(before.next, pubs, inputs[|inputs| - 1]);
      RunOutcome(before.deadlines + [before.next], before.sleeps + [t.slept], before.puts + t.puts, before.log + t.log, t.next)
  }

  lemma AppendAssoc<T>(a: seq<T>, b: seq<T>, c: seq<T>)
    ensures a + b + c == a + (b + c)
  {
  }

  /** The run over the first `k + 1` inputs extends the run over the first `k` by tick `k`. */
  lemma RunPrefixSnoc(deadline: int, pubs: seq<PublisherHandle>, inputs: seq<TickInput>, k: nat)
    requires InputsFit(pubs, inputs) && k < |inputs|
    ensures InputsFit(pubs, inputs[..k]) && InputsFit(pubs, inputs[..k + 1])
    ensures var a := RunSpec(deadline, pubs, inputs[..k]);
      var t := TickSpec(a.next, pubs, inputs[k]);
      RunSpec(deadline, pubs, inputs[..k + 1])
        == RunOutcome(a.deadlines + [a.next], a.sleeps + [t.slept], a.puts + t.puts, a.log + t.log, t.next)
  {
    assert inputs[..k + 1][..k] == inputs[..k];
  }

  /**
   Drift compensation: the k-th tick serves the deadline `d0 + k` periods
   and the deadline after K ticks is `d0 + K` periods, whatever the clock
   read during the batches.
   */
  lemma {:induction false} DriftCompensation(d0: int, pubs: seq<PublisherHandle>, inputs: seq<TickInput>)
    requires InputsFit(pubs, inputs)
    ensures var o := RunSpec(d0, pubs, inputs);
      && |o.deadlines| == |inputs|
      && (forall k | 0 <= k < |inputs| :: o.deadlines[k] == d0 + k * Period)
      && o.next == d0 + |inputs| * Period
    decreases |inputs|
  {
    if inputs != [] {
      DriftCompensation(d0, pubs, inputs[..|inputs| - 1]);
    }
  }

  /**
   A scheduler created at `start` serves `start + (k + 1)` periods at its k-th
   tick, and its deadline after K ticks is `start + (K + 1)` periods.
   */
  lemma DeadlinesFromStart(start: int, pubs: seq<PublisherHandle>, inputs: seq<TickInput>)
    requires InputsFit(pubs, inputs)
    ensures var o := RunSpec(start + Period, pubs, inputs);
      && |o.deadlines| == |inputs|
      && (forall k | 0 <= k < |inputs| :: o.deadlines[k] == start + (k + 1) * Period)
      && o.next == start + (|inputs| + 1) * Period
  {
    DriftCompensation(start + Period, pubs, inputs);
  }

  /**
   Every tick sleeps exactly until the deadline it serves when the clock read
   before it; on a clock that reads in order, its batch starts at or after
   that deadline.
   */
  lemma {:induction false} SleepsReachDeadlines(deadline: int, pubs: seq<PublisherHandle>, inputs: seq<TickInput>)
    requires InputsFit(pubs, inputs)
    ensures var o := RunSpec(deadline, pubs, inputs);
      && |o.sleeps| == |inputs| && |o.deadlines| == |inputs|
      && forall k | 0 <= k < |inputs| ::
           && o.sleeps[k] == SleepFor(inputs[k].now, o.deadlines[k])
           && o.deadlines[k] <= inputs[k].now + o.sleeps[k]
           && (o.sleeps[k] > 0 <==> inputs[k].now < o.deadlines[k])
           && (ClockInOrder(o.deadlines[k], inputs[k]) ==> o.deadlines[k] <= inputs[k].batchStart)
    decreases |inputs|
  {
    if inputs != [] {
      var front := inputs[..|inputs| - 1];
      SleepsReachDeadlines(deadline, pubs, front);
      forall k | 0 <= k < |front| ensures front[k] == inputs[k] { }
    }
  }

  /** The publisher process: its publishers, its deadline and what it has sent and printed. */
  class Scheduler {
    var publishers: seq<PublisherHandle>
    var ts: int
    var sent: seq<Put>
    var log: seq<Diagnostic>

    /** Declares the 5000 publishers and sets the first deadline one period after `start`. */
    constructor (start: int)
      ensures publishers == Registered()
      ensures ts == start + Period
      ensures sent == [] && log == []
    {
      var pubs := [];
      for idx := 0 to TopicCount
        invariant |pubs| == idx
        invariant forall i | 0 <= i < idx :: pubs[i] == PublisherHandle(KeyExpr(i))
      {
        pubs := pubs + [PublisherHandle(KeyExpr(idx))];
      }
      publishers := pubs;
      ts := start + Period;
      sent, log := [], [];
    }

    /**
     The body of the batch loop for publisher `idx`: build its message, put it
     when it encodes, and warn about an encode error or a put that blocked
     longer than 10 ms.
     */
    method Send(idx: nat, r: SendReading)
      requires idx < |publishers| && idx < BatchLimit
      modifies this`sent, this`log
      ensures sent == old(sent) + (if r.encoded then [Put(publishers[idx].key, MessageFor(idx, ts, r))] else [])
      ensures log == old(log) + SendLog([r])
    {
      var jitter := Jitter(r.instant, ts);
      var seconds, nanos := 0, 0;
      if r.wall >= 0 {
        var split := ToSecsAndNanos(r.wall);
        seconds, nanos := split.0, split.1;
      }
      var msg := Data(idx, Some(Timestamp(seconds, nanos)), jitter);
      assert msg == MessageFor(idx, ts, r);
      if r.encoded {
        sent := sent + [Put(publishers[idx].key, msg)];
        var elapsed := Elapsed(r.putEnd, r.putStart);
        if elapsed > SingleBlockingLimit {
          log := log + [LargeSingleBlocking(Micros(elapsed))];
        }
      } else {
        log := log + [EncodeError];
      }
    }

    /** The batch: the body of the inner loop for each of the first `|sends|` publishers, in order. */
    method SendBatch(sends: seq<SendReading>)
      requires |sends| <= |publishers| && |sends| <= BatchLimit
      modifies this`sent, this`log
      ensures sent == old(sent) + BatchPuts(publishers, ts, sends)
      ensures log == old(log) + SendLog(sends)
    {
      ghost var sent0, log0 := sent, log;
      for idx := 0 to |sends|
        invariant sent == sent0 + BatchPuts(publishers, ts, sends[..idx])
        invariant log == log0 + SendLog(sends[..idx])
      {
        BatchStep(publishers, ts, sends, idx);
        var r := sends[idx];
        AppendAssoc(sent0, BatchPuts(publishers, ts, sends[..idx]),
          if r.encoded then [Put(publishers[idx].key, MessageFor(idx, ts, r))] else []);
        AppendAssoc(log0, SendLog(sends[..idx]), SendLog([r]));
        Send(idx, r);
      }
      assert sends[..|sends|] == sends;
    }

    /** One iteration of the publishing loop; returns how long it slept. */
    method Tick(input: TickInput) returns (slept: nat)
      requires |input.sends| == BatchSize(|publishers|)
      modifies this`ts, this`sent, this`log
      ensures var o := TickSpec(old(ts), publishers, input);
        && slept == o.slept
        && sent == old(sent) + o.puts
        && log == old(log) + o.log
        && ts == o.next
    {
      slept := 0;
      if input.now < ts {
        slept := ts - input.now;
      }
      SendBatch(input.sends);
      var elapsed := Elapsed(input.batchEnd, input.batchStart);
      if elapsed > TotalBlockingLimit {
        log := log + [LargeTotalBlocking(Micros(elapsed))];
      }
      ts := ts + Period;
    }

    /** The first `|inputs|` iterations of the endless publishing loop. */
    method Run(inputs: seq<TickInput>) returns (sleeps: seq<nat>)
      requires InputsFit(publishers, inputs)
      modifies this`ts, this`sent, this`log
      ensures var o := RunSpec(old(ts), publishers, inputs);
        && sleeps == o.sleeps
        && sent == old(sent) + o.puts
        && log == old(log) + o.log
        && ts == o.next
    {
      sleeps := [];
      ghost var start, sent0, log0 := ts, sent, log;
      for k := 0 to |inputs|
        invariant InputsFit(publishers, inputs[..k])
        invariant var done := RunSpec(start, publishers, inputs[..k]);
          && sleeps == done.sleeps
          && sent == sent0 + done.puts
          && log == log0 + done.log
          && ts == done.next
      {
        RunPrefixSnoc(start, publishers, inputs, k);
        ghost var done := RunSpec(start, publishers, inputs[..k]);
        ghost var tick := TickSpec(done.next, publishers, inputs[k]);
        AppendAssoc(sent0, done.puts, tick.puts);
        AppendAssoc(log0, done.log, tick.log);
        var slept := Tick(inputs[k]);
        sleeps := sleeps + [slept];
      }
      assert inputs[..|inputs|] == inputs;
    }
  }
}
