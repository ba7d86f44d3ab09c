# Zenoh latency benchmark: publish scheduler and receive loop

This project models the core of a latency benchmark that has two processes.

- The **publisher** declares 5000 Zenoh publishers on `prefix/db/DBI_{idx}`. It then runs an endless loop on an 80 ms cadence. Each iteration sleeps until its deadline if the clock reads earlier. It then sends one timestamped message on each of the first 375 publishers, with the message's jitter measured from the deadline. Finally it advances the deadline by exactly 80 ms.
- The **subscriber** runs one `select!` loop over three sources: the run deadline, incoming samples and single bytes from standard input. For each decoded sample it prints a report line with the send stamp, the jitter and the end-to-end delay. It stops when the deadline passes or when `q` is typed.

The model is written in Dafny, one module per concern:

- `RustInt` (`rust_int.dfy`) gives Rust's integer widths, the `as` casts the code uses, and `/` rounding toward zero.
- `Time` (`time.dfy`) holds the time arithmetic. A `Duration` is a count of nanoseconds up to `u64::MAX` seconds. An `Instant` is an integer count of nanoseconds. A `SystemTime` is a signed offset in nanoseconds from the Unix epoch.
- `Text` (`text.dfy`) gives the `{}` formatting of integers and `str::parse::<u64>`.
- `Wire` (`wire.dfy`) is the `Data` message.
- `Publisher` (`publisher.dfy`) holds the scheduler. A `Scheduler` class has the publisher list, the deadline `ts`, the log of puts handed to the transport, and the printed warnings. `Send`, `SendBatch`, `Tick` and `Run` are proved against the pure `MessageFor`, `BatchPuts`, `TickSpec` and `RunSpec`.
- `Subscriber` (`subscriber.dfy`) holds the receive loop. A `Multiplexer` class has the run deadline, the phase, the one-byte input buffer and the report lines. `Handle` and `Run` are proved against the pure `Step` and `RunSpec`. The module also has the `--time` fallback rule.

Clock readings, the outcome of each encode and decode, and the choice `select!` makes are all inputs. The choice is the order of the event trace given to the loop, not a priority.

Behaviour of the code that the model keeps as written:

- With `--time 0` the loop need not stop at its first iteration. The deadline branch is ready at once, but `select!` picks pseudo-randomly among ready branches, so a ready sample or byte can be serviced first (src/subscriber.rs:49-87). `ZeroDurationRaces` shows a zero-second run that reports one sample before the timeout ends it, beside a run whose first event is the timeout and which writes no line.
- The result of `read_exact` is ignored and the buffer is examined afterwards (src/subscriber.rs:79-85). After a failed read or end of input, the byte left from the last successful read is serviced again at every iteration whose read branch `select!` picks, and only a buffer still holding 0 leads to the one-second pause. `ReadOutcome` states this.
- Three conditions in the sample branch panic and end the process: a receive clock before the epoch (`unwrap` at src/subscriber.rs:60), a send stamp whose `Duration` sum overflows (src/subscriber.rs:64), and a send stamp later than the receipt (the subtraction at src/subscriber.rs:71). The model ends the loop in an `Aborted` phase for each of them, in addition to `Running` and `Stopped`; `SamplePanics` states when.
- Every tick sends on the same first 375 publishers (`take(375)`, src/main.rs:60); publishers 375 to 4999 are declared but never sent on.

## Model

| member | source | states |
|---|---|---|
| RustInt.AsU64 | src/subscriber.rs:64 | `as u64` keeps the low 64 bits and is the identity on values that fit |
| RustInt.AsI64 | src/main.rs:30 | `as i64` wraps modulo 2^64 into the i64 range and is the identity on values that fit |
| RustInt.AsI32 | src/main.rs:28 | `as i32` wraps modulo 2^32 into the i32 range and is the identity on values that fit |
| RustInt.TruncDiv | src/subscriber.rs:69 | signed `/` rounds toward zero: it brackets a non-negative dividend from below and a negative one from above |
| Time.ToSecsAndNanos | src/main.rs:25-31 | nanos are `d mod 10^9` for every duration, so the i32 cast never truncates; the seconds are `d div 10^9` wrapped modulo 2^64 by the i64 cast, so `seconds*10^9 + nanos == d` when they fit in i64 and they turn negative beyond that |
| Time.SendTime | src/subscriber.rs:64 | rebuilding from non-negative seconds and nanos gives exactly `seconds*10^9 + nanos`; a negative nanos field with non-negative seconds, if it does not overflow, lands at least 2^64 - 2^31 ns past the epoch |
| Time.SplitRebuildRoundTrip | src/main.rs:25-31 | splitting a duration and rebuilding it on the subscriber side gives the same duration back |
| Time.Stamp | src/main.rs:63-68 | the message stamp rebuilds to the wall clock when it reads at or after the epoch, and is (0, 0) before it |
| Time.Elapsed | src/main.rs:61 | Instant subtraction gives the exact difference, or 0 when the later reading is the earlier one |
| Time.Micros | src/main.rs:75 | `as_micros` gives whole microseconds, rounded down |
| Time.DelayMicros | src/subscriber.rs:71 | the delay exists exactly when the send time is not after the receive time, and is then the whole microseconds between them |
| Time.MillisField | src/subscriber.rs:69 | the printed fraction is whole milliseconds rounded toward zero, in `0..999` for nanos below 10^9 |
| Time.StampedDelay | src/subscriber.rs:60-71 | a stamp taken at or after the epoch and received no earlier rebuilds exactly and reports `(recv - sent) div 1000` µs |
| Text.NatToString | src/main.rs:46 | decimal digits only, with no leading zero except for 0 itself |
| Text.IntToString | src/subscriber.rs:65-71 | a signed value prints as at least one character; it starts with `-` exactly when negative, and the digits after the sign read back as its magnitude |
| Text.IntToStringInjective | src/subscriber.rs:65-71 | different signed values print differently |
| Text.NatToStringValue | src/main.rs:46 | reading the printed digits back gives the number |
| Text.NatToStringInjective | src/main.rs:46 | different numbers print differently |
| Text.NatToStringLength | src/subscriber.rs:69 | a number below 10^k prints in at most k digits, so nothing pads it |
| Text.ParseU64 | src/subscriber.rs:140 | parsing succeeds exactly when the text after one optional leading `+` is non-empty, all digits and at most `u64::MAX`, and the result is then the value of those digits, leading zeros included |
| Text.ParseU64Rejects | src/subscriber.rs:140 | the empty string, a lone `+`, a leading `-`, a space or any other non-digit past an optional leading `+`, and a value above `u64::MAX` never parse |
| Text.LeadingZeroValue | src/subscriber.rs:140 | a leading zero adds nothing to the value of a string of digits |
| Text.ParseU64LeadingZero | src/subscriber.rs:140 | leading zeros are accepted and do not change the parsed value |
| Text.ParseU64RoundTrip | src/subscriber.rs:139-140 | every u64 printed in decimal, with or without a leading `+`, parses back to itself |
| Wire.TsOrDefault | src/subscriber.rs:64 | a present stamp reads as itself; an absent one reads as zero seconds and zero nanos |
| Publisher.KeyExpr | src/main.rs:46 | every key is `prefix/db/DBI_` followed by exactly the decimal digits of the index |
| Publisher.KeyExprInjective | src/main.rs:45-49 | two publishers share a key exactly when they have the same index |
| Publisher.RegisteredKeys | src/main.rs:43-49 | the setup loop declares 5000 publishers, publisher i on key `prefix/db/DBI_i`, no two on the same key |
| Publisher.BatchSize | src/main.rs:60 | `take(375)` processes `min(375, registered)` publishers |
| Publisher.SleepFor | src/main.rs:54-57 | the loop sleeps exactly when the clock reads before the deadline, and then exactly until the deadline |
| Publisher.Jitter | src/main.rs:61-75 | the jitter always fits its i64 field: the `as i64` cast wraps modulo 2^64 (JitterMeaning gives its value) |
| Publisher.JitterMeaning | src/main.rs:61-75 | jitter is never negative and never decreases for later readings; a reading after the deadline gives the whole µs since it, one before gives 0 |
| Publisher.MessageFor | src/main.rs:62-75 | every message field fits its protobuf width (the index is below 375, so `idx as i32` at line 70 is exact) |
| Publisher.MessageForFields | src/main.rs:62-75 | a message carries its index as id, a stamp that rebuilds to the wall clock (zero before the epoch), and the jitter from the outer deadline |
| Publisher.EncodedIndices | src/main.rs:77-90 | the sent positions are exactly the positions that encoded, in strictly ascending order |
| Publisher.BatchPutsSelect | src/main.rs:60-91 | each put is the message of the next encoded position, sent on that position's own publisher |
| Publisher.BatchOrder | src/main.rs:60-90 | ids strictly ascend; each id names a processed publisher whose message encoded and whose key it is sent on; an encode failure drops that message and no other |
| Publisher.JitterIsLateness | src/main.rs:53-75 | on a clock that reads in program order, every message is sent at or after the deadline and its jitter is exactly the whole µs by which it missed the deadline, with no clamping |
| Publisher.BatchStep | src/main.rs:60-90 | processing message k of a batch appends its put when it encoded, and its warnings |
| Publisher.BatchJitterNonDecreasing | src/main.rs:60-75 | with clock readings that never go backwards, jitter within a batch is never negative and never decreases |
| Publisher.DiagnosticsDoNotSteer | src/main.rs:77-97 | the 10 ms and 20 ms overrun measurements change neither the sleep, nor the batch, nor the next deadline |
| Publisher.SameUntimedSamePuts | src/main.rs:77-91 | the batch does not depend on the instants measured around each put |
| Publisher.RunPrefixSnoc | src/main.rs:53-98 | one more loop iteration extends a run by exactly that iteration's outcome, served at the deadline the run ended with |
| Publisher.DriftCompensation | src/main.rs:52-97 | from a first deadline d0, the k-th tick serves `d0 + k*80ms` and after K ticks the deadline is `d0 + K*80ms`, whatever the clock read |
| Publisher.DeadlinesFromStart | src/main.rs:52-97 | a scheduler created at `start` serves `start + (k+1)*80ms` at its k-th tick and after K ticks has deadline `start + (K+1)*80ms` |
| Publisher.SleepsReachDeadlines | src/main.rs:53-59 | every tick sleeps exactly when it woke before the deadline it serves, and then exactly until that deadline; on a clock that reads in order its batch (`ts_all`) starts at or after that deadline |
| Publisher.Scheduler.constructor | src/main.rs:43-52 | declares publishers 0..5000 in order on their keys; the first deadline is `start + 80ms` |
| Publisher.Scheduler.Send | src/main.rs:61-90 | the loop body for one publisher appends its message to the puts when it encoded, and its warning when the encode failed or the put blocked over 10 ms |
| Publisher.Scheduler.SendBatch | src/main.rs:60-91 | the inner loop appends exactly the batch's puts (`BatchPuts`) and per-message warnings (`SendLog`), in publisher order |
| Publisher.Scheduler.Tick | src/main.rs:53-97 | one iteration sleeps, appends the batch's puts and warnings, and moves the deadline exactly as `TickSpec` says |
| Publisher.Scheduler.Run | src/main.rs:53-98 | K iterations produce the sleeps, puts, warnings and final deadline of `RunSpec` |
| Subscriber.StopCauses | src/subscriber.rs:50-85 | from a running loop, a step stops exactly on the deadline or a typed `q`; a sample never stops it |
| Subscriber.SampleOutcome | src/subscriber.rs:57-76 | a decode failure adds a logged error and no report line; a decoded sample stamped no later than its receipt adds exactly one line with its id, seconds, jitter, millisecond fraction and floor-µs delay |
| Subscriber.SamplePanics | src/subscriber.rs:57-71 | the sample branch aborts exactly on a receive clock before the epoch, a send stamp that does not convert, or a send stamp after the receipt, whatever the stamp's fields; otherwise a decoded sample adds one line and the loop goes on |
| Subscriber.ReadOutcome | src/subscriber.rs:79-85 | a zero byte pauses 1 s and goes on; any other byte except `q` has no effect; a failed read re-examines the byte left in the buffer |
| Subscriber.RunningNeverHoldsQuit | src/subscriber.rs:79-85 | a loop that is still running never holds `q` in its buffer |
| Subscriber.RunStopsOnlyOnTimeoutOrQuit | src/subscriber.rs:50-88 | a stopped run met the deadline or a typed `q` in its trace, and report lines are only ever appended |
| Subscriber.ReportsFromDecodedSamples | src/subscriber.rs:62-76 | a run never writes more report lines than it received decoded samples |
| Subscriber.StopBeforeAnyMessage | src/subscriber.rs:50-85 | a run whose first event is the deadline or `q` stops with no report line |
| Subscriber.TsTextNotPadded | src/subscriber.rs:65-69 | the stamp prints as `seconds.millis` with the milliseconds unpadded: fewer than three digits below 100 ms |
| Subscriber.RunSeconds | src/subscriber.rs:138-141 | `t` is 1000000 unless `--time` is present and parses as u64, and is then the parsed value |
| Subscriber.Multiplexer.constructor | src/subscriber.rs:47-49 | the run deadline is `start + t` seconds, fixed once (a `const`), and the loop starts running with an empty report |
| Subscriber.Multiplexer.Handle | src/subscriber.rs:51-87 | one iteration updates phase, buffer, report lines, error count and pauses exactly as `Step` says |
| Subscriber.Multiplexer.Run | src/subscriber.rs:50-88 | the loop consumes events until it leaves `Running` and ends in the state of `RunSpec`; it consumes the whole trace when it is still running |
| Subscriber.ZeroDurationRaces | src/subscriber.rs:49-87 | with `--time 0` the deadline is ready from the start: a first timeout stops with no line, but a sample served first at the same iteration is reported before the timeout stops the loop |

## Left out

- The Zenoh transport is not modelled: `zenoh::open`, `declare_publisher`, `declare_subscriber`, `put`, `recv_async` and the `unwrap` panics on their results. A declared publisher is only its key. A `put` is recorded as the message appended to the scheduler's `sent` log.
- Protobuf encoding and decoding are generated code and are not modelled. Encode success or failure is an input of each send. Decoding is an input of each sample: either a well-typed `Data` or a parse error. The byte layout is not modelled.
- Command-line parsing and `Config` construction (mode, connect, listen, config file, multicast scouting) are not modelled. Only the subscriber's `--time` fallback is kept.
- The async runtime and real sleeping are not modelled. Sleep durations are returned (publisher) or summed (subscriber). Clock readings are inputs. The fairness of `select!` is not modelled: the trace order is the choice.
- RFC 3339 formatting of the receive time comes from the `time` crate and is a parameter of `ReportLine`. Writing to stdout, `env_logger`, and the text of the warning lines are not modelled. Warnings are kept as `Diagnostic` records and parse errors as a count.
- Subscriber.ReportLine: renders the report line's format but carries no contract of its own. Its fraction field is covered by `TsTextNotPadded`.
- Subscriber.TsText: the `seconds.millis` text (src/subscriber.rs:65-69) carries no contract of its own; `TsTextNotPadded` states its shape.
- Subscriber.Step: one `select!` iteration (src/subscriber.rs:51-87) is defined by its body and carries no contract of its own; `StopCauses`, `SampleOutcome`, `SamplePanics` and `ReadOutcome` state what it does, and `Multiplexer.Handle` is proved against it.
- Subscriber.Deliver: the sample branch after decoding (src/subscriber.rs:62-72) carries no contract of its own; `SampleOutcome` and `SamplePanics` state what it does.
- Subscriber.RunSpec: the receive loop over a trace (src/subscriber.rs:50-88) carries no contract of its own; `RunningNeverHoldsQuit`, `RunStopsOnlyOnTimeoutOrQuit`, `ReportsFromDecodedSamples`, `StopBeforeAnyMessage` and `ZeroDurationRaces` state what it does, and `Multiplexer.Run` is proved against it.
- Publisher.Registered: the setup loop's publisher list (src/main.rs:43-49) carries no contract of its own; `RegisteredKeys` states it, and `Scheduler.constructor` is proved against it.
- Publisher.BatchPuts: the batch's puts (src/main.rs:60-91) carry no contract of their own; `BatchPutsSelect`, `BatchOrder`, `BatchStep`, `BatchJitterNonDecreasing` and `SameUntimedSamePuts` state them, and `Scheduler.SendBatch` is proved against it.
- Publisher.SendLog: the per-message warnings (src/main.rs:77-90) carry no contract of their own; `BatchStep` and `DiagnosticsDoNotSteer` state their role, and `Scheduler.SendBatch` is proved against it.
- Publisher.TotalLog: the 20 ms batch warning (src/main.rs:92-95) carries no contract of its own; `DiagnosticsDoNotSteer` states that it does not steer the loop.
- Publisher.TickSpec: one loop iteration (src/main.rs:53-97) carries no contract of its own; `JitterIsLateness`, `DiagnosticsDoNotSteer` and `RunPrefixSnoc` state what it does, and `Scheduler.Tick` is proved against it.
- Publisher.RunSpec: K loop iterations (src/main.rs:53-98) carry no contract of their own; `RunPrefixSnoc`, `DriftCompensation`, `DeadlinesFromStart` and `SleepsReachDeadlines` state what they do, and `Scheduler.Run` is proved against it.
- Instant overflow is not modelled. `Instant + Duration` panics on overflow (src/main.rs:52, src/main.rs:97, src/subscriber.rs:49), but instants here are unbounded integers. Likewise the `unwrap` on RFC 3339 formatting for years beyond 9999 is not modelled.
- The publishing loop never ends. `Scheduler.Run` and `RunSpec` model its first K iterations, for any K.
- Instant subtraction is modelled as saturating at zero, which is how Rust has behaved since 1.60. Older toolchains panicked instead.
- Subscriber.Multiplexer.Handle: a sample's `unwrap` on a closed receive channel is not modelled, because it is part of the transport.
