# InternetMonitor agent: measurement scheduler and speed store

This project models the core of the InternetMonitor agent (`agent/main.go`) in Dafny.
The agent is a local status service. Each request to `/status` dials a fixed endpoint to decide whether the host is online. It reports the most recent download speed without waiting. When the host is online, it asks a measurement gate to start a background download-speed measurement.

The gate allows one measurement at a time. It also enforces a 30-second cooldown between the end of one measurement and the start of the next. Each finished measurement passes its speed to the speed store. The store always keeps the latest speed and inserts a history row unless the new speed and the last recorded speed are both zero.

In the source, two mutexes guard this state. The model puts it in one sequential class, `Agent.Monitor`. Each locked region becomes one atomic method:

- `UpdateLastSpeed` models the write-locked store update.
- `ReadSpeed` models the handler's read-locked read.
- `TryStart` models the gate's check-and-set.
- `Finish` models the body's completion together with its deferred guard reset.

Ghost fields log every stored speed, every history row, every start and every finish. The class invariant ties the real fields to these logs.

Modules:

- `Probe` (`probe.dfy`): the `Status` record, the build version `"1.1.0"` and `CheckConnectivity`. The dial is an input, either `DialFailed` or `Connected(elapsedMs)`.
- `Measure` (`measure.dfy`): the clock, in integer nanoseconds. It also holds the 30 s cooldown, the gate predicate `MayStart` and the download outcome with its speed in Mbps.
- `Dedup` (`dedup.dfy`): the zero-write rule stated on sequences of updates. `Written` follows the rule step by step. `Kept` is an independent reference: a zero update is kept only when the update just before it, or the initial zero, was non-zero. The module proves that the two are equal and states the laws that follow.
- `Agent` (`agent.dfy`): the `Monitor` class, the status handler and request scenarios.

Go's zero `time.Time` is the initial "last measurement time". In Go, `time.Since` of the zero time stops at the largest Duration, about 292 years, which far exceeds the 30 s cooldown. So the model writes it as `Instant.Never`, and the gate treats it as open.

One consequence of the rule is proved in `Dedup.RecordedIsLastUpdate` and `Agent.HistoryLaws`: after any update, `lastRecordedSpeed` equals `lastSpeed`. A zero is skipped only when the recorded speed is already zero.

## Model

| member | source | states |
|---|---|---|
| `Probe.CheckConnectivity` | agent/main.go:64-82 | online exactly when the dial connected; latency is the dial's elapsed time when online and 0 when not; version is "1.1.0" and download speed is left at 0 |
| `Measure.MeasuredSpeed` | agent/main.go:104-126 | the speed is never negative; it is 0 exactly on a request error, a read error, a zero-duration download or zero bytes, and positive otherwise |
| `Measure.FullPayloadInOneSecond` | agent/main.go:124 | 5,000,000 bytes in 1 second give 40 Mbps |
| `Dedup.RecordedIsLastUpdate` | agent/main.go:133-138 | after at least one update, the recorded speed equals the last update, that is the stored `lastSpeed` |
| `Dedup.RecordedIsLastRow` | agent/main.go:36 | the recorded speed is the speed of the last written row, or the initial value if no row was written |
| `Dedup.KeptSnoc` | agent/main.go:135 | appending one update extends the reference history by that update exactly when it or the preceding update is non-zero |
| `Dedup.WrittenIsKept` | agent/main.go:134-144 | the rows the rule writes are exactly the updates that are non-zero or follow a non-zero update |
| `Dedup.NoZeroRuns` | agent/main.go:134-138 | from the initial state, no two neighbouring written rows are both zero, and the first written row is non-zero |
| `Dedup.KeptRows` | agent/main.go:135-144 | every written row is one of the updates; there are no more rows than updates; a non-zero update at position i is written, as the row right after those written for the updates before i |
| `Dedup.KeptSplit` | agent/main.go:135-138 | the rows written for a sequence of updates are those written for a prefix, followed by those the rest writes starting from the prefix's last update |
| `Dedup.OutageExample` | agent/main.go:134-138 | updates 5, 0, 0, 0, 7 from the initial state write exactly the rows 5, 0, 7 |
| `Agent.Row` | agent/main.go:153 | the inserted row is online, has latency 0 and the build version, and carries the given speed and time |
| `Agent.Monitor.constructor` | agent/main.go:33-40 | the process starts with zero speeds, no measurement in flight, no last measurement time and empty logs; the invariant holds |
| `Agent.Monitor.ReadSpeed` | agent/main.go:183-185 | returns the last stored speed, or 0 before any |
| `Agent.Monitor.UpdateLastSpeed` | agent/main.go:131-157 | always stores the speed; when the rule allows, records the speed and appends one row (online, latency 0, version); otherwise leaves the recorded speed and history unchanged; the guard is untouched; the speed store's half of the invariant (`SpeedValid`) is kept, and `Finish` restores the full `Valid` |
| `Agent.Monitor.TryStart` | agent/main.go:85-93 | starts exactly when no measurement is in flight and the cooldown has elapsed since the last finish; on rejection nothing changes; the speed store is never touched |
| `Agent.Monitor.Finish` | agent/main.go:95-127 | stores the measured speed exactly once (0 on every failure path), appends the row the rule allows, then clears the in-flight flag and sets the last measurement time to now |
| `Agent.Monitor.HandleStatus` | agent/main.go:179-197 | the status is the probe result carrying the stored speed; the gate is consulted only when online and decides whether to start; an offline request changes nothing |
| `Agent.HistoryLaws` | agent/main.go:131-153 | in every reachable state the recorded speed equals the stored speed and the speed of the last history row (0 before any); history has no two neighbouring zero rows; its first row is non-zero; every row is online, with latency 0 and the build version |
| `Agent.RestartBlockedDuringCooldown` | agent/main.go:96-101 | once a measurement finishes at time t, the gate rejects every start before t + 30 s |
| `Agent.TwoRequestsOneSecondApart` | agent/main.go:195-197 | an online agent's first request starts a measurement; a second request 1 s later is rejected |
| `Agent.OfflineRequestDoesNotStart` | agent/main.go:67-72 | an offline request reports offline with speed 0 and starts no measurement |
| `Agent.CooldownAfterFinish` | agent/main.go:88-101 | after a 40 Mbps measurement finishes, a request 29 s later is rejected, one 30 s later starts, and the status reports 40 Mbps |

The class invariant `Agent.Monitor.Valid` holds these facts:

- The stored speed is the last update, or 0 before any update.
- The recorded speed is `RecordedAfter(0, updates)`.
- The history's speeds are `Written(0, updates)`.
- Every row is online, with latency 0 and the build version.
- Starts and finishes alternate, so at most one measurement is in flight.
- Every start after the first comes at least 30 s after the previous finish.
- Each finish handed exactly one speed to the store.

## Left out

- The HTTP server, routing, the JSON encoding of `Status` and the `127.0.0.1:8787` listener are I/O plumbing. `HandleStatus` returns the status value instead. The response is sent before the gate is consulted; the model keeps that order in `HandleStatus`, but sending is not modelled.
- `net.DialTimeout`, the 2 s dial timeout and the latency arithmetic are network and wall-clock I/O. The dial's outcome and elapsed milliseconds are inputs.
- The HTTP download and `io.Copy` are network I/O. The outcome (request error, read error, or bytes received over a duration) is an input to `Finish`.
- The HTTP client's 30 s timeout is left out. A download it cuts off appears as `RequestFailed` or `ReadFailed`. The `seconds` of a `Received` outcome is not bounded by the timeout.
- `Measure.MeasuredSpeed`: computes `bytes * 8 / seconds / 1e6` over exact reals. It does not model float64 rounding.
- SQLite covers opening the database, creating the table, and preparing and running the insert. It is a foreign library. Each insert is an append to the ghost `history` log. A failed prepare or insert drops the row in the source. The model does not represent that failure: `history` lists the rows the agent tried to insert. Rows left by earlier runs of the process are not part of the log.
- `loadConfig` is file I/O with library JSON parsing. No logic uses its thresholds.
- Goroutines, `sync.Mutex`/`sync.RWMutex` and logging are left out. Each locked region is one atomic method. Interleavings between the release of one lock and the next acquisition are not modelled.
- `Agent.Monitor.HandleStatus`: one `now` serves as the status timestamp and as the gate's clock. In the source these are separate `time.Now()` readings, and the gate's comes after the response is sent. So the model cannot show a request whose timestamp is just under 30 s after a finish and that still starts a measurement.
- `Agent.Monitor.Finish`: the history row's timestamp and the new last measurement time are both `now`. In the source they are two successive `time.Now()` readings.
- `Agent.Monitor.Finish`: requires a measurement in flight. In the source it only runs in the goroutine that a successful start spawns.
