# uTorrent Prometheus exporter: the poll-to-metric reconciliation

The exporter polls a uTorrent client's Web API for its torrent list and turns each
torrent into Prometheus metrics labelled `(torrent, hash)`:

- two counters, bytes downloaded and bytes uploaded. Each is advanced by the
  difference between the cumulative total just reported and the total stored
  at the previous sighting;
- eleven gauges, set from the torrent's fields. Availability is divided by
  65536 and progress by 10.

Between polls it keeps two dictionaries, `LastBytesDownloadedState` and
`LastBytesUploadedState`, which map a torrent hash to its last cumulative total.
Display names are made safe for labels by `SanitizeString`, which removes
double quotes and backslashes.

This project models that core in Dafny:

- `labels.dfy`: `SanitizeString` as `Labels.Sanitize`, with its character-level
  characterisation.
- `snapshot.dfy`: the records one poll hands over (`Torrent`, `Response`), and
  how `GetList` can end (`Fetch`: a possibly null response, or an exception).
  C# `long` subtraction is written out as `Sub64`, which wraps modulo 2^64.
- `metrics.dfy`: the two counters and eleven gauges.
  The metric library is represented by the sequence of `Inc`/`Set` operations
  pushed to it (`MetricOp`).
- `reconcile.dfy`: the `foreach` body and its fold over the list as pure
  specification functions. It also holds the proved properties: first and
  repeat sightings, dictionary bookkeeping, last occurrence wins, gauges for
  every torrent, and telescoping sums.
- `driver.dfy`: one iteration of the endless poll loop, including its guard and
  exception handlers, and a finite run of iterations.
- `exporter.dfy`: `Exporter.Reconciler`, a class that owns the two dictionaries
  and the emitted-operation log and updates them in place. Its methods follow
  the statements of `Main` and are proved against the functions above.
- `folds.dfy`, `wrappers.dfy`: a generic left fold (final state plus emitted
  trace) and `Option`.

Two behaviours of the code are easy to miss:

- A counter increment is computed with C# `long` subtraction, which wraps. It
  is exactly "new total minus stored total" only while that difference fits in 64 bits.
- A null response makes the guard of line 194 false (`response != null`
  short-circuits) and is then dereferenced by `response.Error` on line 244.
  A response whose `Error` is null and whose `Result` is null is dereferenced
  on line 194 itself. Both raise a `NullReferenceException`,
  which the generic handler of line 253 reports as a fatal error. The model
  reports those two cases as `FatalError` with .NET's null-reference message;
  neither dictionary nor any metric changes.

## Model

| member | source | states |
|---|---|---|
| Labels.Remove | utorrent-prometheus-exporter/Program.cs:264 | one `Replace(x, "")`: the result no longer contains `x`, holds only characters of the input, and is no longer than it |
| Labels.Sanitize | utorrent-prometheus-exporter/Program.cs:262-265 | the sanitised name contains no `"` and no `\` |
| Labels.RemoveConcat | utorrent-prometheus-exporter/Program.cs:264 | removing a character distributes over concatenation |
| Labels.RemoveAbsent | utorrent-prometheus-exporter/Program.cs:264 | removing a character that does not occur changes nothing |
| Labels.SanitizeConcat | utorrent-prometheus-exporter/Program.cs:264 | sanitising a concatenation is the concatenation of the sanitised parts, so it works character by character and keeps the order |
| Labels.SanitizeChar | utorrent-prometheus-exporter/Program.cs:264 | a single character is dropped if it is `"` or `\` and kept otherwise |
| Labels.SanitizeFixes | utorrent-prometheus-exporter/Program.cs:264 | a name is left unchanged if and only if it contains neither `"` nor `\` |
| Labels.SanitizeIdempotent | utorrent-prometheus-exporter/Program.cs:264 | sanitising an already sanitised name changes nothing |
| Labels.RemoveCounts | utorrent-prometheus-exporter/Program.cs:264 | removing one character keeps every other character as many times as it occurred |
| Labels.SanitizeKeepsSafe | utorrent-prometheus-exporter/Program.cs:264 | every character other than `"` and `\` occurs in the sanitised name exactly as often as in the input |
| Snapshot.Sub64 | utorrent-prometheus-exporter/Program.cs:202 | `long` subtraction: the exact difference when it fits in 64 bits, otherwise the difference shifted by exactly 2^64 |
| Metrics.GaugeScaling | utorrent-prometheus-exporter/Program.cs:219-240 | availability is the raw value over 65536 and progress the raw value over 10; ratio and the eight other gauges carry their raw field unchanged; 32768 gives 0.5 and 500 gives 50.0 |
| Reconcile.GaugeOpsIncrementNothing | utorrent-prometheus-exporter/Program.cs:219-240 | setting the eleven gauges increments no counter |
| Reconcile.CounterOpsSeparate | utorrent-prometheus-exporter/Program.cs:200-217 | the downloaded block never increments the uploaded counter, and the other way round |
| Reconcile.TorrentIncrements | utorrent-prometheus-exporter/Program.cs:199-241 | in one pass of the loop body, the increments of a counter come only from that counter's own block |
| Reconcile.CounterStep | utorrent-prometheus-exporter/Program.cs:200-217 | one sighting: no increment if the hash is not stored; otherwise exactly one increment, new total minus stored total, passed on even when negative; no other hash's counter moves; the stored total becomes the new one and no other entry changes |
| Reconcile.CountersStartTogether | utorrent-prometheus-exporter/Program.cs:200-217 | in a state where both dictionaries know the same hashes, a torrent gets a downloaded increment if and only if it gets an uploaded one: both counters start counting a hash in the same poll |
| Reconcile.ListStep | utorrent-prometheus-exporter/Program.cs:197 | one more element of the `foreach` is one more pass of its body on the state left by the earlier elements |
| Reconcile.RecordAllKeys | utorrent-prometheus-exporter/Program.cs:197-217 | after a list, each dictionary knows exactly the hashes it knew before plus the listed ones; no entry is ever removed |
| Reconcile.RecordAllValid | utorrent-prometheus-exporter/Program.cs:171-217 | both dictionaries always know the same hashes |
| Reconcile.RecordAllLastOccurrence | utorrent-prometheus-exporter/Program.cs:197-217 | after a list, a listed hash holds the totals of its last occurrence in the list |
| Reconcile.RecordAllUntouched | utorrent-prometheus-exporter/Program.cs:197-217 | a hash not in the list keeps its entry, or its absence, unchanged |
| Reconcile.RecordAllAppend | utorrent-prometheus-exporter/Program.cs:197 | processing two lists one after the other leaves the same dictionaries as processing their concatenation |
| Reconcile.ListOpsAppend | utorrent-prometheus-exporter/Program.cs:197 | the operations pushed for a concatenation are those of the first list followed by those of the second, on the state the first left |
| Reconcile.ListOpsGauges | utorrent-prometheus-exporter/Program.cs:219-240 | every listed torrent gets each of the eleven gauges set, labelled with its sanitised name and hash, whatever was stored before |
| Reconcile.ListOpsLength | utorrent-prometheus-exporter/Program.cs:197-241 | each torrent pushes at least eleven operations, and nothing is pushed if and only if the list is empty |
| Reconcile.RepeatSighting | utorrent-prometheus-exporter/Program.cs:200-217 | a new hash listed twice: one increment, the second total minus the first, and the stored total ends at the second |
| Reconcile.RecordAllNonNegative | utorrent-prometheus-exporter/Program.cs:207-217 | if every total that comes in is non-negative, every stored total stays non-negative |
| Reconcile.IncrementsAreDeltas | utorrent-prometheus-exporter/Program.cs:200-217 | the increments pushed for a hash over a list are, in order, the differences between each sighting and the previously stored total |
| Reconcile.DeltasTelescope | utorrent-prometheus-exporter/Program.cs:200-217 | those differences sum to the latest total minus the first total ever stored or listed, and to 0 for a hash never seen |
| Reconcile.CounterTelescopes | utorrent-prometheus-exporter/Program.cs:200-217 | telescoping over one list: the increments of a counter for a hash sum to its latest total minus the total it started from, and to 0 for a hash never seen |
| Reconcile.FirstReadingUnseen | utorrent-prometheus-exporter/Program.cs:200-217 | a hash still unknown after a list has no starting total |
| Reconcile.IncrementsUnseen | utorrent-prometheus-exporter/Program.cs:200-215 | a hash still unknown after a list received no increment |
| Driver.PollGuard | utorrent-prometheus-exporter/Program.cs:193-247 | only a list the guard admits is processed; anything else leaves both dictionaries unchanged and pushes nothing; something is pushed if and only if a non-empty list is admitted |
| Driver.PollFailureReports | utorrent-prometheus-exporter/Program.cs:244-256 | bad credentials and only bad credentials give the login message; an error payload is reported with its message; any other exception is a fatal error with its own message; a null response, or a null `Result` without an error payload, is a fatal null-reference error; an error report means nothing was processed |
| Driver.PollsStep | utorrent-prometheus-exporter/Program.cs:188-259 | one more iteration of the poll loop is one more poll step on the state left by the earlier ones |
| Driver.PollsAreOneList | utorrent-prometheus-exporter/Program.cs:188-259 | for the dictionaries and the pushed operations, a run of polls is the same as processing the admitted lists concatenated; failed polls leave no trace |
| Driver.PollsTelescope | utorrent-prometheus-exporter/Program.cs:188-259 | telescoping across any run of polls: a counter's increments for a hash sum to its latest total minus the total it was first seen with, and to 0 for a hash never seen |
| Driver.ThreePollScenario | utorrent-prometheus-exporter/Program.cs:188-259 | first seen at 1000/200, then 1500/250, then a failing call: increments of 500 and 50; the failure changes nothing and is reported; the dictionaries end at 1500 and 250 |
| Exporter.Reconciler.constructor | utorrent-prometheus-exporter/Program.cs:171-172 | both dictionaries start empty and nothing has been pushed |
| Exporter.Reconciler.SetGauge | utorrent-prometheus-exporter/Program.cs:219 | one gauge set is pushed, labelled with the sanitised name and hash; the dictionaries are unchanged |
| Exporter.Reconciler.CountTransfer | utorrent-prometheus-exporter/Program.cs:200-217 | one counter block: pushes the increment only if the hash was stored, then overwrites that counter's entry; the other dictionary is unchanged |
| Exporter.Reconciler.SetTransferGauges | utorrent-prometheus-exporter/Program.cs:219-228 | the speed, size and availability gauges are pushed in source order; the dictionaries are unchanged |
| Exporter.Reconciler.SetSwarmGauges | utorrent-prometheus-exporter/Program.cs:230-240 | the peer, seed, ratio and progress gauges are pushed in source order; the dictionaries are unchanged |
| Exporter.Reconciler.SetGauges | utorrent-prometheus-exporter/Program.cs:219-240 | all eleven gauges are pushed in source order; the dictionaries are unchanged |
| Exporter.Reconciler.ProcessTorrent | utorrent-prometheus-exporter/Program.cs:199-241 | one pass of the loop body: the dictionaries become `Record` of the old ones and the pushed operations are `TorrentOps`; both dictionaries keep the same hashes |
| Exporter.Reconciler.ProcessTorrents | utorrent-prometheus-exporter/Program.cs:197-242 | the in-place `foreach` leaves exactly the state `RecordAll` specifies and pushes exactly `ListOps` |
| Exporter.Reconciler.Poll | utorrent-prometheus-exporter/Program.cs:190-256 | one iteration, including its guard and exception handlers, ends in the state, operations and report of `PollStep` |
| Exporter.Reconciler.PollEach | utorrent-prometheus-exporter/Program.cs:188-259 | a finite run of iterations ends in the state, operations and reports of the fold of `PollStep` over the fetches |

## Left out

- `CounterTelescopes`: proved only when every stored and listed total is non-negative. With negative totals a `long` subtraction can wrap, and the sum of the increments then differs from the difference of the totals by a multiple of 2^64.
- `DeltasTelescope`: the same non-negativity restriction as `CounterTelescopes`.
- `PollsTelescope`: the same non-negativity restriction as `CounterTelescopes`.
- Exceptions raised partway through the `foreach` are not modelled. A null hash would make the dictionary throw, and a null name would make `Replace` throw. Strings in the model are never null. In the code, such an exception leaves the torrents already processed recorded and their metrics pushed.
- The metric library's own behaviour is outside the model, including whether `Counter.Inc` rejects a negative amount. Pushed operations are only recorded, with the amount as an exact integer.
- The `long`/`int` to `double` conversions of the amounts and gauge values are modelled as exact integers and reals. Floating-point rounding and the double division for availability and progress are not modelled.
- The C# types of the client library's torrent fields are not part of this model. Gauge fields are integers, ratio is a real, and only the two byte totals are bounded to `long`.
- Command-line parsing, `MetricServer` start-up and metric registration are not modelled. The two counters and eleven gauges are the `Metrics.Counter` and `Metrics.Gauge` constructors, in registration order; their registered names are not part of the model.
- `UTorrentClient` and the `GetList` network call are not modelled. Its outcome is an input `Fetch`: a possibly null response, a credentials failure, or another exception with its message.
- The endless `for (;;)` loop, `Thread.Sleep` and verbose console logging are not modelled. `PollEach` runs a finite prefix of the loop, and each iteration's console output is reduced to a `Report`.
