# Verification of the retina agent's concurrent core

This project models, in Dafny, the parts of the agent where correctness depends on interleavings, clocks or
arithmetic, and proves what they guarantee in every run:

- the caracal prober's **in-flight probe table** (`internal/agent/caracal_prober.go`): many concurrent calls of
  `Probe`, the writer and reader loops that talk to caracal, and the cleanup sweep, sharing one map;
- the agent's **three-stage pipeline** (`internal/agent/agent.go`): reader, processor with one goroutine for each
  directive, and writer, over two bounded channels, with its close protocol and error-group cancellation;
- the **reader's error counting** (`readerLoop`, `handleDecodeError`) and the **reconnect backoff**
  (`cmd/retina-agent/main.go`).

## How the model is built

| file | contents |
|---|---|
| `GoNumbers.dfy` | int64 wrap-around, truncating division, decimal printing and parsing |
| `Directives.dfy` | directives, `validatePD`, half words, addresses, probe keys |
| `CaracalRecords.dfy` | requests, result records, timestamps, the key rebuilt from a record |
| `CsvLines.dfy` | requests as lines of text, joined and split at commas |
| `ProbeTable.dfy` | the probe table as a state machine, one event for each atomic action |
| `ProbeTableInvariants.dfy` | what every event of the table keeps |
| `ProbeTableTheorems.dfy` | ownership, metrics, search and the return of calls over all runs, with exact conditions |
| `Attribution.dfy` | which call a result reaches and when a call is rejected, with the exact spacing |
| `CallProgress.dfy` | when a call can still come back without being cancelled |
| `CaracalProber.dfy` | the prober as a class; every method is one atomic action and takes the machine's step |
| `ForwardingInfo.dfy`, `FIEProvenance.dfy` | `processPD` and `buildFIE`; from a FIE back to caracal's records |
| `Pipeline.dfy`, `PipelineInvariants.dfy`, `PipelineTheorems.dfy` | the pipeline as a state machine, and its guarantees |
| `Agent.dfy` | the pipeline as a class over that machine |
| `Session.dfy`, `SessionInvariants.dfy` | one run of the whole agent: goroutines of the pipeline joined to their calls in the table |
| `SessionTheorems.dfy`, `SessionShutdown.dfy` | where FIEs come from, when a directive is dropped, and how everything comes to rest |
| `SessionProgress.dfy`, `SessionDrive.dfy` | when a directive can still get its FIE |
| `ReaderLoop.dfy` | the reader's loop against a reference definition over event sequences |
| `Reconnect.dfy` | the backoff loop in int64 arithmetic against a closed form |
| `Totals.dfy`, `Wrappers.dfy` | sums over sequences, option and result types |

The two concurrent objects are classes whose fields are the program's maps, channels, gauges and goroutine locals.
A lock region, a channel operation, a clock reading and an update of a metric are each one atomic action, hence one
method. `Feasible` and `After` define runs of the state machines, so a statement about every `Reachable` state holds
under every interleaving, for any number of calls and directives. `Valid()` of a class says that its fields are a
reachable state. Some fields are history only, such as which request caused a result or what was ever queued; they are
ghost fields of the classes where no executable statement needs them, and the comments say so where one does.

A session puts the two machines together. A goroutine makes its two calls, sees only what they return, and its
context is theirs; a call is made by a goroutine and by nobody else. Its parts are runs of the two machines, so
their theorems hold in it, and nothing is left to assume about what a probe returns or when it is cancelled.

The environment is as free as the program allows: the context is cancelled and writes fail at any moment; caracal reports on any line it was sent, any number of times, at any time, with any timestamps, and sends
unusable records whenever it likes. Two things are assumed of it. Instants come from one clock that does not go
back. A record with a usable key repeats the header fields and TTL of a line that was written, its destination in
the same or in IPv4-mapped form (section 2.5.5.2 of RFC 4291), and the protocol as its number.

## What the proofs found

Each of these holds exactly under the stated condition, and both directions are proved.

- The deferred `delete(p.inFlight, key)` checks no ownership. It never removes another call's entry exactly when no
  call takes more than ProbeTimeout + 4 s + 1 ns between reading the clock and taking the lock.
- A call whose timer starts within 5 s of its clock reading keeps its entry until the timer fires exactly when
  ProbeTimeout is at least 1 s less 1 ns. For shorter timeouts an older call with the same key can delete it.
- With replies reconstructed within w seconds of their request's key second, for any w of zero or more, calls return
  only results of their own requests exactly when calls with equal 5-tuples are more than w + 2 key seconds apart. At
  w + 2 a late reply can be returned by the successor of a call that gave up.
- Among calls that take the lock within ProbeTimeout + 4 s + 1 ns of reading the clock, a call is rejected as a duplicate
  exactly when another call with its key has registered and not yet run its deferred delete. That bound is exact too.
- A registered call of Probe can return without being cancelled exactly when it does not wait for room in a full write
  queue whose writer has stopped. The prober's writer stops with the prober, while the callers' context lives on.
- As long as the context is live and no write has failed, an accepted directive can still get its FIE exactly when
  neither of its probes was rejected and, if the prober's writer has stopped, the write queue has the places its probes
  need.
- The backoff follows its closed form exactly when MaxReconnectBackoff is below 2^62 ns. From there on, doubling
  overflows and the wait becomes negative.
- An error that reports a partial frame ends the reader, after any events it has survived, exactly when it carries no
  timeout, or the context is done, or five timeouts have been counted already.

Where code and documentation differ the model follows the code:

- A duplicate probe returns `ErrDuplicatePD` (caracal_prober.go:249), not `nil, nil` as the comment at line 232 says.
- README.md:148 promises a FIE for every directive; duplicates, failed writes and cancellations send none, and a probe
  that waits at a full queue whose writer has stopped holds its directive back for ever.
- The comments at agent.go:195-201 and 262-266 call every partial frame fatal, but the timeout test at line 203
  comes first.
- Invalid directives reset neither counter of the reader; timeouts do not reset the decode counter.
- prober.go:28 says that Probe must not block indefinitely, and README.md:153 that queueing is non-blocking; the first
  select of `Probe` (caracal_prober.go:268-273) has no timeout.

## Model

| member | source | states |
|---|---|---|
| GoNumbers.Wrap64 | internal/agent/caracal_prober.go:418 | Duration arithmetic leaves the int64 congruent to the exact result modulo 2^64, and the exact result itself when it fits |
| GoNumbers.TruncDiv | internal/agent/caracal_prober.go:412 | Go's integer division truncates toward zero, for negative capture times too |
| GoNumbers.TruncMod | internal/agent/caracal_prober.go:412 | the remainder completes the truncated quotient and takes the dividend's sign |
| GoNumbers.ItoaParseUint | internal/agent/caracal_prober.go:316-322 | a printed header field parses back to its value, or to a range error when it exceeds the limit |
| GoNumbers.ItoaParseInt64 | internal/agent/caracal_prober.go:410-418 | a printed timestamp parses back, over all of int64 |
| GoNumbers.PrintedTen | internal/agent/caracal_prober.go:316-322 | numbers are printed in base ten, with a sign only when negative |
| GoNumbers.PlusIsRead | internal/agent/caracal_prober.go:410-418 | a leading plus sign is accepted although none is ever printed |
| GoNumbers.OtherTextIsUnreadable | internal/agent/caracal_prober.go:410-418 | any character that is neither a digit nor a leading sign makes a number unreadable |
| Directives.Canonical | internal/agent/caracal_prober.go:434-445 | an address with an IPv4 form becomes its four bytes; no other address changes |
| Directives.Mapped | internal/agent/caracal_prober.go:432-433 | the IPv4-mapped form of an address normalises to the same address |
| Directives.LowHalf | internal/agent/caracal_prober.go:190-202 | a header value above 65535 wraps modulo 65536; one that fits is unchanged |
| Directives.ValidatePD | internal/agent/agent.go:532-571 | an accepted directive is returned unchanged with NearTTL between 1 and 254 |
| Directives.ValidatedDirectives | internal/agent/agent.go:525-571 | validation accepts exactly the directives with an agent ID, a header matching a supported protocol, and a far TTL that does not wrap |
| Directives.ValidationErrors | internal/agent/agent.go:536-571 | each error is given exactly when its check is the first to fail |
| Directives.MappedExample | internal/agent/caracal_prober.go:432-445 | the IPv4-mapped form of 192.0.2.1 normalises to 192.0.2.1 |
| Directives.FarTTL | internal/agent/agent.go:369 | the far TTL of a valid directive is NearTTL + 1 |
| Directives.SiblingKeysDiffer | internal/agent/agent.go:368-379 | the two probes of a directive have different keys whatever seconds they are queued in, NearTTL 255 included |
| CaracalRecords.Unix | internal/agent/caracal_prober.go:491 | the Unix second of an instant contains it, before the epoch as after |
| CaracalRecords.GoUnix | internal/agent/caracal_prober.go:412 | time.Unix denotes sec and nsec added up, although it carries a negative nsec into the seconds |
| CaracalRecords.CaptureTimeIsExact | internal/agent/caracal_prober.go:410-414 | splitting microseconds with truncating operators loses nothing, for negative times too |
| CaracalRecords.TimestampArithmetic | internal/agent/caracal_prober.go:38-40 | for any capture time and RTT, received minus sent is exactly 0.1 ms times rtt if and only if the RTT does not overflow a Duration, as 16 bits never do; the second of the send time is then floor((capture - 100 rtt) / 10^6) |
| CaracalRecords.AcceptedResults | internal/agent/caracal_prober.go:405-431 | the result of every accepted record is what its columns say: received at 1000 times column 0 in nanoseconds, sent 100000 times column 15 earlier, in int64 arithmetic, from the address in column 2 and answered by that in column 8; it is searched for at floor((capture - 100 rtt) / 10^6) unless the RTT overflows a Duration |
| CaracalRecords.UnacceptedRecords | internal/agent/caracal_prober.go:375-388 | a record of fewer than 17 fields is rejected, and a longer one is skipped if and only if a timestamp is missing, unreadable or the zero time |
| CaracalRecords.ZeroTimeIsYearOne | internal/agent/caracal_prober.go:425 | the zero time is midnight of 1 January of year 1, counted in days and leap days from the epoch |
| CaracalRecords.RequestsCarryTheProbe | internal/agent/caracal_prober.go:190-214 | a request holds the destination in canonical form, the header's own values modulo 65536 in the header's order, for ICMP, ICMPv6 and UDP, then the TTL and the protocol's name |
| CaracalRecords.EchoedProtocol | internal/agent/caracal_prober.go:592-605 | exactly the three supported protocols have a name caracal answers to, with the right IP protocol number |
| CaracalRecords.KeyRoundTrip | internal/agent/caracal_prober.go:450-493 | the key rebuilt from any echo of a request is the registered key at the reconstructed second, for all directives, TTLs and 32-bit header values |
| CaracalRecords.ValidDirectivesAreEchoed | internal/agent/caracal_prober.go:311-329 | every valid directive's request has an echo, with any timestamps |
| CaracalRecords.RequestIdentifiesTuple | internal/agent/caracal_prober.go:316-322 | two probes of valid directives are written as the same line if and only if they have the same 5-tuple |
| CsvLines.SplitJoin | internal/agent/caracal_prober.go:316-324 | splitting a line at its separators undoes joining, for all fields without one |
| CsvLines.RequestLineRoundTrip | internal/agent/caracal_prober.go:316-324 | no field of a request needs quotes, whatever the directive, and the line splits at its commas into the address, the header's own values modulo 65536 in the header's order, the TTL and the protocol's name |
| CsvLines.DottedDecimalRoundTrip | internal/agent/caracal_prober.go:317 | a printed IPv4 address splits at its dots into its four bytes |
| CsvLines.IPv4LinesIdentifyTuples | internal/agent/caracal_prober.go:316-324 | two probes of valid directives to IPv4 addresses are written as the same text if and only if they have the same 5-tuple |
| CaracalRecords.AcceptedRecords | internal/agent/caracal_prober.go:375-394 | a record is searched for if and only if it has 17 fields, readable timestamps that are not the zero time, and a numeric key of a supported protocol |
| CaracalRecords.EchoedRecordsCarryTheTuple | internal/agent/caracal_prober.go:375-392 | an echo is never rejected, and is searched for under its request's 5-tuple if its timestamps are usable |
| ProbeTableInvariants.StepKeepsOwnership | internal/agent/caracal_prober.go:241-265 | every action keeps: entries belong to live calls; a call owning its entry beside a live rival registered late; a live call without its entry outlived the stale margin or registered late |
| ProbeTableInvariants.StepKeepsCorrelation | internal/agent/caracal_prober.go:499-517 | every action keeps: requests are those of registered calls, results sent to a call share its 5-tuple within two seconds, and channels hold what was delivered |
| ProbeTableInvariants.StepKeepsInvariant | internal/agent/caracal_prober.go:236-289 | every action of every party keeps the whole invariant |
| ProbeTableInvariants.InvariantHolds | internal/agent/caracal_prober.go:236-289 | the invariant holds in every reachable state |
| ProbeTableTheorems.EveryEntryHasOneLiveOwner | internal/agent/caracal_prober.go:251-265 | every entry belongs to exactly one call, which has not run its deferred delete |
| ProbeTableTheorems.OnlyLateCallsLoseEntries | internal/agent/caracal_prober.go:255-265 | a deferred delete that finds another call's entry finds one whose maker took the lock more than ProbeTimeout + 4 s + 1 ns after reading the clock |
| ProbeTableTheorems.CrossDeletionRun | internal/agent/caracal_prober.go:255-265 | a run in which one more nanosecond of delay makes a call delete another's entry |
| ProbeTableTheorems.DeferredDeleteIsSafeIffPunctual | internal/agent/caracal_prober.go:238-265 | over all runs with a given bound on the delay, no cross-deletion if and only if the bound is at most ProbeTimeout + 4 s + 1 ns |
| ProbeTableTheorems.SweptKeysStayAbsent | internal/agent/caracal_prober.go:242-265 | while calls are punctual, the key of a live call that lost its entry stays absent until that call ends |
| ProbeTableTheorems.EntriesOutliveTheMargin | internal/agent/caracal_prober.go:546-559 | a punctual call's entry is present from registration to deferred delete until ProbeTimeout + 5 s after its clock reading, whatever is swept or deleted meanwhile |
| ProbeTableTheorems.TimersProtectEntriesIff | internal/agent/caracal_prober.go:276-288 | a timer started within 5 s of the clock reading protects the entry until it fires, in all runs, if and only if ProbeTimeout is at least 1 s less 1 ns |
| Attribution.AnswersFit | internal/agent/caracal_prober.go:279-281 | a call returns the first result ever sent on its channel, parsed from a record that echoes the line of a request with its 5-tuple, equal to what that record's columns say, and sent within two seconds of its key second |
| Attribution.AtMostOneResultWaits | internal/agent/caracal_prober.go:237 | until it leaves, a call has been sent at most one result, and its channel holds it |
| Attribution.AnswersAreOwn | internal/agent/caracal_prober.go:499-517 | an answer is to the call's own request whenever equal 5-tuples are spaced by more than the reply window plus two seconds |
| Attribution.AttributionIffSpacing | internal/agent/caracal_prober.go:10-13 | for every reply window w of zero or more seconds: with replies reconstructed within w seconds of their request's key second, every answer in every run is to the call's own request if and only if equal 5-tuples are more than w + 2 key seconds apart |
| Attribution.MisattributionRun | internal/agent/caracal_prober.go:502-516 | for every reply window w, a run with calls w + 2 seconds apart in which a late reply is returned by the wrong call |
| Attribution.RealTimeAttribution | internal/agent/caracal_prober.go:236-289 | the same on the clock: replies sent within 2 s of queueing and equal 5-tuples queued 5 s apart are attributed correctly |
| Attribution.ReplySentAt | internal/agent/caracal_prober.go:375-394 | caracal can report on any valid directive with any representable capture time and RTT that avoid the zero time, and the record is searched for at floor((capture - 100 rtt) / 10^6) |
| Attribution.SiblingsNeverCollide | internal/agent/agent.go:368-382 | the two probes of a directive never reject each other as duplicates and never receive each other's results |
| ProbeTableTheorems.GaugeIsTableSize | internal/agent/caracal_prober.go:248-264 | at every interleaving, with every metric update after an unlock a step of its own: the gauge is the table size plus pending decrements, registrations are entries, own removals and swept ones, DuplicateProbesTotal counts the calls that returned ErrDuplicatePD, and StaleProbesCleanedTotal trails the sweep by one unreported batch at most |
| ProbeTableTheorems.EveryRecordIsAccountedFor | internal/agent/caracal_prober.go:375-394 | every record read was rejected, skipped, delivered, dropped or a correlation failure, or is being worked on; deliveries are results sent |
| ProbeTableTheorems.RequestsAreWrittenInOrder | internal/agent/caracal_prober.go:291-309 | requests reach caracal in the order they were queued, within the queue's capacity, and only one whose write failed is lost |
| ProbeTableTheorems.TableDrains | internal/agent/caracal_prober.go:255-265 | once every call has returned and no sweep is unreported, the table is empty and the gauge is zero |
| ProbeTableTheorems.CancelledCallsReturn | internal/agent/caracal_prober.go:236-289 | until it has returned, a call whose context is done always has a next step that waits for nobody, and in no run does a call take more than seven steps of its own |
| ProbeTableTheorems.OutcomesAreDecidedByTheSelects | internal/agent/caracal_prober.go:268-288 | a call times out if and only if its own timer fires when due, and is cancelled if and only if its own select, before or after the timer was started, takes the ctx.Done() case |
| ProbeTableTheorems.OutcomeIsFinal | internal/agent/caracal_prober.go:255-288 | what a call leaves its select with is what it returns, in every continuation |
| ProbeTableTheorems.TimeoutsAreNotEarly | internal/agent/caracal_prober.go:276-285 | no call has timed out before ProbeTimeout has passed since it read the clock |
| ProbeTableTheorems.TimersFireWhenDue | internal/agent/caracal_prober.go:276-285 | a running timer can fire from the instant it is due, and not before |
| CallProgress.RegisteredCallsCanReturnIff | internal/agent/prober.go:27-28 | against the promise that Probe does not block indefinitely: a registered call can return without being cancelled if and only if it does not wait for room in a full queue whose writer has stopped; while it does, nothing but its own cancellation brings it back |
| CallProgress.CallsCanSucceedIff | internal/agent/caracal_prober.go:236-289 | a call can still return a reply or a timeout, in some run without cancellations, if and only if it was neither rejected nor cancelled and, if the writer has stopped, the queue has the places needed for it |
| CallProgress.StuckCallRun | internal/agent/caracal_prober.go:268-273 | a run after which a call waits for room that will never come |
| ProbeTableTheorems.ReaderNeverBlocks | internal/agent/caracal_prober.go:510-516 | the reader always has a next step for the record it is working on, and at most eight of them |
| ProbeTableTheorems.SearchesFindLiveProbes | internal/agent/caracal_prober.go:499-519 | while a punctual call is live and within its margin, a search with its key still ahead counts no correlation failure and, once it is over, has its result sent, dropped at a full channel, or about to be, whatever happens between the lookups |
| Attribution.SearchWindow | internal/agent/caracal_prober.go:502-505 | the offsets cover exactly the seconds at distance two or less; 2.000 s apart in real time is always covered, 3 s never |
| Attribution.DeliveriesAreRecent | internal/agent/caracal_prober.go:495-517 | no result sent 3 s or more from when a call was queued is ever delivered to it |
| Attribution.AnswersAreRecent | internal/agent/caracal_prober.go:279-281 | nor returned by it |
| Attribution.LeastSpacingWithoutDuplicates | internal/agent/caracal_prober.go:241-250 | one key second is the least spacing of equal 5-tuples under which no call is rejected in any run |
| Attribution.RejectedIffKeyHeld | internal/agent/caracal_prober.go:241-250 | among punctual calls, a call taking the lock is rejected if and only if another call with its key has registered and not yet run its deferred delete |
| Attribution.DeduplicationIffPunctual | internal/agent/caracal_prober.go:241-265 | the deduplication rejects exactly the calls whose key another call holds, in all runs with a given bound on the delay between clock and lock, if and only if the bound is at most ProbeTimeout + 4 s + 1 ns |
| Attribution.SharedSecondRun | internal/agent/caracal_prober.go:241-250 | a run in which two calls have one key and neither is rejected, because the first returned before the second took the lock |
| CaracalProber.OffsetsVisitNearestFirst | internal/agent/caracal_prober.go:502-516 | the first in-flight key met in offset order is the nearest candidate, the earlier of two equally near; if none is met there is no candidate |
| CaracalProber.NearestIsUnique | internal/agent/caracal_prober.go:502-516 | the candidate so described is unique |
| CaracalProber.CaracalProber.constructor | internal/agent/caracal_prober.go:101-114 | a new prober is in the machine's initial state |
| CaracalProber.CaracalProber.BeginProbe | internal/agent/caracal_prober.go:237-239 | a call gets an empty channel of its own, the time read now, and a key with its 5-tuple and the second that contains now |
| CaracalProber.CaracalProber.Register | internal/agent/caracal_prober.go:241-253 | the call is accepted if and only if its key is absent, and then owns the one entry added; otherwise the table is unchanged |
| CaracalProber.CaracalProber.CountDuplicate | internal/agent/caracal_prober.go:248-249 | the rejected call returns ErrDuplicatePD, and DuplicateProbesTotal is the number of calls that have |
| CaracalProber.CaracalProber.Enqueue | internal/agent/caracal_prober.go:268-270 | the request is queued last, within the capacity |
| CaracalProber.CaracalProber.StartTimer | internal/agent/caracal_prober.go:276 | the timer starts now, no earlier than the registration and the clock reading |
| CaracalProber.CaracalProber.Receive | internal/agent/caracal_prober.go:279-281 | the call takes the only result ever sent to it so far |
| CaracalProber.CaracalProber.Expire | internal/agent/caracal_prober.go:282-285 | the call leaves with a timeout, no earlier than ProbeTimeout after its clock reading |
| CaracalProber.CaracalProber.Abandon | internal/agent/caracal_prober.go:271-287 | either select leaves with a cancellation when the context is done, with at most three steps to go |
| CaracalProber.CaracalProber.Remove | internal/agent/caracal_prober.go:255-259 | the deferred delete removes whatever entry is under the key and reports whether there was one |
| CaracalProber.CaracalProber.Discount | internal/agent/caracal_prober.go:260-264 | the decrement never takes the gauge below the table size |
| CaracalProber.CaracalProber.TakeRequest | internal/agent/caracal_prober.go:298-300 | the writer takes the oldest request, which is that of the registered call whose channel it names |
| CaracalProber.CaracalProber.EncodeAndSendProbe | internal/agent/caracal_prober.go:311-329 | a successful write appends the request; the line holds its header's own values in the header's order and its TTL, and every echo of it parses to that request's key |
| CaracalProber.CaracalProber.HandleResult | internal/agent/caracal_prober.go:375-394 | a record is counted; one of fewer than 17 fields is rejected; one that is searched for has the 5-tuple of the line it answers, the result its columns say, and the second it was sent in |
| CaracalProber.CaracalProber.LookUp | internal/agent/caracal_prober.go:502-510 | one read-locked lookup, or the failure count after the fifth, brings the reader nearer to its next record |
| CaracalProber.CaracalProber.Deliver | internal/agent/caracal_prober.go:511-515 | the result is sent if and only if the channel is empty, otherwise dropped |
| CaracalProber.CaracalProber.Search | internal/agent/caracal_prober.go:502-519 | five undisturbed lookups end at the first offset with an entry, or in one counted failure |
| CaracalProber.CaracalProber.MatchAndDeliverResult | internal/agent/caracal_prober.go:499-525 | undisturbed, the result goes to the nearest in-flight probe within two seconds if its channel has room, and a failure is counted if and only if there is none |
| CaracalProber.CaracalProber.StartSweep | internal/agent/caracal_prober.go:547-548 | no call whose timer is running, started within 5 s of its clock reading, was queued before the cutoff |
| CaracalProber.CaracalProber.DeleteStale | internal/agent/caracal_prober.go:553-558 | the loop deletes exactly the entries queued before the cutoff, in any order, and counts them |
| CaracalProber.CaracalProber.Sweep | internal/agent/caracal_prober.go:552-559 | after the lock region exactly the entries queued at or after the cutoff remain |
| CaracalProber.CaracalProber.ReportSweep | internal/agent/caracal_prober.go:562 | after the counter's update StaleProbesCleanedTotal equals the entries ever swept |
| CaracalProber.CaracalProber.LowerGauge | internal/agent/caracal_prober.go:563 | the gauge's update, a step later, never takes it below the table size |
| ForwardingInfo.SourceAddress | internal/agent/agent.go:480-490 | the near probe's address if it has one to offer, else the far probe's; none if and only if neither has one |
| ForwardingInfo.BuildFIE | internal/agent/agent.go:469-503 | the FIE holds the agent's own ID, the directive's ID, protocol and destination, and the near probe's source address or else the far one's; near and far info are absent exactly when that probe timed out |
| ForwardingInfo.ProcessPD | internal/agent/agent.go:384-424 | a FIE is made if and only if both probes returned a result; a duplicate, a failure or a missing result of the near probe decides before the far one's |
| FIEProvenance.InfoProvenance | internal/agent/agent.go:573-580 | an info is absent if and only if its probe timed out, and otherwise has the reply address, capture time and send time of a record reported under the directive's own 5-tuple |
| FIEProvenance.FIEProvenance | internal/agent/agent.go:360-424 | a FIE carries the agent's ID and the directive's; its infos carry NearTTL and NearTTL + 1 and the columns of records with the directive's destination, protocol, half words and that TTL, and neither probe answered for the other |
| FIEProvenance.SourceProvenance | internal/agent/agent.go:461-490 | a FIE's source address is the one in the near probe's record if that holds one, and otherwise the one in the far probe's record |
| FIEProvenance.ReturnsSayHowCallsEnded | internal/agent/caracal_prober.go:243-288 | Probe returns ErrDuplicatePD if and only if it was rejected and an error if and only if it was cancelled; a timed-out result has no address and the clock reading as its send time, ProbeTimeout or more ago; any other result is the answer delivered |
| FIEProvenance.AbandonedProbesFail | internal/agent/caracal_prober.go:271-287 | a probe given up at either select returns an error in every continuation, and its directive is dropped |
| FIEProvenance.LeastSpacingForFIEs | internal/agent/agent.go:384-421 | one key second is the least spacing of equal 5-tuples under which every directive whose two probes are not cancelled yields a FIE in every run |
| FIEProvenance.DuplicateDirectiveRun | README.md:148 | a run with a valid directive that gets no FIE, against the documentation |
| SessionInvariants.StepKeepsInvariant | internal/agent/agent.go:360-432 | every action of the agent keeps: each call belongs to one probe of one goroutine, and what a goroutine holds, has offered or has dropped is what its own two calls returned |
| SessionInvariants.InvariantHolds | internal/agent/agent.go:364-382 | this holds in every reachable state of the whole agent, whose parts are reachable states of the pipeline and of the table |
| SessionTheorems.SentFIEProvenance | internal/agent/agent.go:320-432 | every FIE sent is about an accepted, valid directive and was made from the returns of that directive's own two calls; it has the agent's ID, its infos and source address come from the columns of records under the directive's 5-tuples, and an info is absent if and only if that call timed out |
| SessionTheorems.SentFIEsAreOwn | internal/agent/caracal_prober.go:499-517 | with equal 5-tuples spaced by more than the reply window plus two seconds, the infos of every FIE sent were caused by its own directive's requests |
| SessionTheorems.FIEsShareNoProbes | internal/agent/agent.go:373-382 | two FIEs were made from four different calls of Probe |
| SessionTheorems.LossesAreExplained | internal/agent/agent.go:384-431 | a directive is dropped only because the context is done, its FIE could not be written, or one of its own probes was rejected as a duplicate |
| SessionTheorems.NothingIsDroppedWhileApart | internal/agent/agent.go:384-431 | undisturbed, with equal 5-tuples in different key seconds, no directive is dropped: each has its FIE or is still somewhere in the pipeline, if only with a probe that waits for ever |
| SessionTheorems.LeastSpacingWithoutDrops | internal/agent/agent.go:384-431 | one key second is the least spacing of equal 5-tuples under which no undisturbed run of the whole agent drops a directive |
| SessionTheorems.DroppedDirectiveRun | README.md:148 | a run of the whole agent, undisturbed, that drops a valid directive |
| SessionProgress.HopelessForEver | internal/agent/caracal_prober.go:268-273 | once a probe of a directive was rejected, or the prober's writer has stopped and the queue has fewer places than its probes need, this stays so in every undisturbed continuation |
| SessionDrive.DirectiveCanBeServedIff | README.md:148 | an accepted directive can still get its FIE, in some undisturbed continuation, if and only if neither of its probes was rejected and, if the prober's writer has stopped, the write queue has the places its probes need: one for each that has yet to queue its request, and one for a registered call that holds such a probe's key while nobody else can free it |
| SessionDrive.StuckDirectiveRun | README.md:148 | a run of the whole agent, undisturbed and with no key used twice, after which a valid directive has not been dropped and can never get its FIE |
| SessionShutdown.EveryOwnStepCounts | internal/agent/agent.go:117-140 | with the connection closed after cancellation every step of the pipeline or of a call of Probe lowers the number of such steps that remain, and no other step raises it |
| SessionShutdown.ShutdownTakesBoundedWork | internal/agent/agent.go:117-140 | so the agent takes a bounded number of own steps from there, whatever caracal and the clock do |
| SessionShutdown.NobodyIsStuck | internal/agent/agent.go:426-431 | after cancellation every unfinished goroutine can proceed by itself, through its own calls of Probe, however full the channels and the write queue are; the processor waits only for the directive goroutines |
| SessionShutdown.ShutdownLeavesTheTableEmpty | internal/agent/caracal_prober.go:255-264 | the agent can do nothing more by itself if and only if the pipeline has finished; then every call has returned, and with no sweep unreported no probe is in flight and the gauge is zero |
| PipelineInvariants.StepKeepsInvariant | internal/agent/agent.go:184-432 | every action keeps conservation, close order, counters, channel order and the faithfulness of FIEs |
| PipelineInvariants.InvariantHolds | internal/agent/agent.go:135-140 | they hold in every reachable state |
| PipelineTheorems.ClosesAreSafe | internal/agent/agent.go:292-300 | no enabled action sends on or re-closes a closed channel; fies closes only after every directive goroutine finished, pds only after the reader stopped |
| PipelineTheorems.WhoCancelsAndCloses | internal/agent/agent.go:117-140 | the context is cancelled from outside or by a loop that has returned an error, the connection closed by a step of its own once it is done, and each channel closed by its one closer |
| PipelineTheorems.EveryDirectiveIsAccountedFor | internal/agent/agent.go:235-250 | PDsReceivedTotal is the sum of the directives held by the reader, pds, the processor, goroutines, fies and the writer, lost ones and sent ones |
| PipelineTheorems.AtMostOneFIE | internal/agent/agent.go:424-431 | no two sent FIEs are for the same accepted directive |
| PipelineTheorems.SentFIEsAreForAcceptedDirectives | internal/agent/agent.go:424-431 | a sent FIE is processPD's for an accepted valid directive that was dropped nowhere |
| PipelineTheorems.OrderIsKept | internal/agent/agent.go:302-316 | directives are dispatched in the order accepted, FIEs sent in the order queued |
| PipelineTheorems.DepthsStayClose | internal/agent/agent.go:247-249 | pdsDepth stays within [-1, cap + 1], fiesDepth between minus the live goroutines and cap + 1, and both are exact when no update is pending |
| PipelineTheorems.GoroutinesAreCounted | internal/agent/agent.go:312-361 | PDGoroutines is the number of directive goroutines that have not ended, plus the one about to start |
| PipelineTheorems.EveryStepCounts | internal/agent/agent.go:117-140 | with the connection closed after cancellation every step lowers the number of steps that remain |
| PipelineTheorems.ShutdownTerminates | internal/agent/agent.go:117-140 | so every run from there is finite, with a bound from the channel contents and goroutine stages |
| PipelineTheorems.ShutdownCompletes | internal/agent/agent.go:142-149 | a run that cannot go on has finished everywhere, with both channels closed, gauges at rest and every directive sent, lost or left in a channel |
| Agent.Agent.constructor | internal/agent/agent.go:135-136 | a new pipeline is in the machine's initial state |
| Agent.Agent.AcceptPD | internal/agent/agent.go:222-237 | a valid directive is counted and held, under an instance no earlier one has |
| Agent.Agent.FailReceive | internal/agent/agent.go:191-219 | an error makes the reader return, with the depth equal to the channel unless the processor is about to decrement it |
| Agent.Agent.ForwardPD | internal/agent/agent.go:244-248 | the directive is sent on an open channel with room, or given up when the context is done |
| Agent.Agent.CountPD | internal/agent/agent.go:248-249 | the depth stays within one of its range |
| Agent.Agent.ClosePDs | internal/agent/agent.go:185 | pds is closed once |
| Agent.Agent.ReaderCancels | internal/agent/agent.go:138 | a step later the error the reader returned cancels the group, with pds already closed |
| Agent.Agent.NextPD | internal/agent/agent.go:303-309 | the processor takes the oldest directive, or stops on cancellation or a closed, empty channel |
| Agent.Agent.DiscountPD | internal/agent/agent.go:310-311 | the depth stays within one of its range |
| Agent.Agent.CountGoroutine | internal/agent/agent.go:312 | PDGoroutines is incremented ahead of the goroutine |
| Agent.Agent.Dispatch | internal/agent/agent.go:313-315 | a goroutine is started for the directive taken |
| Agent.Agent.CloseFIEs | internal/agent/agent.go:297-300 | fies is closed once, with no goroutine alive |
| Agent.Agent.ProbeReturns | internal/agent/agent.go:373-382 | one of the two probes has returned, and the goroutine can go on if and only if the other had |
| Agent.Agent.Conclude | internal/agent/agent.go:384-424 | the goroutine has a FIE to offer if and only if both probes returned a result, and otherwise the directive is recorded as lost |
| Agent.Agent.OfferFIE | internal/agent/agent.go:426-427 | the FIE goes last in an open channel with room |
| Agent.Agent.GiveUpFIE | internal/agent/agent.go:430 | the FIE is given up when the context is done, and none was sent for its directive |
| Agent.Agent.ReportFIE | internal/agent/agent.go:428-429 | the depth stays within its range |
| Agent.Agent.Depart | internal/agent/agent.go:361 | PDGoroutines is decremented as the goroutine ends, and never goes below zero |
| Agent.Agent.NextFIE | internal/agent/agent.go:322-328 | the writer takes the oldest FIE, or stops on cancellation or a closed, empty channel |
| Agent.Agent.DiscountFIE | internal/agent/agent.go:330-331 | the depth stays within its range |
| Agent.Agent.SendFIE | internal/agent/agent.go:339-347 | the FIE sent is for a directive no earlier FIE was sent for |
| Agent.Agent.FailSend | internal/agent/agent.go:333-345 | a failed conversion or send loses the FIE and makes the writer return, and none was sent for its directive |
| Agent.Agent.WriterCancels | internal/agent/agent.go:140 | a step later the error the writer returned cancels the group, after which the reader can go on by itself |
| Agent.Agent.CancelContext | internal/agent/agent.go:117 | the context becomes done, after which reader and writer can go on by themselves until they finish |
| Agent.Agent.CloseConnection | internal/agent/agent.go:118-120 | a done context closes the connection, after which every step lowers the number that remain |
| ReaderLoop.SinceIsAfterLastReset | internal/agent/agent.go:186-236 | the reference counters count from just after the last event that resets them |
| ReaderLoop.HandleDecodeError | internal/agent/agent.go:256-290 | cancellation, then network errors and violations, are fatal without being counted; any other error is counted and fatal exactly at a positive limit |
| ReaderLoop.Turn | internal/agent/agent.go:189-251 | one turn of the loop, by the receipt's own fields: a frame that does not convert to a valid directive leaves both counters and goes on, any other event moves them or returns as the code says, the sixth timeout included |
| ReaderLoop.TurnFollowsReference | internal/agent/agent.go:202-236 | counters that agree with the reference before an event agree after it, and the turn returns if and only if the reference says stop |
| ReaderLoop.Run | internal/agent/agent.go:184-252 | for every event sequence the loop stops at the first event the reference stops at, with a limit reached exactly, having forwarded the valid directives before it in order and counted every other frame |
| ReaderLoop.FirstStopIsUnique | internal/agent/agent.go:184-252 | the stopping point is unique |
| ReaderLoop.KindsAre | internal/agent/agent.go:191-229 | the reference classifies events by the error's or the frame's own fields, cancellation first, then timeouts, later cancellation, fatal errors and the rest |
| ReaderLoop.RunPastInvalidFrames | internal/agent/agent.go:222-233 | frames that do not convert to a valid directive, wherever and however many, are counted and change neither the event that stops the loop, nor the reason, nor what is forwarded |
| ReaderLoop.SixTimeoutsEndTheLoop | internal/agent/agent.go:52-57 | six timeouts with nothing but invalid directives between them end the loop |
| ReaderLoop.DecodeErrorsEndTheLoop | internal/agent/agent.go:271-284 | as many decode errors as the limit allows end the loop although timeouts and invalid directives come between |
| ReaderLoop.PartialFrameIsFatalIff | internal/agent/agent.go:195-212 | after any events the loop has survived, a partial frame ends it if and only if the error carries no timeout, the context is done, or five timeouts have been counted already |
| ReaderLoop.MeetPartialFrame | internal/agent/agent.go:184-252 | the loop run on any survived events and then a partial frame goes on if and only if the error carries a timeout, the context is live and fewer than five timeouts have been counted, and has then counted one more |
| ReaderLoop.PartialFrameSurvived | internal/agent/agent.go:262-269 | the loop survives a partial frame with a timeout and forwards the directive after it |
| Reconnect.RunWithReconnect | cmd/retina-agent/main.go:224-265 | the loop arms one timer for each run not ended by a shutdown, for the time the closed form gives |
| Reconnect.ClosedForm | cmd/retina-agent/main.go:218-223 | below a cap of 2^62 ns the wait after j short runs since the last reset is 1 s for j = 0 and min(2^j s, cap) otherwise, never above the larger of 1 s and the cap, and doubling never overflows |
| Reconnect.FirstWaits | cmd/retina-agent/main.go:225-245 | in nanoseconds, the wait is 1000000000 after the first run and after any that lasted that long, and 2000000000, within the cap, after a shorter run that follows such a one |
| Reconnect.OverflowRun | cmd/retina-agent/main.go:254-259 | with a larger cap the wait after thirty-five short runs is negative |
| Reconnect.BackoffIsClosedFormIff | cmd/retina-agent/main.go:224-265 | the loop follows the closed form for every sequence of runs if and only if the cap is below 2^62 ns |

## Left out

- Probe, writerLoop, readerLoop, processorLoop and processPD as single methods: their bodies interleave with other
  goroutines, so each is the set of its atomic actions; the order of the actions is in the phases of the machine.
- Increments made inside a lock region are part of that action; a metric scrape between them is not modelled.
- Separate wall and monotonic clocks: `time.Now` is one clock that does not go back.
- Fairness: that a goroutine which can go on eventually does; what can still happen is proved by a run.
- The end of the prober's readerLoop, after which its callers time out as if nothing were read, and the order in which
  its loops stop: the writer and the cleaner may stop at any moment.
- PDsReceivedTotal and FIEsSentTotal are read off the directives accepted and the FIEs sent, so each is updated together
  with the receive or the send ahead of it.
- The two result channels of processPD: a goroutine takes its probes' returns in either order.
- CaracalProber.CaracalProber.MatchAndDeliverResult: describes the loop while nothing else happens; what holds with interleaved changes is in ProbeTableTheorems.
- Records caracal invents: a usable record always echoes a line that was written.
- Text of IPv6 addresses: an address literal is the bytes it denotes, and in a request line any text of the kind
  net.IP.String prints.
- Quoted CSV fields, which no request has, and the splitting of caracal's records into fields.
- WriteQueueDepth, ProbesTotal, ICMPReplyTotal, DecodeErrorsTotal and WriteErrorsTotal, RTT histograms and logging.
- The IP version and the production timestamp of a FIE, which are copied and read from a clock.
- Starting and stopping the caracal process, `Close`, stderr logging, dialling, authentication, keepalive and deadlines.
- The link between the events of ReaderLoop and the reader of the pipeline: the pipeline's reader accepts any valid
  directive and fails at any moment, which covers every event sequence.
- The nil check of validatePD, and the conversion from the wire format, which belong to a library.
- Configuration checks, the mock prober, the mock orchestrator, flags and the metrics server: sequential plumbing.
