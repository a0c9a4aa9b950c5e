# Verification model of the camouflage transport

A Dafny model of the concurrent and stateful core of the libp2p camouflage transport, with proofs
that hold for every schedule, every input and every answer of the foreign parts.

1. **The accept pipeline** (`camouflageGatedMaListener`, camouflage.go). `AcceptPipeline.dfy` is a
   labelled transition system of the `run` goroutine, one handshake goroutine per dispatched
   connection, any number of `Accept` and `Close` calls, the inner listener and the clock. Each
   pair (connection, resource scope) has a ledger: how often the listener released the scope, closed
   the connection and cancelled the context. `AcceptSafety.dfy` has the safety results,
   `AcceptHistory.dfy` what the actions of a run say about the state it leads to, `AcceptTiming.dfy`
   the clocked results, `AcceptTightness.dfy` runs that reach their bounds or let a select go either
   way, and `AcceptShutdown.dfy` termination after `Close`.
2. **The fragmenting writer** (`SpoofConn`, dpi-spoof.go), twice. `SpoofSystem.dfy` is a step system
   of any number of concurrent `Write` calls over an adversarial connection, and `SpoofSafety.dfy`
   proves what every interleaving keeps. `SpoofConnection.dfy` is the class with its loops; a ghost
   copy of the step system follows every locked read, inner write, locked addition and random draw,
   so each `Write` is shown to be a schedule of the step system and inherits its results.
   `SpoofPlan.dfy` says which inner calls one `Write` makes, and counts its segments and delays;
   `SpoofNames.dfy` says exactly when the single split hides the server name.
3. **The TLS record parser** used as a DPI emulator (`parseTLSRecords`, integration_test.go), in
   `TlsRecords.dfy`: the record layer of section 5.1 of RFC 8446 with the length bound of section
   6.2.3 of RFC 5246, and a matching serialiser. `Reassembly.dfy` composes it with the writer.
4. **The DPI verdict** (dpilab/verify.go), in `Flows.dfy` and `Verdicts.dfy`, over `Orders.dfy`,
   which has the theory of folds over unordered maps followed by a sort.
5. **The dial side** (camouflage.go), in `Dialing.dfy`: the ledger of scopes and raw connections.

`Sums.dfy` and `Bytes.dfy` are small helper theories (weighted sums; occurrences of a string).

## How the steps follow the source

The step functions carry no postcondition: they are the program, and the results are about them.

- `AcceptPipeline.Apply` is the whole listener. `InnerPair` and `InnerError` are the return of the
  inner `Accept` (camouflage.go:424). `RunStep` on `RunFail` is the error branch (425-432), where the
  suffix test of line 427 decides between leaving the loop and going round again, and on `RunUnwind`
  the deferred `wg.Done` (421). `TakeSlot` and `GiveUp` are the two arms of the select in `dispatch`
  (440-442); when both are possible either may be taken, as in Go. `RunCancel`, `RunRelease`,
  `RunClose` are lines 443-445 with `discard` (492-495) taken apart; `RunAdd`, `RunGo` are 449-450.
- `HandshakeEnds` is the end of the TLS handshake call (472-477), `Deliver` the hand-over on the
  unbuffered channel (480 together with 499), `Withdraw` the other arm of that select (481-482).
  `Deliver` stays possible after cancellation. `AfterTaskStep` runs `discard` and then the deferred
  calls in reverse order (451-453): cancel, `wg.Done`, and only then the receive from the queue.
- `Refuse` is `Accept` returning the closed error (501-502). `CloseStep` is `Close` line by line
  (507-509); the last line waits until the WaitGroup is zero.
- `SpoofSystem.AfterLocal` on `Enter` is the first locked read and the choice of strategy
  (dpi-spoof.go:73-84), on `TrackAdd` lines 113-123, on `FragRead` 136-140, on `FragAdd` 161-171, on
  `FragCheck` 173-176, on `TailAdd` 144-154. `AfterWrite` and `SegmentOf` are the inner writes (78,
  112, 143, 160); `AfterDraw` the draws (102, 177). Between any two of these steps other calls may
  step, since the mutex is held only within one.
- `Dialing.Settles` is what one dial may do to the ledger, `Dialing.Asked` what it asks of the foreign
  parts (camouflage.go:231-306).

In the clocked model (`AcceptTiming.TimedExecution`) local steps take no time, and a goroutine at a
select whose context is done moves on. A handshake call and the closing of a connection each last at
most a given bound; the first stands for the handshake timeout (tls-camouflage.go:156-232), the
second for the alert a TLS connection sends when it is closed (tls-camouflage.go:127). A tick is a
nanosecond.

## What turned out not to hold, and exactly when it does

- **The name is not always hidden.** The split is inside the first occurrence of the name only. A
  name of two bytes or more goes out whole in a handshake-phase write exactly when it occurs again
  at or after the cut (`SpoofNames.WholeIffRepeated`, with a concrete payload in
  `RepeatedNameEscapes`); a one-byte name goes out whole whenever it occurs (`OneByteNameIsWhole`).
- **Shutdown depends on a text.** The listener stops, and Close can return, if and only if the closed
  error of the inner listener ends in "use of closed network connection"
  (`AcceptShutdown.ClosedTextDecides`, `CloseReturnsExactly`); otherwise every Close hangs
  (`CloseHangs`). The error its own `Accept` returns does not end so (`ListenerClosedTextSpins`).
  `Listen` (camouflage.go:328-333) puts this loop directly on a demultiplexed listener of the shared
  TCP port when there is one; which text that one reports is not part of this model.
- **The notes of a verdict are in map order.** Unlike the findings they are not sorted, so they are
  the same for every iteration order only if the flow has at most one deployment risk
  (`Verdicts.NotesOrderFreeExactly`; `NotesOutOfOrder` has a flow with two).

Where the documentation and the code differ the model follows the code:

- README.md:12-15 speaks of initial bytes split into small segments with random delays. With a
  non-empty name, which is the default, there is a single cut, and with the default maximum delay of
  0 no delay at all (dpi-spoof.go:80-106, camouflage.go:58-60).
- The doc comment in dpi-spoof.go:42-44 says that the first `handshakeLen` bytes are fragmented. The
  last fragment may reach up to one fragment size minus one past that offset
  (`SpoofPlan.FragmentArithmetic`).
- dpilab/README.md:58 asks for `Confidence: DPI`; the code asks that some confidence value contains
  "DPI" (verify.go:168, `Flows.ConfidenceHas`).

## Model

| member | source | states |
|---|---|---|
| AcceptPipeline.ReachableInv | camouflage.go:401-511 | the inductive invariant (counters, ledger of every pair, callers) holds in every state any interleaving reaches |
| AcceptSafety.ExactlyOnce | camouflage.go:420-504 | in every reachable state a pair is in exactly one place: held by `run`, held by one goroutine, returned by one Accept, or discarded; delivered means untouched, discarded means connection closed and scope released once; nothing is settled or cancelled twice, and a finished pair has its context cancelled |
| AcceptHistory.DeliveredWasShaken | camouflage.go:472-504 | an Accept call returns a pair only if its TLS handshake ended well in that run, and never one whose handshake failed |
| AcceptHistory.FailedIsDiscarded | camouflage.go:472-477 | a pair whose handshake failed reaches no Accept call, and once its goroutine is gone its scope was released and its connection closed |
| AcceptHistory.DiscardHasCause | camouflage.go:437-483 | a scope is released or a connection closed only after a failed handshake, a cancellation, or thirty seconds since the pair came in |
| AcceptHistory.BooksAreHonest | camouflage.go:424-511 | pairs (with or without a scope, in order), scopes that came with errors, Accept and Close calls and the time are exactly what the run brought in |
| AcceptSafety.NoPairIsReturnedTwice | camouflage.go:479-504 | two Accept calls never return the same pair |
| AcceptSafety.DeliveredStaysDelivered | camouflage.go:479-511 | after a hand-over, whatever follows (cancellation and Close included), the call keeps its pair and the listener never closes it or releases its scope |
| AcceptSafety.RefusedOnlyByClose | camouflage.go:497-511 | an Accept call gets the closed error only after some Close call has cancelled; no other failure reaches it |
| AcceptSafety.SemaphoreAccounting | camouflage.go:437-456 | the queue length equals the goroutines that have not released their slot, plus one while `run` is between acquire and spawn; so at most 64 handshakes run and the deferred release never blocks, although it runs after wg.Done |
| AcceptSafety.WaitGroupDiscipline | camouflage.go:413-456 | the WaitGroup equals [run alive] plus the goroutines before their wg.Done (plus one between Add and go), is never decremented below zero and never incremented from zero |
| AcceptSafety.QuiescentClose | camouflage.go:497-511 | in every state after a Close call has returned: `run` has exited, no goroutine holds a pair, every pair ever accepted is delivered or discarded in full, scopes that came with errors are released, no pair arrives any more, and an Accept call without a pair can only get the closed error |
| AcceptSafety.NoHeadOfLineBlocking | camouflage.go:437-457 | with a slot free or the context done, `run` is back in the inner Accept after at most four of its own steps under every interleaving, also when no handshake goroutine ever steps, and it always has such a step |
| AcceptTightness.AnswersCanSlipIn | camouflage.go:424-433 | as long as `run` asks, a connection or any error can come in, after cancellation too |
| AcceptTightness.SlotCanWin | camouflage.go:440-450 | a free slot can win the select against a context that is done, and the handshake begins |
| AcceptTightness.HandOverCanWin | camouflage.go:479-480 | a waiting Accept call can be given the pair against a context that is done |
| AcceptTiming.ResidenceBound | camouflage.go:437-484 | in every clocked run `run` spends at most acceptTimeout on a pair even with all slots held; a pair in or past its handshake is on its way after acceptTimeout plus one handshake call, and one being discarded is out after one closing of the connection more; later than that it is settled |
| AcceptTightness.ResidenceIsTight | camouflage.go:437-484 | the bounds are reached, for any duration of a handshake and a closing: there is a clocked run in which `run` holds a pair for the whole acceptTimeout, and one in which a pair is still held and unsettled after acceptTimeout plus handshake plus closing |
| AcceptTiming.RunWaitsOnlyWhenFull | camouflage.go:440-447 | time passes while `run` has a pair in hand only when all 64 slots are held |
| AcceptTightness.SlotsCanRunOut | camouflage.go:376-412 | all 64 slots can be held at once, by pairs on offer, while the 65th pair waits |
| AcceptTiming.NoTimelock | camouflage.go:437-484 | from every state a clocked run reaches, the listener's own steps alone, without a new connection or an Accept call, lead to a later time, so the bound above is not vacuous |
| AcceptTiming.TimeoutDoesNotCutTheHandshake | tls-camouflage.go:209-220 | as long as its handshake call has not ended, a goroutine stays in it whatever else happens, the expiry of the accept timeout and cancellation included, and a late success still reaches the hand-over |
| AcceptShutdown.ShutdownTerminates | camouflage.go:420-511 | after cancellation every schedule has at most 461 listener steps plus 11 for each answer of the inner listener other than the closed error; until it is at rest the listener can step, with a closed error only from an inner listener that was closed, or a Close call is about to close the inner listener; at rest every waiting Close can return |
| AcceptShutdown.DrainReachesRest | camouflage.go:420-511 | once a Close call has cancelled and closed the inner listener there is a schedule, without further connections, that brings the listener to rest |
| AcceptShutdown.CloseHangs | camouflage.go:424-432 | while `run` has not been told of closure and the inner listener's errors lack the tested suffix, the WaitGroup never reaches zero and no Close call returns in any schedule |
| AcceptShutdown.CloseReturnsExactly | camouflage.go:424-432 | while `run` has not been told of closure, a Close call, wherever it stands, can return if and only if the text the inner listener answers with is some prefix followed by "use of closed network connection" |
| AcceptShutdown.ClosedTextDecides | camouflage.go:424-432 | after cancellation, as long as `run` has not been told of closure, that form of the text decides both: it holds if and only if the listener's steps are bounded over all schedules, and if and only if each Close call can return |
| AcceptShutdown.ListenerClosedTextSpins | camouflage.go:427-431 | "listener closed", the text of the error returned at line 502, admits no bound and lets no Close call return |
| SpoofSystem.RandDuration | dpi-spoof.go:202-211 | the delay is in [0, maximum) for a positive maximum and 0 otherwise; a value drawn is the delay, a failure gives half the maximum, rounded down |
| SpoofSafety.LagSafeFragmentation | dpi-spoof.go:72-184 | under every interleaving of any number of Write calls the counter plus the additions still pending equals the counted bytes on the wire, so it loses no update and never exceeds the wire; a plain write, and without a name any segment longer than the configured fragment size (two bytes if that is not positive), starts at wire offset >= handshakeLen |
| SpoofSafety.Transparency | dpi-spoof.go:72-184 | what a call has put on the wire is the first n bytes of its payload; within the handshake a nil error means all of it was written, with at most one inner write per byte |
| SpoofSafety.NameNeverWhole | dpi-spoof.go:87-126 | no handshake-phase segment contains a name of two bytes or more that does not occur from the cut on, for every short write or error and every interleaving |
| SpoofSafety.DelayBudget | dpi-spoof.go:98-106 | over the life of a connection without a name there are at most handshakeLen-1 sleeps, each below the maximum, whatever the number of concurrent calls, so at most (handshakeLen-1)*(maxDelay-1) in all; with a name no call sleeps twice |
| SpoofSafety.SleepsAreDrawn | dpi-spoof.go:202-211 | the delays slept in a run are the positive values drawn, and half the maximum for each failed draw, in order |
| SpoofSafety.SleepsFallBetween | dpi-spoof.go:98-105 | every sleep lies between two segments of its own call, with part of the payload on the wire and part not; with a name, exactly between the two halves |
| SpoofSafety.PhaseNeverReverts | dpi-spoof.go:72-84 | over any continuation the counter only grows and the wire and sleeps are only extended, so the handshake phase never comes back |
| SpoofPlan.FragmentArithmetic | dpi-spoof.go:128-184 | with w < H bytes counted, a payload of length L on a full-writing connection goes out as K = ceil(min(L, H-w)/f) fragments and one tail exactly when L > K*f; when the payload reaches the end of the handshake the last fragment ends in [H, H+f-1] |
| SpoofPlan.DrawArithmetic | dpi-spoof.go:173-181 | such a write draws exactly K-1 delays: one after each fragment but the last, none before the tail |
| SpoofPlan.ConfiguredFragments | dpi-spoof.go:128-184 | the same two for the plan of a Write in terms of the configuration: f is the configured size when positive and two otherwise |
| SpoofPlan.DefaultFragments | dpi-spoof.go:128-184 | with the defaults 100 bytes on a fresh connection go out as fifty pairs |
| SpoofPlan.SplitInTheMiddle | dpi-spoof.go:87-107 | with the name first at i the parts are b[..i+half] and b[i+half..], half being its length divided by two and rounded down: the first half of the name ends one, the rest starts the other, with one delay drawn |
| SpoofPlan.NoSplitWithoutName | dpi-spoof.go:88-91 | a payload without the name goes out whole, without a delay |
| SpoofPlan.PlanJoins | dpi-spoof.go:72-184 | the planned segments of a write, in every mode, are its payload cut up |
| SpoofNames.WholeIffRepeated | dpi-spoof.go:87-107 | a name of two bytes or more is whole in some planned segment if and only if it occurs at or after the cut |
| SpoofNames.OneByteNameIsWhole | dpi-spoof.go:93-96 | a one-byte name is whole in some segment if and only if the payload contains it |
| SpoofNames.RepeatedNameEscapes | dpi-spoof.go:88-107 | a concrete payload whose second occurrence of the name goes out whole |
| SpoofConnection.SpoofConn.Write | dpi-spoof.go:72-84 | the inner calls appended to the log carry exactly b[..n]; past the handshake one uncounted plain call; before it n bytes counted, at most one call per byte, stopping at the first call that moves nothing or carries an error, with the inner connection's own error, or the short-write error exactly after a zero write without one, nil only when all was written; with full answers the segments are those of the plan and the delays as many as counted above; with a name at most one delay whatever the answers; and the call is a schedule of the step system |
| SpoofConnection.SpoofConn.SniSplitWrite | dpi-spoof.go:87-107 | two parts around the cut inside the first occurrence of the name, with one delay drawn between them, or one part and no delay, when every answer is full; at most one delay in any case |
| SpoofConnection.SpoofConn.TrackedWrite | dpi-spoof.go:109-126 | write-all of one part with every accepted byte counted |
| SpoofConnection.SpoofConn.FragmentedWrite | dpi-spoof.go:128-184 | fragments while the handshake lasts and then the rest at once, with the planned segments and delays when every answer is full |
| SpoofConnection.SpoofConn.LifeOfConnection | dpi-spoof.go:72-184 | after any sequence of Writes the wire is the concatenation of each payload's first n bytes as returned, an oversized segment starts past handshakeLen, and the sleeps keep the budget, with a name at most one for each Write |
| SpoofConnection.SpoofConn.NameStaysHidden | dpi-spoof.go:87-126 | over the life of the class no handshake-phase inner call accepted the whole name, unless its payload repeats the name from the cut on |
| TlsRecords.ParseTLSRecords | integration_test.go:280-315 | the loop computes the records and the verdict of the recursive scan; every record returned has type 0x14 to 0x17, version 3.0 to 3.4 and length at most 18432 |
| TlsRecords.FirstHeader | integration_test.go:283-309 | the first whole header, with its two length bytes big-endian, is returned as the first record when within those bounds; outside any one of them nothing is returned and the bytes are rejected |
| TlsRecords.RecordsAreRead | integration_test.go:280-315 | a nonempty list of records within those bounds, serialised one after another, is read in full, header by header |
| TlsRecords.LengthIsBigEndian | integration_test.go:298-309 | the length bytes 1 and 0 mean 256 |
| TlsRecords.RoundTrip | integration_test.go:280-315 | parsing a serialised nonempty list of well-formed records gives exactly their headers and true |
| TlsRecords.PrefixMonotone | integration_test.go:280-315 | for arbitrary bytes the records of a prefix are a prefix of the records of the whole |
| TlsRecords.CleanExactly | integration_test.go:283-314 | the bytes scan cleanly with headers hs if and only if they are well-formed records with those headers, the last possibly cut inside its body, followed by fewer than five bytes |
| TlsRecords.DirtyExactly | integration_test.go:283-302 | the bytes are rejected with headers hs if and only if they are well-formed records with those headers followed by a whole header that is not acceptable |
| Reassembly.FragmentationIsInvisible | dpi-spoof.go:72-184 | after any Writes that each wrote everything the wire is the payloads one after another, so the parser reads it as it reads the payloads sent whole |
| Reassembly.CutWriteShowsPrefix | dpi-spoof.go:72-184 | when only the last Write may have been cut short, the records on the wire are a prefix of the records of the payloads sent whole |
| Reassembly.SegmentsAreOpaque | dpi-spoof.go:128-184 | without a name and with a configured fragment size below five, the fallback for sizes that are not positive included, no segment that starts before handshakeLen yields a record alone, under every interleaving |
| Flows.ConfidenceOf | dpilab/verify.go:307-317 | the loop over the map yields the confidence string whatever order the map is in |
| Flows.ConfidenceOrderFree | dpilab/verify.go:307-317 | all enumerations of the map give the same string |
| Flows.ConfidenceHas | dpilab/verify.go:168-169 | the joined string contains a word without commas if and only if some value does |
| Flows.ConfidenceIsJoined | dpilab/verify.go:307-317 | no value gives "none", one value itself, two values the smaller, a comma and the larger |
| Orders.SortedUnique | dpilab/verify.go:213 | two sorted lists with the same lines are equal, so sorting forgets the order of the maps |
| Orders.LeIsLexicographic | dpilab/verify.go:213 | the order sorted by is the dictionary order: a prefix first, else the first difference decides |
| Verdicts.KeptExactly | dpilab/verify.go:130-136 | a flow is kept, as often as it comes, if and only if it is TCP with the lab port at one end and the two wire addresses at its two ends in either direction |
| Verdicts.KeptInOrder | dpilab/verify.go:130-136 | the flows kept keep their order |
| Verdicts.WiresSwapped | dpilab/verify.go:292-301 | swapping the two wire addresses changes nothing |
| Verdicts.HandshakesAddUp | dpilab/verify.go:156-159 | the handshakes of any flows are the sum of their SYNs |
| Verdicts.NoFindingsExactly | dpilab/verify.go:149-198 | there is no finding if and only if flows and SYNs suffice, every lab flow is TLS with a confidence value containing "DPI" and only risks outside the tell table and inside the deployment table, and a given log names a browser |
| Verdicts.FindingsAre | dpilab/verify.go:149-198 | exactly which lines a run reports: each with the flow, the protocol, the confidence string or the risk it is made from |
| Verdicts.FindingCount | dpilab/verify.go:149-198 | how many: one for each failing count, one for each flow that is not TLS or not by DPI, one for each risk outside the deployment table, one for a missing label |
| Verdicts.OneFlow | dpilab/verify.go:156-183 | one clean flow with k SYNs passes a run that wants k handshakes and not k+1; with risk 56 it does not pass, with risk 5 it does |
| Verdicts.TablesByNumber | dpilab/verify.go:72-111 | the 22 tells and the 6 deployment risks |
| Verdicts.ArmsAreComplementary | dpilab/verify.go:212-246 | on the same readable input "browsing" succeeds exactly when the flows look like browsing, "not-browsing" exactly when they do not, no other expectation ever succeeds, and each failure is reported as its own error |
| Verdicts.NotesShowTheOrder | dpilab/verify.go:171-176 | for any wording the notes of a flow are the same for every order of its risks if and only if they are all the same line |
| Verdicts.NotesOrderFreeExactly | dpilab/verify.go:171-176 | with lines that name the risk, as line 176 makes them, that is the case if and only if at most one risk of the flow is in the deployment table |
| Verdicts.NotesOutOfOrder | dpilab/verify.go:171-176 | a concrete flow with the risks 5 and 51 whose notes depend on the order |
| Verdicts.MasterIsTLS | dpilab/verify.go:303-305 | the master protocol is TLS if and only if the protocol is "TLS" or starts with "TLS." |
| Verdicts.Verdict.RunVerify | dpilab/verify.go:124-199 | whatever order the maps are in, the run keeps the flows of the wire, in either direction, and ends with exactly their sorted findings and the outcome they call for; the notes are determined up to order; an unreadable log ends it with an error |
| Verdicts.Verdict.CheckRisks | dpilab/verify.go:171-183 | each risk id of the flow is visited once and adds its one failure or note |
| Verdicts.Verdict.Report | dpilab/verify.go:212-246 | the failures are sorted and the outcome is the one the expectation asks for |
| Dialing.StopsAtRefusal | camouflage.go:231-306 | a dial asks for scope, peer, connection, handshake and upgrade in that order, nothing after the first refusal, and succeeds exactly when it has asked everything and met none |
| Dialing.Transport.DialWithUpdates | camouflage.go:231-249 | it succeeds exactly when all five agree; the scope opened is released if and only if it fails, a raw connection exists exactly when the first three agreed and is closed if and only if the dial fails; none of this depends on the update channel, which gets its update exactly when there is a connection |
| Dialing.Transport.DialWithScope | camouflage.go:251-276 | a peer the resource manager refuses is not dialled; a connection exists, and the progress update is tried, exactly when peer and network agreed |
| Dialing.Transport.UpgradeDialed | camouflage.go:278-306 | a failed handshake closes the raw connection once |
| Dialing.UpdateChannel.TrySend | camouflage.go:268-273 | the send never blocks: a waiting receiver or a free place takes the update, else it is dropped |
| Dialing.DialsConserve | camouflage.go:231-306 | over any sequence of dials that each settle so, the scopes still held and the connections still open are as many as the dials that succeeded, and no connection is closed twice |
| Dialing.Transport.DialAll | camouflage.go:231-306 | the same of the transport itself, dialling any sequence: each result is as its environment says, and what stays held and open is what succeeded |

## Left out

- The listener is a transition system on values, because its goroutines step in any order and a
  sequential class would fix one. Aliasing of the listener object is not captured.
- `AcceptTiming.ResidenceBound`: scheduling delay, and the closing of a raw connection by `dispatch`,
  are taken as zero; the bounds of one handshake call and of one closing are parameters, and that the
  TLS libraries respect them is a premise.
- `AcceptShutdown.ShutdownTerminates`: that each handshake call ends, and that the inner listener
  gives finitely many other answers before it reports closure, are premises. Fairness is not modelled:
  the result bounds the steps and shows that one is possible until rest.
- The TLS library may close the connection of a failed handshake by itself; the ledger counts what
  the listener and the transport do.
- `ListenerClosedTextSpins`: the text of the closed error is libp2p's and is taken as "listener closed".
- `SpoofConnection.SpoofConn.Write`: the class runs one call at a time; concurrent calls are the
  subject of `SpoofSafety`. Counter and durations are unbounded integers, not 64 bits wide, and the
  inner connection's write is one atomic step that accepts between 0 and all of the bytes offered.
- `LookAhead`, `LookBack`, `WriteAndCount`, `TrackOnce`, `FragmentOnce`, `TailOnce`, `WriteRest`,
  `PlainWrite` and `MaybeSleep` are code that stands inline in the source, given names to keep each
  proof small; so are `CheckCounts`, `CheckFlow`, `CheckFlows`, `Select` and `CountHandshakes` of
  `Verdicts.Verdict`.
- `Verdicts.Verdict.RunVerify`: messages are an arbitrary function of the values they are made from, so
  the proof uses nothing about their wording; strings are compared by character where Go compares
  bytes; the two tables are kept as sets of ids since every reason in them is nonempty.
- File reading, JSON decoding, printing, `tlsSummary`, `risksOf`, `nonEmpty` and the log scan of
  `browserLabel` in dpilab/verify.go: decoded flows and the label are inputs.
- `Dialing.Transport.DialWithUpdates`: the resource manager, network, handshake and upgrader are the
  answers of an environment; a failing upgrader closes its connection and may release the scope too,
  and a second release is harmless.
- The TLS role in a simultaneous connect, dial timeouts and address reuse (`dialRaw`), linger and
  keepalive settings, option setters, `Listen` and the forwarding methods of `CamouflageConn` and
  `SpoofConn`: single branches.
- The TLS and uTLS handshakes, certificates and their cache, ALPN validation, browser fingerprints,
  Noise: foreign or without state of interest here.
- natlab, dpilab/main.go and the lab scripts, and everything in integration_test.go but the parser.
- What a real DPI box detects.
