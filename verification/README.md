# Verification of the Hugin agent's protocol core

This project models the parts of the agent in which correctness is hardest to see and
proves what its documentation and tests promise of them.

- **Durable jobs** (`Job*`, `EventTable`, `EventLog`, `EventLogHistory`, `Relay*`): the at-least-once job
  protocol. `JobProtocol` gives every handler and engine callback of the job manager as
  one atomic function from a state to a state, the messages sent and the calls made on
  the engine. `JobManager` and `EventLog` are the same code over mutable objects and
  tables, each method proved equal to its function; a run is named by its
  `agent_run_id`, which is drawn when its `JobState` is created and stands for the
  identity of that object. `JobInvariant` and `JobRuns` prove an invariant over every
  run of inputs (inbound messages, engine callbacks, resume lists, process restarts);
  the other `Job*` files draw the protocol properties from it: fencing, leases and their
  overlap, assignment, what is reported and sent, results and their digests, backpressure, stalls, crashes.
  `EventLogHistory` tells the store's tables from the statements they were given.
  `RelayWorld` adds the
  connection (messages in flight are lost on a disconnect, sends without a client are
  dropped), reconnects, restarts, and a relay that keeps an in-order prefix; `RelaySent`
  says which event numbers one connection carries.
- **Session resume** (`LineStream`, `StreamTheorems`, `StreamEnds`, `ResumeRunner`,
  `SessionTurns`, `SessionReports`, `SessionStory`, `SessionFlow`, `SessionManager`, `SessionWindow`): the
  pausable line stream of a resume run and the ways it ends, the turn table, its behaviour
  told from the requests alone, and the product of the two machines.
- **Session history** (`HistoryLines`, `ToolCorrelation`, `ClaudeHistory`, `ClaudeShown`,
  `CodexHistory`, `CodexShown`, `CodexGrowth`, `EntryBounding`, `EntrySizes`, `EntryReading`, `HistoryPaging`,
  `HistoryCursors`, `HistoryPipeline`, `Listings`): correlating tool calls with results, which lines are shown and how, byte budgets in the bytes of
  the JSON that is sent, backward paging and its cursors, and reading a growing log.
- **Pairing** (`PairingProtocol`, `PairingInvariant`, `PairingRuns`, `PairingLifetimes`,
  `PairingEffects`, `PairingServer`): the winner-takes-all pairing state machine, its two indexes and its device counters.
- **Canonical encodings** (`CanonicalText`, `CanonicalJson`, `CanonicalTheorems`,
  `CanonicalReading`, `CanonicalDigests`, `Base64Url`, `Utf8Text`, `Transcripts`, `TranscriptReading`):
  canonical JSON (RFC 8785), an independent JSON reader that reads it back, the result digest,
  unpadded base64url (RFC 4648), and the length-prefixed signing transcripts with a reader written
  from their description.

`dafny verify dfyconfig.toml` checks everything.

## Assumptions made explicit

The code does not give more than the following, so the theorems say so in their
`requires` clauses or step guards.

- *Engine contract* (`JobRuns.Allowed`): the engine calls back only a run that has not
  reported its end. Where backpressure bounds need it, no event arrives between `pause`
  and `resume` (`JobBackpressure.Honours`).
- *`ack_pending` discipline* (`JobInvariant.Ended`): the directive does not fence a live
  run, so it must name an attempt whose run has ended
  (`JobFencing.AckPendingLeavesRunTalking` shows what happens otherwise).
- *`resume_from` on a terminal attempt* (`JobResults.LeavesLease`): with a new lease it
  changes the durable lease but not the stored result, and
  `JobResults.ResumeOnTerminalStrandsEcho` shows that an echo of the result is then refused.
  `JobResults.EchoOfLastCollectsIff` says for every run when an echo collects; it always
  does when such a directive repeats the lease of the result or brings none.
- *Relay discipline* (`RelayWorld.RelayMaySend`, `RelayWorld.ValidDirective`): the relay
  draws a fresh lease for each assignment, acknowledges at most its durable prefix,
  grants a lease only to an attempt it saw accepted, resumes only what the agent
  reported under a lease of the current assignment, and closes its record of an
  assignment before it revokes, acknowledges the result of, or drops it.
- *The connection cap can strand a run*: a handler looks again only at the attempt it is
  about. `JobStalls.StallsIff` says exactly when any input leaves another attempt paused
  with no cap holding it, and `JobStalls.LostWakeupExample` reaches such states by an ack,
  by a revocation and by an `abandon`. Without the connection cap
  `JobBackpressure.PausedIffOwnCap` excludes it, whether or not the engine honours pauses.
- *A stop between two statements of one handler*: the store has no transactions. Handlers
  are atomic in the theorems; `JobCrashes` gives the states a process finds that starts
  after a stop in between, and what fails in them.
- *An attempt cap of zero still counts one failure*
  (`PairingLifetimes.AttemptsWithinCapIff`).
- *A pause inside an unterminated last line*: if the process closes while the run flows,
  events of a last line without a newline that follow a pause are never delivered;
  `StreamTheorems.CloseLosesIff` gives the exact condition.
- *A cancellation after the process closed ends nothing*: a run that is paused when its
  process closes waits for `resume`, also when it is cancelled in between, and then reports
  the outcome of the process (`StreamEnds.LateCancelWaitsForResume`).
- *Cursors are read by a JSON reader* (`HistoryPaging.ReadsCursors`):
  `HistoryCursors.CursorsReadBack` proves it of the reader in `CanonicalReading`.
- *A transcript builder does not check its nonce or its text*: transcripts are unambiguous
  exactly up to the length of the nonce (`Transcripts.HandshakeUnambiguousIff`), and in
  their text fields exactly up to lone surrogates, which UTF-8 cannot carry
  (`Transcripts.HandshakeTextIff`, `Transcripts.PairingTextIff`).
- *Cut content need not be the longest that fits*: half a surrogate pair takes six bytes of
  JSON and the whole pair four. `EntrySizes.CutIsLongestIff` is the exact condition on
  the content and `EntrySizes.EmojiIsLost` a failing input;
  `EntrySizes.BuiltEntryIsBounded` shows that the content of entries built from a log is
  never cut. What the builders guarantee (`EntrySizes.Built`) is read off their caps; block
  counts are taken to be below 2^53.
- Random ids and poll tokens do not repeat; hashes, signature checks, byte sizes and
  line parsers are parameters; each handler reads the clock once.

## Model

| member | source | states |
|---|---|---|
| JobRuns.InvAlways | src/jobs/manager.ts:60-460 | over every run of inbound messages, engine callbacks, resume lists and restarts, the job invariant holds: stored rows are the unacknowledged end of what was emitted, live and durable records agree, results exist exactly for terminal attempts |
| JobRuns.InvReact | src/jobs/manager.ts:60-460 | each single handler or callback keeps that invariant |
| JobRuns.HelloPartition | src/store/eventlog.ts:145-220 | every durable attempt is reported in exactly one of active jobs and pending results; a registered one is active |
| JobRuns.WindowAndConservation | src/store/eventlog.ts:129-182 | the stored rows carry exactly the contiguous numbers after the acknowledged prefix up to `last_seq`; bytes emitted are bytes acknowledged plus bytes stored; live counters and the result's totals agree with both |
| JobRuns.ConnectionIsSum | src/store/eventlog.ts:179-182 | the connection's unacknowledged bytes are the sum over its attempts |
| JobInvariant.InvAssign | src/jobs/manager.ts:60-173 | an assignment keeps the invariant, including the bound on registered runs, and touches nothing but its own attempt |
| JobInvariant.InvOnEvent | src/jobs/manager.ts:286-306 | an engine event extends log and window together and touches nothing else |
| JobInvariant.InvOnDone | src/jobs/manager.ts:308-354 | the end of a run, also of a fenced or replaced one, keeps the invariant and touches only its own attempt |
| JobInvariant.InvStreamAck | src/jobs/manager.ts:356-367 | a cumulative ack cuts the window of its own attempt only |
| JobInvariant.WindowAcked | src/store/eventlog.ts:161-163 | an ack moves the window's left edge to its number, never back and never past what was emitted |
| JobInvariant.InvResultAck | src/jobs/manager.ts:369-387 | collecting a result forgets its attempt and nothing else |
| JobInvariant.InvRevoke | src/jobs/manager.ts:447-460 | a revocation fences the run and forgets its attempt and nothing else |
| JobInvariant.InvApplyResume | src/jobs/manager.ts:223-284 | a whole resume list keeps the invariant and registers no run |
| JobFencing.RevokedRunIsSilentForever | src/jobs/manager.ts:308-323 | after a revocation, over every continuation (also a re-assignment of the same attempt id), no callback of the revoked run sends, calls or changes anything but its own record |
| JobFencing.AbandonedRunIsSilentForever | src/jobs/manager.ts:266-281 | the same after an `abandon` directive |
| JobFencing.FencedIsInert | src/jobs/manager.ts:286-323 | a callback of a fenced run leaves tables, registry, other runs, wire and engine alone |
| JobFencing.SynchronousCancelAgrees | src/jobs/manager.ts:447-460 | an engine that ends a run inside `cancel` leads to the same state as one that ends it later |
| JobFencing.AckPendingLeavesRunTalking | src/jobs/manager.ts:259-265 | an `ack_pending` for an attempt with a live run forgets the attempt but fences nothing: the next event of the run is still sent and stored, for an attempt that is in no table |
| JobLeases.LeaseAgreement | src/jobs/manager.ts:392-428 | registry and store always name the same lease and run for an attempt |
| JobLeases.SentUnderCurrentLease | src/jobs/manager.ts:286-348 | every message a run produces carries the lease that is current when it is sent |
| JobLeases.ResentUnderCurrentLease | src/jobs/manager.ts:223-258 | everything a directive re-sends carries the directive's lease, which is then the current one |
| JobLeases.RefusedStaysRefused | src/jobs/manager.ts:392-428 | with a monotone clock a refused lease is still refused after any step that does not grant it |
| JobLeases.RetiredForGood | src/jobs/manager.ts:392-428 | over every run, a lease refused once stays refused until it is granted to the attempt again |
| JobLeases.ResumedRows | src/jobs/manager.ts:223-240 | `resume_from k` re-sends exactly what was emitted after `k`, or after the last acknowledgement if that is later, in order and without a gap |
| JobOverlap.RotationWindow | src/jobs/manager.ts:392-428 | over every run after a rotation and until the next grant: the new lease is accepted, the one before it for five seconds while the run lives in this process, and no other |
| JobOverlap.DirectiveWindow | src/jobs/manager.ts:407-415 | the same for a lease that a resume directive brings |
| JobOverlap.SameLeaseKeepsWindow | src/jobs/manager.ts:407-415 | a directive that brings the current lease changes neither which leases are accepted nor until when |
| JobOverlap.AssignmentWindow | src/jobs/manager.ts:138-165 | after an assignment only its own lease is accepted, until another is granted |
| JobAssignment.DuplicateAssign | src/jobs/manager.ts:80-96 | a duplicate assignment changes and starts nothing, and is re-confirmed with the stored run id and lease, or refused as stale under another lease |
| JobAssignment.StartedAtMostOnce | src/jobs/manager.ts:138-173 | while the row of an attempt exists its engine is started at most once, across duplicates, reconnects and restarts, and its run id never changes |
| JobAssignment.AdmittedIff | src/jobs/manager.ts:98-136 | a new attempt is started exactly when a slot is free, the engine accepts it and the approval gate is usable or not needed; otherwise nothing changes |
| JobReports.NewAttemptIsAnswered | src/jobs/manager.ts:98-173 | a new attempt is refused once, with the first reason that applies, or gets a run id never used before, one engine start, and the acceptance before the first status |
| JobReports.CancelReachesEngineIff | src/jobs/manager.ts:430-443 | a cancellation reaches the engine with its grace period, is announced under the current lease and stored, exactly for a live run under an accepted lease |
| JobReports.ResultTellsOutcome | src/jobs/manager.ts:325-354 | over every run and any number of re-stamps, a pending result and the durable status beside it tell how the last engine run ended and how long after its assignment, and the recorded size is that of its message |
| JobReports.LiveStatusAgrees | src/jobs/registry.ts:14-50 | a registered run is running or cancelling, and live and durable status agree, over every run |
| JobTraffic.EventIsSaid | src/jobs/manager.ts:286-298 | an event is sent once, as the message with the job, attempt and current lease of its run, the next number, its id and what the engine said; exactly that message is stored, with its size |
| JobTraffic.EndIsSaid | src/jobs/manager.ts:325-353 | the end of a run is told once, by the result that is stored, under a fresh envelope, and frees the registry slot |
| JobTraffic.ResumeIsSaid | src/jobs/manager.ts:225-240 | `resume_from` sends message by message what was sent after the resume point; only the lease is another one, if the directive names one |
| JobTraffic.AttemptTellsAssignment | src/jobs/manager.ts:138-165 | over every run the row, the events and the result of an attempt name the job of its assignment, and the row its time, from which durations are counted |
| JobTraffic.StartsAlways | src/jobs/manager.ts:308-323 | over every run a start time is kept exactly for the registered runs |
| JobTraffic.EngineHeldIffPaused | src/jobs/manager.ts:299-367 | over every run the last flow-control call made on the engine of a live run was a pause exactly while the run counts as paused |
| JobTraffic.EventPausesIff | src/jobs/manager.ts:299-305 | an event pauses its run, by one call, exactly if the tables with it stand at the event, byte or connection cap |
| JobTraffic.AckResumesIff | src/jobs/manager.ts:356-367 | an accepted ack of any number wakes a paused run, by one call, exactly if the tables it leaves stand at none of the three caps |
| JobTraffic.SizedAlways | src/jobs/manager.ts:294-297 | over every run an event counts against the caps with the size of the message that was sent for it |
| JobTraffic.EnvelopesAreFresh | src/jobs/manager.ts:241-258 | over every run each result that is sent or sent again has an envelope of its own |
| JobDigests.MessageDigest | protocol/v1/digest.ts:65-73 | the digest of a `job.result` message is a function of its body, whatever its `id` and `ts`, and is never an error |
| JobDigests.DigestIdentifiesBody | protocol/v1/digest.ts:65-73 | unless the hash collides on their texts, bodies have one digest exactly if they are equal |
| JobDigests.DigestedText | src/conn/outbound.ts:83-97 | what is hashed is a JSON text in which a reader finds exactly the members of the result under their names, the absent ones absent, and neither `id` nor `ts` |
| JobCrashes.AppendStopped | src/store/eventlog.ts:129-134 | a process that stops between the two statements of an append leaves an event above the reported last number |
| JobCrashes.ReportStopped | src/jobs/manager.ts:334-346 | one that stops between saving a result and its status leaves an attempt that is reported as active and as pending |
| JobCrashes.CollectStopped | src/jobs/manager.ts:369-387 | one that stops between collecting a result and deleting its attempt leaves a row that is reported nowhere and that no ack removes |
| JobCrashes.DeleteStopped | src/store/eventlog.ts:121-124 | one that stops between the two statements of a deletion leaves the stored events, which count against the connection cap and belong to no attempt; the invariant holds exactly if there were none |
| JobCrashes.ResendStopped | src/jobs/manager.ts:241-258 | one that stops between adopting a lease and re-stamping the result leaves a result whose echo is refused exactly if the directive brought another lease |
| JobResults.AckCollectsIff | src/jobs/manager.ts:369-387 | an ack collects a result exactly under an accepted lease and the stored digest |
| JobResults.EchoCollectsIff | src/jobs/manager.ts:369-401 | an echo of the stored result is accepted exactly when the result's lease is the attempt's durable lease |
| JobResults.EchoOfLastCollectsIff | src/jobs/manager.ts:241-258 | over every run and any number of re-stamps, the pending result is the `job.result` last built, and an echo of its lease and digest collects it exactly if that lease is the durable one |
| JobResults.LastResultAlwaysAckable | src/jobs/manager.ts:369-387 | so it always does when every `resume_from` on a terminal attempt leaves the lease of the result alone |
| JobResults.ResultIsDurable | src/store/eventlog.ts:200-212 | a result row leaves only by a lease-and-digest match or by `ack_pending` or `abandon` of its attempt |
| JobResults.ResumeOnTerminalStrandsEcho | src/jobs/manager.ts:225-240 | a `resume_from` with another lease on a terminal attempt makes the echo of its result refused |
| JobBackpressure.UnackedIsBounded | src/jobs/manager.ts:299-305 | with an engine that honours `pause`, unacknowledged events never exceed the event cap, bytes without the last event stay below the byte cap, and a run that is not paused is below both |
| JobBackpressure.AtMostOneMore | src/jobs/manager.ts:462-468 | while the connection total stays at its cap each run emits at most one further event, and none once paused |
| JobBackpressure.AckOfEverythingResumesIff | src/jobs/manager.ts:356-367 | an ack of everything outstanding wakes a paused run exactly when the other attempts leave room under the connection cap |
| JobStalls.StallsIff | src/jobs/manager.ts:356-460 | exactly when any input (ack, event, end, revocation, collection, resume list, restart) leaves an attempt paused with no cap holding it: the connection cap alone held it, the input is about other attempts, and the rows it removes, told from the state before it, bring the total below that cap |
| JobStalls.LostWakeupExample | src/jobs/manager.ts:266-460 | runs that reach such a state by an ack, by a revocation and by an `abandon` |
| JobBackpressure.PausedIffOwnCap | src/jobs/manager.ts:299-367 | while the connection cap does not bind, a live run is paused if and only if one of its own caps is reached, over every run, also of an engine that emits while paused |
| EventTable.AckedContiguous | src/store/eventlog.ts:161-163 | a cumulative ack on contiguous rows is a cut from the left |
| EventTable.SortContiguous | src/store/eventlog.ts:137-143 | rows stored in order are resent in order |
| EventTable.ConnectionTotal | src/store/eventlog.ts:172-182 | the sum over all rows is the sum of the per-attempt sums |
| EventLogHistory.StoredIff | src/store/eventlog.ts:121-163 | after any sequence of statements an event is stored exactly if it was appended and neither acknowledged nor deleted with its attempt since |
| EventLogHistory.HighWaterMark | src/store/eventlog.ts:87-134 | while its row exists, `last_seq` of an attempt is the largest number appended since the row was created |
| EventLogHistory.PendingIff | src/store/eventlog.ts:115-208 | a result is pending exactly if it was saved and since then neither collected by its digest nor discarded; it is the one saved, but for re-stamping |
| EventLogHistory.AckRemovesExactly | src/store/eventlog.ts:161-163 | a cumulative ack removes exactly the rows of its attempt up to its number, leaves every other attempt's rows, and the total drops by what was removed |
| JobManagement.JobManager.constructor | src/jobs/manager.ts:44-58 | a new process on an old store starts in the restarted state, with the invariant |
| JobManagement.JobManager.HandleAssign | src/jobs/manager.ts:60-173 | state, wire and engine calls move as the protocol function says, and the invariant is kept |
| JobManagement.JobManager.OnEvent | src/jobs/manager.ts:286-306 | likewise: number, persist, send, then pause if over a cap |
| JobManagement.JobManager.OnDone | src/jobs/manager.ts:308-354 | likewise, with clean-up only if this object still is the registered one |
| JobManagement.JobManager.HandleStreamAck | src/jobs/manager.ts:356-367 | likewise for the cumulative ack and the wake-up |
| JobManagement.JobManager.HandleResultAck | src/jobs/manager.ts:369-387 | likewise for the digest-matched collection |
| JobManagement.JobManager.AdoptLease | src/jobs/manager.ts:407-415 | likewise for a lease adopted from a directive |
| JobManagement.JobManager.HandleLeaseGranted | src/jobs/manager.ts:419-428 | likewise for a rotation |
| JobManagement.JobManager.HandleCancel | src/jobs/manager.ts:430-443 | likewise for a cancellation |
| JobManagement.JobManager.HandleRevoke | src/jobs/manager.ts:447-460 | likewise for a revocation |
| JobManagement.JobManager.ApplyDirectives | src/jobs/manager.ts:223-284 | the loop over the directives does what the whole list says |
| JobManagement.JobManager.LeaseOkNow | src/jobs/manager.ts:392-402 | accepts exactly the current lease, or the previous one inside the overlap; without a live run the durable lease decides |
| JobManagement.JobManager.OverCapNow | src/jobs/manager.ts:462-468 | true exactly when one of the three caps is reached |
| RelayWorld.NoEventIsLost | src/jobs/manager.ts:286-306 | over every run with disconnects, reconnects and restarts, the relay's log is a prefix of what the engine emitted and every other emitted event is still a stored row |
| RelayWorld.ConnectionCatchesUp | src/jobs/manager.ts:223-240 | on a connection that created or resumed an attempt the numbers in flight never leave a gap, and with nothing in flight the relay holds everything emitted |
| RelaySent.ConnectionSendsEach | src/jobs/manager.ts:223-240 | on a connection that resumed an attempt, for as long as it lasts and the attempt is kept, the numbers of the events sent are exactly those from the resume point to the last one emitted, each once and in order, over any further steps |
| RelaySent.SaidIsInFlight | src/daemon.ts:92-100 | what is counted as sent is exactly what a step adds to the messages in flight |
| RelaySent.CreatedNumbers | src/jobs/manager.ts:286-306 | on a connection that created an attempt they are exactly 1, 2, … to the last one emitted |
| RelaySent.ResumedCatchesUp | src/daemon.ts:150-194 | over every run, while a connection that resumed an attempt lasts, the relay holds everything emitted whenever nothing is in flight |
| RelayWorld.WorldAlways | src/daemon.ts:134-200 | the link between agent, channels and relay holds in every reachable world |
| RelayLink.NextMessage | protocol/README.md:119-124 | the next event message in flight for an attempt is one the relay has, or the next one it lacks |
| StreamTheorems.StreamingRefinesBatch | src/sessions/resume.ts:77-148 | for every chunking and every interleaving of pause and resume, also from inside the callback: delivered, waiting, and what the buffered complete lines stand for are together, in order, the events of exactly the output's lines that are not blank; an unterminated last line once it was flushed; error chunks and failed starts come as they came in |
| StreamTheorems.FinishDeliversAll | src/sessions/resume.ts:91-100 | a run that ends by itself after output ending in a newline or in blanks has delivered the events of every line that is not blank, in order |
| StreamTheorems.SplitIff | src/sessions/resume.ts:121-135 | a text is cut in its complete lines and a rest in exactly one way, and the loop finds it |
| StreamTheorems.NothingOvertakes | src/sessions/resume.ts:77-106 | what was delivered or waits keeps its place, whatever comes next comes after it, and an error chunk takes the next place |
| StreamTheorems.CloseLosesIff | src/sessions/resume.ts:91-100 | exactly when a close leaves events of an unterminated last line undelivered |
| StreamTheorems.NothingAfterFinishWhilePaused | src/sessions/resume.ts:199-215 | what waits when a run has finished is never delivered |
| StreamTheorems.ResumedFinishLosesNothing | src/sessions/resume.ts:205-215 | a run that finishes from `resume` has delivered everything it parsed |
| StreamTheorems.LinesConcat | src/sessions/resume.ts:121-135 | splitting as text arrives gives the lines of the whole text |
| StreamTheorems.InvAlways | src/sessions/resume.ts:59-233 | the stream invariant holds over every run of callbacks and calls |
| StreamEnds.EndsAlways | src/sessions/resume.ts:84-100 | over every run: a closed run that is not held is over; what is reported is the outcome of the process, and a run cancelled first never reports as if it had ended by itself |
| StreamEnds.ReportedOnce | src/sessions/resume.ts:84-100 | over every continuation a run keeps the report it gave |
| StreamEnds.WhatIsReported | src/sessions/resume.ts:84-100 | over every run, told from the inputs: what is reported, for good, is the outcome of the input that ended the run: a failed start, a cancellation without a process, or how the process ended, which counts as cancelled if the run was cancelled before |
| StreamEnds.CancelledFirstNeverSucceeds | src/sessions/resume.ts:91-100 | a run cancelled while its process ran reports in no continuation the outcome of the process: cancelled, or a failed start |
| StreamEnds.LateCancelWaitsForResume | src/sessions/resume.ts:205-221 | a cancellation after the process closed under a pause ends nothing; `resume` then delivers everything and reports the outcome of the process |
| ResumeRunner.ResumeRun.Drain | src/sessions/resume.ts:121-135 | the loop takes every complete line, and with `flush` the rest |
| ResumeRunner.ResumeRun.FlushPendingEvents | src/sessions/resume.ts:101-106 | the loop delivers what waits until the callback pauses again |
| ResumeRunner.ResumeRun.MaybeFinishClosed | src/sessions/resume.ts:91-100 | a closed run that is not paused is drained and finished; a cancelled one is finished at once |
| ResumeRunner.ResumeRun.Resume | src/sessions/resume.ts:205-215 | flush, then drain, then maybe finish, stopping wherever the callback pauses |
| ResumeRunner.ResumeRun.OnData | src/sessions/resume.ts:175-178 | a chunk joins the buffer and is drained unless paused |
| ResumeRunner.ResumeRun.OnClose | src/sessions/resume.ts:188-193 | the outcome is recorded and the run finished if it may |
| SessionTurns.InvAlways | src/sessions/resume-manager.ts:31-194 | over every run of requests, callbacks, timeouts and acks: the busy set is the set of keys of live turns, no key is live twice, a turn's messages are an accept, events 1 to n and then at most one result with nothing after it, and it is paused exactly while its unacknowledged events reach the cap |
| SessionTurns.InvReact | src/sessions/resume-manager.ts:31-194 | each single handler keeps that |
| SessionTurns.CloseEndsEverything | src/sessions/resume-manager.ts:52-58 | closing the connection empties both tables and leaves every accepted turn with exactly one result |
| SessionTurns.AcceptedIff | src/sessions/resume-manager.ts:60-94 | a turn is accepted exactly when its handle resolves, a runner exists and no live turn has its key; a refusal sends one reject and changes nothing else |
| SessionStory.ManagerTellsTheStory | src/sessions/resume-manager.ts:31-194 | over every run, told from the requests and reports alone: each start gets one answer in order, refused for the first reason that applies and as busy exactly while an earlier turn of that session has not ended; each turn sends one result exactly once it has ended, for what ended it first; its run is cancelled exactly as often as that was asked while it was live |
| SessionStory.EndingIsFinal | src/sessions/resume-manager.ts:179-194 | what has ended stays ended as it did, in every continuation |
| SessionStory.CancelledTurnReportsOnce | src/sessions/resume-manager.ts:39-43 | after a cancellation of a live turn, in every continuation in which its run reports, the run was asked to stop and the turn has sent exactly one result, that of what came first |
| SessionReports.RunHeldExactlyAtCap | src/sessions/resume-manager.ts:161-177 | over every run each turn starts its run once, and the last pause or resumption asked of a live run was a pause exactly while its unacknowledged events reach the cap |
| SessionFlow.FlowIsTold | src/sessions/resume-manager.ts:45-50 | over every run, told from the inputs alone: a client is sent exactly the events that came while its turn was live, numbered from one, and its run is held exactly while the events sent above the highest acknowledgement, each counting for no more than had been sent, reach the cap |
| SessionFlow.ClosingSays | src/sessions/resume-manager.ts:52-58 | closing sends one cancelled result for each live turn, in the order in which they were accepted, and nothing else |
| SessionManagement.SessionResumeManager.StartTurn | src/sessions/resume-manager.ts:60-139 | state, messages and runner calls move as the turn function says, and the invariant is kept |
| SessionManagement.SessionResumeManager.HandleRunEvent | src/sessions/resume-manager.ts:161-170 | likewise: number, send, pause at the cap |
| SessionManagement.SessionResumeManager.HandleAck | src/sessions/resume-manager.ts:45-50 | likewise: clamp, never move back, resume below the cap |
| SessionManagement.SessionResumeManager.HandleRunDone | src/sessions/resume-manager.ts:119-124 | likewise for the end of a run |
| SessionManagement.SessionResumeManager.CancelActiveTurns | src/sessions/resume-manager.ts:52-58 | the loop over a snapshot ends every turn, and both tables are empty |
| SessionWindow.UnackedWithinCap | src/sessions/resume-manager.ts:161-177 | over every run of the turn table and the runs that feed it: a live turn has an unfinished run, both count the same events and agree on the pause, and unacknowledged events never exceed the cap and reach it exactly while the run is paused |
| SessionWindow.ClientSeesOutput | src/sessions/resume-manager.ts:161-170 | what the client was sent of a turn is a prefix of what its run delivered, all of it while the turn is live; with what waits and is buffered it is, in order, the events of exactly the lines of the output that are not blank |
| SessionWindow.EndOfTurnIsComplete | src/sessions/resume-manager.ts:119-124 | when the process of a live turn ends by itself after output ending in a newline, the client has been sent the events of every line that is not blank, in order, before the one result, which tells success, failure or cancellation as the process ended |
| SessionWindow.AsksDecides | src/sessions/resume-manager.ts:161-177 | what the turn table decides from inside the callback is the window of `cap` events after the last ack |
| ToolCorrelation.KthCallGetsKthResult | src/sessions/history.ts:277-287 | the k-th call with an id receives the k-th result with that id |
| ToolCorrelation.CorrelateCalls | src/sessions/history.ts:277-287 | taking from one queue per id gives exactly the matching by position |
| ToolCorrelation.PushToolResult | src/sessions/history.ts:425-432 | the queue of the id grows at its end, the others stay |
| ToolCorrelation.ConsumeToolResult | src/sessions/history.ts:434-440 | the front of the queue is taken, the other queues stay |
| ClaudeHistory.BuildHistory | src/sessions/history.ts:108-148 | the two passes with consuming queues compute the history defined by position |
| ClaudeShown.HistoryShowsTurns | src/sessions/history.ts:108-148 | told from the log alone: exactly the user and assistant records with a role have an entry, but not user messages of tool results only; each has the line, role and content of its record, and an assistant's calls are its tool uses with id and name, in order, up to 256, the k-th with an id with the k-th result of that id in the log |
| ClaudeHistory.EntriesIncrease | src/sessions/history.ts:120-147 | entries stand in strict line order, each for a line of its own |
| ClaudeHistory.AppendingOnlyFills | src/sessions/history.ts:108-148 | appending whole lines never changes an output already filled: it fills missing ones and adds entries |
| CodexHistory.BuildHistory | src/sessions/history.ts:150-224 | queues, event table and the open entry, updated in place, compute the walk defined by position |
| CodexShown.HistoryShowsLog | src/sessions/history.ts:150-224 | told from the log alone: exactly the messages with a role have an entry with their line, role and content, and a call or loose event that finds no open entry has a synthetic assistant entry without content; on each hang the calls and loose events up to the next entry, in order, up to 256, each with its own id, name, input, result by position and all events of its id |
| CodexHistory.HistoryInOrder | src/sessions/history.ts:180-223 | entries, synthetic ones included, stand in strict line order; calls hang on assistant entries only, at most 256 each |
| CodexHistory.ShownCallsAreEarned | src/sessions/history.ts:205-220 | every call shown has the id, name and input of a line of the log, the result its position earns and all events of its id, or is an event without a call |
| CodexGrowth.AppendingOnlyGrowsIff | src/sessions/history.ts:150-224 | appending whole lines leaves every earlier entry in place and only fills outputs and adds calls and events, exactly if no event that stood on its own finds its call in the appended lines |
| HistoryLines.ParseJsonlLines | src/sessions/history.ts:226-240 | the records of a log, each with its line number |
| HistoryLines.RecordsInOrder | src/sessions/history.ts:226-240 | line numbers strictly increase and every record is listed |
| EntryBounding.BoundHistoryEntry | src/sessions/history.ts:442-468 | the entry itself if it fits, else its longest fitting prefix of calls with the rest counted as omitted, else no calls and cut content |
| EntryBounding.TruncateContent | src/sessions/history.ts:492-509 | binary search returns a content prefix that fits while one unit more does not |
| EntryBounding.KeptCallsAreLongest | src/sessions/history.ts:448-461 | no longer prefix of the calls would fit, and content is cut only when no call is left |
| EntryBounding.BoundingIsIdempotent | src/sessions/history.ts:442-443 | bounding what is bounded changes nothing |
| EntryBounding.AddOtherCounts | src/sessions/history.ts:478-490 | exactly the dropped number is added to the kind "other", whatever the order and the other kinds |
| EntryBounding.OmissionsAfter | src/sessions/history.ts:478-490 | the omissions come out in the fixed order of kinds; every other kind is as it was, and the first "other" counts that many more, or is new |
| EntryBounding.BoundedFitsAndConserves | src/sessions/history.ts:442-490 | a bounded entry fits, keeps a prefix of the calls and of the content, marks cut content, and calls kept and omitted add up |
| EntrySizes.BuiltEntryIsBounded | src/sessions/history.ts:442-490 | the content of an entry that a builder made is never cut: bounding fits the cap, keeps content and the longest fitting prefix of the calls, moves the others into the count, and changes nothing the second time |
| EntrySizes.CutIsLongestIff | src/sessions/history.ts:492-513 | for any entry, the search misses the longest prefix that fits in UTF-8 bytes of JSON exactly if a shorter one splits a surrogate pair, does not fit, and is met by the bisection before a longer one; it then ends just before the pair |
| EntrySizes.EmojiIsLost | src/sessions/history.ts:492-513 | such content exists for every entry with room: letters and one emoji that fit to the byte, from which the search drops the emoji |
| EntrySizes.ContentAddsWidth | src/sessions/history.ts:511-513 | an entry's bytes are those of the rest plus the width of its quoted content |
| EntryReading.EntryReads | src/sessions/history.ts:511-513 | what is counted are the bytes of a text that a JSON reader reads as exactly the members of the entry: id, role, content and time, and the mark of cut content, the omissions and the calls where there are any |
| HistoryPaging.PaginateHistory | src/sessions/history.ts:43-69 | a page is the longest run of entries before the boundary that fits limit and budget, with a cursor exactly when something is left; a bad cursor is the only error |
| HistoryPaging.PageIsUnique | src/sessions/history.ts:43-69 | that determines the page |
| HistoryPaging.LimitIsHonoured | src/sessions/history.ts:545-548 | a page holds at most what was asked for, counted as 50 when nothing was asked and as 1 or 256 outside that range; exactly so many if they are left and fit the budget; it stops short only where one more would not fit |
| HistoryPaging.FollowingYieldsAll | src/sessions/history.ts:43-69 | following cursors from the newest page, with any limits, yields every entry exactly once and in order |
| HistoryPaging.FollowingNeverFails | src/sessions/history.ts:523-543 | no cursor that was handed out is refused while it is followed |
| HistoryPaging.PageFitsFrame | src/sessions/history.ts:11-16 | a page with its commas and a bounded envelope fits the 1 MiB frame, and a page with a cursor is not empty |
| HistoryPipeline.BuiltPageFitsFrame | src/sessions/history.ts:11-69 | every page of entries built from a log and bounded in their real bytes fits the frame |
| HistoryPaging.CursorRoundTrip | src/sessions/history.ts:523-543 | decoding undoes encoding, and a cursor of another scope's signature or past the end is refused |
| HistoryCursors.CursorsReadBack | src/sessions/history.ts:523-543 | read as JSON, the bytes of every cursor give back its position and signature |
| HistoryPaging.AppendMovesNoPage | src/sessions/history.ts:43-69 | entries appended later move no page of an older cursor |
| HistoryPipeline.FollowingWhileGrowing | src/sessions/history.ts:27-69 | a client that follows an older cursor while the log grows before any of its requests receives every earlier entry exactly once and in order, each as before but for outputs filled meanwhile |
| HistoryPipeline.PageAfterChange | src/sessions/history.ts:43-69 | an older cursor still names the same position; its page begins elsewhere exactly if the old range no longer is the longest that fits, and not earlier if no entry shrank |
| PairingRuns.InvAlways | mock-relay/pairing-server.ts:343-564 | in every reachable state the token index and the token lists agree, lists are within their cap, every token carries the winning key, failed attempts stay within the cap (within one when the cap is zero), and each device counter is the number of active rows of its owner and within the device cap |
| PairingLifetimes.AttemptsWithinCapIff | mock-relay/pairing-server.ts:501-516 | failed attempts stay within the cap in every reachable state exactly if the cap is positive |
| PairingRuns.RowsOnlyProgress | mock-relay/pairing-server.ts:489-564 | over every run a row moves forward only: its winner never changes once set, terminal states absorb, failures count only before a win |
| PairingRuns.AcceptedIff | mock-relay/pairing-server.ts:343-419 | a completion is accepted exactly when its proof holds and the row is still to be won, or was won by this key and is pending or active |
| PairingRuns.CompletionAnswers | mock-relay/pairing-server.ts:343-419 | every completion is answered: by acceptance exactly if it is acceptable, else by the one generic failure |
| PairingRuns.AcceptedBelongsToWinner | mock-relay/pairing-server.ts:394-416 | acceptance makes or finds the key the winner, registers a new winner, and adds one working token, good until the row's deadline or for the lifetime of tokens of active rows, in place of the oldest over the cap; everything else stays |
| PairingRuns.LosingCompletion | mock-relay/pairing-server.ts:501-505 | the whole server after a losing completion: nothing changed on a row that is won or over but for a noted expiry; an issued row has one failure more, and is burned at the cap |
| PairingRuns.PollAnswers | mock-relay/pairing-server.ts:421-464 | each poll is answered by the state of the token's own row, and by one generic refusal for an unknown or expired token; only the test hook refuses instead, while it has refusals left |
| PairingEffects.PollEffect | mock-relay/pairing-server.ts:421-464 | the whole server after a poll without auto-confirmation: unchanged for an unknown token; an expired token is taken back, and so is the one the test hook refuses; else only the expiry of the row is noted |
| PairingEffects.AutoPollEffect | mock-relay/pairing-server.ts:421-464 | the whole server after a live poll of a pending row under auto-confirmation: one poll more, and the activation with credentials and device count when it is due |
| PairingEffects.ConfirmEffect | mock-relay/pairing-server.ts:263-276 | the whole server after a confirmation or rejection: expiries noted up to the first pending row in index order, that row ended or, below the device cap, activated and counted, and nothing else |
| PairingEffects.SecretsInMintOrder | mock-relay/pairing-server.ts:221-256 | over every run the secret index knows exactly the minted secrets, in the order in which they were minted first, and names the newest row of each |
| PairingInvariant.ExpireSees | mock-relay/pairing-server.ts:489-499 | looking at a row notes its expiry at its deadline and changes nothing else |
| PairingRuns.CredentialsOnlyToWinner | mock-relay/pairing-server.ts:421-464 | credentials go only to a live token of the winner of an active row and are made from its key, test hooks included |
| PairingRuns.ActivatedIff | mock-relay/pairing-server.ts:548-564 | a pending row is activated exactly below the device cap and before its own deadline, and then counts as one device more |
| PairingLifetimes.MintedRow | mock-relay/pairing-server.ts:221-256 | a minted row is found under its secret, belongs to nobody, and expires at a whole second at most one second before its lifetime ends |
| PairingLifetimes.WinnersChangeIff | mock-relay/pairing-server.ts:343-419 | a request makes a winner exactly if it is a completion that names the row by its secret and proves possession while the row is issued and in time; nothing else makes or changes one |
| PairingLifetimes.WinnerTakesAll | mock-relay/pairing-server.ts:394-406 | over every run each row is won at most once, by the first such completion, which stays its winner, and the registered keys are those of the winning completions in order |
| PairingLifetimes.ConfirmAnswers | mock-relay/pairing-server.ts:263-276 | a confirmation or rejection is for the oldest row pending and in time; a confirmation answers with credentials made from the winner exactly below the device cap |
| PairingLifetimes.NothingToConfirm | mock-relay/pairing-server.ts:540-546 | with no such row both only note expiries |
| PairingLifetimes.AutoConfirmed | mock-relay/pairing-server.ts:421-464 | with the auto-confirm hook the n-th live poll of a pending row activates it, below the device cap, and is still answered as pending; with n not positive the poll itself gets the credentials |
| PairingLifetimes.HookRefusesTheFirst | mock-relay/pairing-server.ts:445-447 | over every run without auto-confirmation the refusal hook refuses exactly the first so many polls that deserved better |
| PairingInvariant.EvictionFacts | mock-relay/pairing-server.ts:518-522 | eviction keeps the newest tokens within the cap and removes the hashes of the others |
| PairingService.PairingServer.HandleComplete | mock-relay/pairing-server.ts:343-419 | rows, indexes and answer move as the protocol function says, and the invariant is kept |
| PairingService.PairingServer.HandleStatus | mock-relay/pairing-server.ts:421-464 | likewise for a poll |
| PairingService.PairingServer.MintPairing | mock-relay/pairing-server.ts:221-256 | likewise for a new row |
| PairingService.PairingServer.ConfirmFirst | mock-relay/pairing-server.ts:263-267 | likewise for a confirmation of the first pending row |
| PairingService.PairingServer.RejectFirst | mock-relay/pairing-server.ts:269-276 | likewise for a rejection |
| PairingService.PairingServer.EvictOldest | mock-relay/pairing-server.ts:518-522 | the loop leaves the newest tokens and un-indexes the others |
| PairingService.PairingServer.FirstPendingRow | mock-relay/pairing-server.ts:540-546 | the loop expires rows on the way to the first pending one in insertion order |
| CanonicalDigests.CanonicalParsesBack | protocol/v1/digest.ts:25-56 | a JSON reader written from the grammar of RFC 8259 reads every canonical text back as the value that was meant |
| CanonicalReading.ValueReads | protocol/v1/digest.ts:25-56 | the same inside a larger text: a canonical text ends where it says |
| CanonicalReading.QuoteReads | protocol/v1/digest.ts:33-41 | a quoted string reads back as the string, lone surrogates in keys included |
| CanonicalReading.EscapeIsShortest | protocol/v1/digest.ts:33-41 | only quotes, backslashes, control characters and lone surrogates are escaped, by the two-unit escape where there is one, else with lower-case hexadecimal digits (section 3.2.2.2 of RFC 8785) |
| CanonicalDigests.CanonicalIffSameMeaning | protocol/v1/digest.ts:25-56 | two values have the same canonical text if and only if they mean the same (sections 3.2.2 and 3.2.3 of RFC 8785) |
| CanonicalDigests.KeyOrderIsIrrelevant | protocol/v1/digest.ts:45-51 | insertion order and undefined fields never change the text or the error |
| CanonicalTheorems.SucceedsIffClean | protocol/v1/digest.ts:25-56 | canonicalization throws exactly on unsupported types, non-finite numbers and lone surrogates in string values |
| CanonicalTheorems.FailureHasCause | protocol/v1/digest.ts:25-44 | the error that is thrown names something that is somewhere in the value |
| CanonicalTheorems.WrittenFacts | protocol/v1/digest.ts:45-51 | members are written in strictly increasing order of UTF-16 code units, exactly those that are defined |
| CanonicalText.LessIff | protocol/v1/digest.ts:47-48 | the key order: the first differing code unit decides, a proper prefix comes first (section 3.2.3 of RFC 8785) |
| CanonicalTheorems.CanonicalIsEncodable | protocol/v1/digest.ts:33-41 | a canonical text holds no lone surrogate, so its UTF-8 form loses nothing |
| CanonicalDigests.DigestIgnoresEnvelope | protocol/v1/digest.ts:65-73 | fresh `id` and `ts`, in any position, never change the digest |
| CanonicalDigests.DigestIdentifiesPayload | protocol/v1/digest.ts:65-73 | unless the hash collides, digests are equal exactly when the payloads without `id` and `ts` mean the same |
| CanonicalDigests.BytesIdentifyPayload | protocol/v1/digest.ts:65-73 | the same of a hash of the UTF-8 bytes of the canonical text, which is what is hashed |
| Base64Url.DecodeEncode | protocol/v1/pairing.ts:47-51 | decoding undoes encoding for every number of bytes |
| Base64Url.EncodeDecodeIff | protocol/v1/pairing.ts:47-51 | re-encoding gives a string back exactly when no character or bit was dropped (section 3.5 of RFC 4648) |
| Base64Url.AlphabetTable | protocol/v1/pairing.ts:47-51 | the characters are those of Table 2 of RFC 4648, value by value |
| Base64Url.EncodeGroups | protocol/v1/pairing.ts:47-51 | each three bytes are the four characters of their 24 bits, most significant first, and one or two bytes at the end two or three characters, without padding (section 4 of RFC 4648) |
| Base64Url.Canonical32Iff | protocol/v1/pairing.ts:47-51 | the gate accepts exactly 43 characters of the alphabet whose last has two zero bits to spare |
| Base64Url.Canonical32Bijection | protocol/v1/pairing.ts:47-51 | accepted strings and 32-byte values are in bijection |
| Base64Url.FingerprintIsCanonical | protocol/v1/pairing.ts:89-94 | a key fingerprint is always in the accepted form |
| Transcripts.HandshakeUnambiguousIff | protocol/v1/transcript.ts:42-55 | two handshake transcripts with the same bytes are of the same fields exactly if their nonces are equally long |
| TranscriptReading.HandshakeReads | protocol/v1/transcript.ts:42-55 | a reader written from the description (prefixed tag, challenge, 32 raw bytes, then prefixed agent, key, version, "ed25519", tenant and origin, and nothing after) finds exactly the fields that were signed; a transcript is written exactly if each field fits its length |
| TranscriptReading.HandshakeReadsOnly | protocol/v1/transcript.ts:42-55 | and what that reader accepts is the transcript of what it returns |
| TranscriptReading.HandshakeTextReads | protocol/v1/transcript.ts:22-55 | read as UTF-8, the text fields come back as they were, but for lone surrogates |
| Transcripts.HandshakeTextIff | protocol/v1/transcript.ts:22-55 | for all text, two handshake transcripts with nonces of equal length have the same bytes exactly if their fields are the same once each lone surrogate is replaced by U+FFFD |
| Transcripts.HandshakeUnambiguous | protocol/v1/transcript.ts:42-55 | with 32-byte nonces and well-formed text a transcript determines every field |
| Transcripts.LoneSurrogatesCollide | protocol/v1/transcript.ts:22-27 | a lone surrogate in place of another, at any position of any text field, leaves the transcript as it is |
| Transcripts.NonceLengthMatters | protocol/v1/transcript.ts:42-55 | with nonces of other lengths it does not: a family of pairs with equal transcripts |
| Transcripts.PairingUnambiguous | protocol/v1/pairing.ts:67-83 | a pairing transcript determines every field |
| TranscriptReading.PairingReads | protocol/v1/pairing.ts:67-83 | likewise for a pairing transcript: prefixed tag, the 43 characters of the secret, 32 raw bytes of key, prefixed origin and version, and nothing after; written exactly for an accepted secret, a key of 32 bytes and fields that fit |
| TranscriptReading.PairingReadsOnly | protocol/v1/pairing.ts:67-83 | and nothing else reads as a pairing of a secret |
| TranscriptReading.PairingTextReads | protocol/v1/pairing.ts:67-83 | its text fields come back as they were, but for lone surrogates |
| Transcripts.PairingTextIff | protocol/v1/pairing.ts:67-83 | two pairing transcripts have the same bytes exactly if secret and key are equal and origin and version are equal up to lone surrogates |
| Transcripts.PairingTextUnambiguous | protocol/v1/pairing.ts:67-83 | so it does its text fields, when they are well-formed |
| Utf8Text.Utf8Iff | protocol/v1/transcript.ts:22-27 | two texts have the same UTF-8 bytes exactly if they are the same once each lone surrogate is replaced by U+FFFD |
| Utf8Text.Utf8Reads | protocol/v1/transcript.ts:22-27 | a strict UTF-8 reader (RFC 3629: nothing overlong, no surrogates) reads the bytes of a text back as the text with each lone surrogate replaced |
| Utf8Text.ReadIsWritten | protocol/v1/transcript.ts:22-27 | and what it reads is what was written, byte for byte |
| Utf8Text.Utf8Injective | protocol/v1/transcript.ts:22-27 | well-formed texts have the same UTF-8 bytes exactly if they are equal |
| Transcripts.DomainsAreSeparate | protocol/v1/pairing.ts:67-83 | no handshake transcript equals a pairing transcript |
| Transcripts.LpPrefix | protocol/v1/transcript.ts:22-27 | a length-prefixed field ends where it says, whatever follows |
| Transcripts.U32IsBigEndian | protocol/v1/transcript.ts:22-27 | the four length bytes spell the length, most significant first |

## Left out

- Approval requests and responses: a timer table beside the protocol, without influence on events, results or leases.
- Engine adapters, process spawning, sockets, HTTP, SQLite and file-system calls: foreign code behind the contracts above; the `ClaudeEngine` adapter can break the engine contract by emitting several events from one line while paused.
- Text layers: UTF-8 decoding across chunks, JSON parsing of engine, log and cursor lines, and the formatting and capping of tool inputs and outputs; they enter as functions.
- Ed25519 and SHA-256: signature validity is an input, hashes are functions that collide only where a theorem says so.
- Numbers in canonical JSON other than integers, and integers beyond the range in which JavaScript prints all digits.
- The handshake, version negotiation, heartbeats, `acceptEpoch` beyond its use as a guard on reconnecting, and reconnect delays.
- The final message and the new session id that a resume run reports: the last ones its lines name; they enter as parameters.
- `FakeResumeRunner`, and a runner whose callback registration throws after it has started.
- The simple pairing variant, the audit arrays of the pairing server, and its HTTP body handling: each is a lookup and a deletion, or a log.
- Session enumeration and its list cursors: sorting is by locale and filtering by code unit, so the clean statement needs hypotheses the code does not enforce.
- `src/cli.ts` process supervision.
- JobManagement.JobManager.OnEvent: the order between messages on the wire and calls on the engine is not recorded, only the order within each.
- PairingRuns.InvAlways: the key of a device counter is the pair of tenant and user, which is what the joined key string is as long as neither contains a NUL character.
- SessionTurns.InvAlways: session keys are triples, which is what the joined key strings are as long as no part contains a NUL character.
