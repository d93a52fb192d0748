# A verified model of the run lifecycle

This project models the part of the UHP server that carries a piece of work from a keyed
request to the last event a client reads, and proves what that part promises. A request claims
its idempotency key and a run slot; a supervisor turns whatever an adapter reports into one
terminal status and one numbered event stream; any number of readers follow that stream while
it is appended to, evicted from and closed; a client decodes it from arbitrary chunks and
reconnects as often as it has to. The memory store under it and the harness configuration
beside it are modelled because their own promises (mirrored indexes, paging over unordered
maps, a view that must hide credentials and an update that must restore them) are of the same
kind.

Run `dafny verify dfyconfig.toml` to check everything.

## How it is built

Code that updates state in place is a class (`EventLog`, `Feed`, `Task`, `Run`,
`IdempotencyKeys`, `Supervisor`, `EventDecoder`, `Stream`, `MemoryStore`, `HarnessService`).
Each method's `ensures` equates the new state with a function of the old one, and the laws are
proved about that function, so a method that swapped two values or skipped a step would no
longer meet its contract. The laws say what comes out in terms of what went in (the updates an
adapter sent, the fields a client sent, the operations a store was given), not in terms of the
functions that compute it.

Concurrency is a step machine. The steps are the source's critical sections, a run is any finite
sequence of steps, and a step that is not possible where it stands changes nothing, so a theorem
over all sequences is a theorem over all interleavings. An adapter is an arbitrary sequence of
updates ending in a closed channel; the timer and the cancel are arbitrary steps between them;
each store write may fail.

| file | models |
|---|---|
| `EventLog.dfy`, `Subscription.dfy`, `Feed.dfy`, `FeedLaws.dfy` | the retained log, one reader interleaved with everything, many runs sharing a feed |
| `Task.dfy`, `Supervision.dfy`, `Supervisor.dfy` | the task record, the supervisor's state machine, the loop that runs it |
| `SupervisionLaws.dfy`, `VerdictLaws.dfy`, `StreamLaws.dfy`, `FinalTaskLaws.dfy`, `RecordLaws.dfy` | terminal status and event, which budget decided, what the stream says, what the task is left as, what the stored record says |
| `Idempotency.dfy`, `IdempotencyLaws.dfy` | the key registry and every interleaving of claims, starts, settles and sweeps |
| `Slots.dfy`, `BusyLaws.dfy`, `Budget.dfy` | run slots across every exit, what the busy check is worth, and the two budgets |
| `Sse.dfy`, `SseLines.dfy`, `SseStandard.dfy`, `SseMark.dfy`, `SseSection.dfy`, `SseWire.dfy` | the decoder, what a line is, the standard's line rules, its byte order mark, its whole section, the writer it reads |
| `ClientStream.dfy`, `FeedClient.dfy`, `LiveFeed.dfy` | the client that reconnects, the client of a feed that has evicted, and of one that evicts under it |
| `MemoryStore.dfy`, `StoreLaws.dfy`, `Sorting.dfy`, `Paging.dfy` | the store's indexes, what is in it after any history, and listing by cursor |
| `Harness.dfy`, `HarnessWrites.dfy`, `HarnessRefusals.dfy`, `HarnessLaws.dfy` | managed harnesses: what a write accepts and stores, which refusal it gives, and reading and writing back |
| `EndToEnd.dfy` | supervisor, log, subscription and client put together |
| `Protocol.dfy`, `Wrappers.dfy` | the events and records they exchange |

A reader never changes the log, so what is proved of one reader holds of each of many.

## What the proofs found

* The first text fragment takes two numbers for the events that open its item before its write is
  tried. If that write fails the numbers are gone and no other failed write ever leaves a hole
  while the run is unsettled: `StreamLaws.StreamIsGaplessIff` is the exact condition, and a client
  of such a run is told of a gap (`EndToEnd.ClientStopsAtAHoleIff`). A failed fragment's text stays
  on the task but never reaches the stream (`StreamLaws.StreamedTextIsWholeIffNothingWasLost`).
  `StreamLaws.LostOpeningLeavesAHole` is a run where number 3 follows number 0.
* The record a client polls has a second writer besides the run: a cancel that finds no run marks
  the copy it read as cancelled and stores it. `RecordLaws.RecordEndsTerminalIff` says when the
  record is terminal and when it is the task. After a settling write that failed it stays in
  progress until such a cancel. A cancel that read the record early and looked for the run late
  overwrites a completed record (`RecordLaws.CompletedRecordIsOverwritten`), and one that falls
  between the record's creation and the run's registration is answered and then undone
  (`RecordLaws.EarlyCancelIsUndone`).
* The decoder departs from section 9.2.6 of the WHATWG HTML Living Standard in three ways: it
  delivers a final frame that has no blank line after it, an id takes effect at its own line, and a
  leading byte order mark stays and hides the first line. `SseSection.AgreesWithTheSectionIff` says
  on which streams none of this shows, the few included where two departures cancel out.
* Opening a feed at 0 sends no header, and a server that gets none starts at the oldest event it
  holds. Once a feed has evicted anything, a client that starts at 0 is therefore told of a gap,
  resumes at 0, and is told again, for ever (`FeedClient.EvictedFeedIsNeverReadFromZero`).
* A reader that falls out of a feed's window is sent an error event with the number of the event it
  missed. The client's numbering takes it for that event: no gap error is raised and the point to
  resume at moves past it. If it alone was missing, reopening there succeeds, and only the notice's
  own text ever said so (`LiveFeed.NoticeIsTakenForTheMissingEvent`,
  `LiveFeed.SecondEventIsPassedOver`).
* The busy check and the registration are separate steps, and the session index names only the
  latest registered run. Two starts that both check first can both run, and once the later of them
  has ended, the earlier is invisible and lets further ones in (`BusyLaws.TogetherOnlyByARace`,
  `BusyLaws.EarlierRunIsInvisible`, `BusyLaws.HiddenRunLetsAnotherIn`).
* A harness read and put back is restored exactly under the three conditions of
  `HarnessLaws.GetThenPutIsIdentityIff`. Where two MCP entries share a name, even the same update
  sent twice can differ from sending it once; `HarnessLaws.PutTwiceIsOnceIff` says when, from what
  is sent and what is stored.
* A session with an empty id at the end of a page would read as the end of the listing;
  `Paging.ListAll` says exactly when the loop is cut short.

## Model

| member | source | states |
|---|---|---|
| `EventLogs.EventLog.Append` | internal/service/eventlog.go:73-110 | the window law holds again after every append, with its eviction and its wake-up, and the log is the specified one: history longer by exactly this event |
| `EventLogs.EventLog.Evict` | internal/service/eventlog.go:101-110 | compaction in the array itself leaves exactly the newest `retain` events, `oldest` at the first of them, and does nothing below the slack |
| `EventLogs.EventLog.Close` | internal/service/eventlog.go:84-90 | the log is finished and every channel handed out so far is closed |
| `EventLogs.EventLog.IndexOf` | internal/service/eventlog.go:143-145 | binary search finds the one position that splits the window at a number |
| `EventLogs.EventLog.HeadNumber` | internal/service/eventlog.go:126-133 | whatever was evicted, the answer is one past the newest number ever appended |
| `EventLogs.EventLog.TakePass` | internal/service/eventlog.go:196-234 | what a reader learns in one hold of the lock: refused, handed an event, finished, or the channel to wait on |
| `EventLogs.AppendKeepsWindow` | internal/service/eventlog.go:73-110 | after every append the log holds a suffix of its history of at least min(appended, retain) and at most retain + retain/4 events, and its head is one past the new event |
| `EventLogs.WindowHoldsExactlyTheRecent` | internal/service/eventlog.go:101-145 | an event of the history is still held if and only if its number is at least `oldest` |
| `Subscription.WindowHoldsExactlySoMany` | internal/service/eventlog.go:101-110 | over any run of a log, the number of events held follows from the number appended alone: one more each time until a quarter over `retain`, and then `retain` again |
| `Subscription.HandsTheHistory` | internal/service/eventlog.go:185-263 | in every interleaving of appends, evictions, close, sleeps and callbacks a subscription from n has been handed exactly the history numbered from n up to its position, in order, none skipped or repeated |
| `Subscription.CompleteMeansEverything` | internal/service/eventlog.go:185-263 | returning without an error means the log was finished and nothing from n on was left |
| `Subscription.RefusedIffBelowTheWindow` | internal/service/eventlog.go:185-215 | in every reachable state the next pass is refused exactly when the wanted number is below `oldest`, and the first pass of a reader that starts at the oldest never is |
| `Subscription.GapMeansEvicted` | internal/service/eventlog.go:185-215 | a subscription that ended in the gap error for f had been handed everything from its origin up to f, all from f up to the oldest reported is gone for good, and a reader that started at the oldest had got past its first pass |
| `Subscription.RefusalIsHonest` | internal/service/eventlog.go:101-145 | on a log without numbering holes a refused number was really there and was really evicted |
| `Subscription.NoLostWakeup` | internal/service/eventlog.go:73-90 | a sleeper for whom there is an event, or whose log is finished, holds a channel that is already closed |
| `Subscription.FinishedLogIsReadToTheEnd` | internal/service/eventlog.go:185-263 | left to itself over a finished log a reader in the window returns after finitely many steps with everything |
| `Feeds.Feed.Publish` | internal/service/feed.go:58-66 | numbering and appending in one step give the event the next number with its body unchanged and its task and session on it, and the feed stays without holes |
| `FeedLaws.FeedAgreesWithEveryRun` | internal/service/feed.go:58-66 | after any interleaving of any number of runs the feed is numbered 0, 1, 2, ... and its part for one task is that run's own log, in order, bodies unchanged, at most one event behind |
| `Protocol.Sequencer.Next` | internal/service/sequencer.go:26-30 | consecutive numbers, from wherever the counter stands |
| `Tasks.AppendTextAppends` | internal/domain/task.go:218-252 | a fragment is added at the end of the assistant text and nowhere else, in the one message item, which is made when there is none |
| `Tasks.Task.Append` | internal/domain/task.go:233-252 | the item list is updated in place as prescribed, and the index and id name the message item |
| `Tasks.Task.CollectText` | internal/domain/task.go:218-229 | the loop over items and parts collects exactly the assistant text |
| `Tasks.ClosingKeepsText` | internal/service/task_service.go:890-925 | citing and closing the message at the end change not one character of its text and add no second message |
| `Tasks.CiteAllCitesOnce` | internal/service/artifacts.go:258-277 | each artifact is cited once, after the citations already there, whose order is kept |
| `Tasks.CiteOneMore` | internal/service/artifacts.go:258-277 | citations stand in the order of the artifacts: one artifact more is cited last, unless its id is cited already |
| `Tasks.SyncIsTruthful` | internal/domain/task.go:158-214 | after the projection the requested model, fallback flag, ceiling and ignored fields are stated exactly when there is something to state; session, harness and time bound are the task's, or as the client sent them when the task has none; the client's other keys are untouched |
| `Tasks.SyncForgetsEarlierModels` | internal/domain/task.go:158-214 | projecting again after another model leaves no trace of the earlier one |
| `Supervisor.Supervise` | internal/service/supervisor.go:462-685 | the loop over updates, timer, cancel and close publishes exactly the stream, and leaves exactly the task, that the state machine prescribes, with nothing evicted, finishes the log, and gives the feed the same stream, renumbered after what it held and attributed to the run |
| `Supervisor.TakeUpdate` | internal/service/supervisor.go:578-684 | counting, relabelling, applying and publishing one update move the run as prescribed, drops and all when a write fails |
| `Supervisor.Run.PublishOne` | internal/service/supervisor.go:214-217 | an event enters the run's log as it is and the feed as a copy, so the two stay in step |
| `Supervisor.EndTask` | internal/service/task_service.go:890-935 | capturing, citing, closing and the terminal write, tried in the source's order, give the prescribed task, numbers and events, whether or not the write holds |
| `SupervisionLaws.AtMostOneTerminalAndItIsLast` | internal/service/supervisor.go:462-685 | with any writes failing: numbers strictly increase from the `created` event at zero, a terminal event is the last one, carries the final response, and there is no second |
| `SupervisionLaws.SettledForGood` | internal/service/task_service.go:724-731 | once a task is terminal nothing that comes later changes it, publishes anything or takes a number |
| `SupervisionLaws.ExactlyOneTerminalIffAccepted` | internal/service/supervisor.go:744-783 | the first terminal update or the closed channel settles the run, and one terminal event is published if and only if the store accepts that write |
| `VerdictLaws.FinalStatus` | internal/service/supervisor.go:500-654 | the final status from what had happened by the settling step: completed only if the adapter said so, failed only if no budget had fired, incomplete with the first budget's reason or the adapter's own, cancelled when a cancel was asked for by then, save where the adapter reported completed or incomplete |
| `VerdictLaws.StepStopNeedsACallTooMany` | internal/service/supervisor.go:578-595 | a run is stopped for steps only if it narrated more calls than its ceiling, then surely if the clock had not fired; the adapter is asked to stop once if the clock fired and once more if the steps ran out first |
| `VerdictLaws.StoppedOnTheCallAfterTheCeiling` | internal/service/supervisor.go:179-190 | the stop comes on call ceiling + 1 itself, unless the clock has already stopped the run |
| `FinalTaskLaws.StreamBeginsAndEndsAsItShould` | internal/service/task_service.go:832-935 | for every run whose settling write holds: the stream begins with the task as it was handed over and ends with the task as it is left, field by field; the last event is `response.completed` exactly when the adapter reported completed, `response.incomplete` exactly when the run ended incomplete, and `response.failed` otherwise |
| `FinalTaskLaws.FinalWords` | internal/service/task_service.go:832-888 | the reason is "timeout" when the clock fired first, "max_step" when the steps ran out first, the adapter's own when it reported incomplete itself, and none otherwise; the error is there exactly on a failure, with the adapter's text when it sent one and else the text for a failure without words or a closed stream |
| `FinalTaskLaws.FinalTaskHasAllThatWasReported` | internal/service/task_service.go:724-935 | for every run, whichever writes failed: the final task has every fragment in one message, closed and citing every artifact, the artifacts the store took and those captured, the last usage and native session reported, the last model the adapter named if the client named none, and metadata true of them |
| `StreamLaws.StreamIsWellBracketed` | internal/service/task_service.go:733-767 | when no write fails: item added, part added, every fragment, text done, part done, item done, one terminal event, numbered 0, 1, 2, ...; the fragments add up to the closing text and to the final response's |
| `StreamLaws.StreamedTextIsWholeIffNothingWasLost` | internal/service/task_service.go:733-767 | with writes failing anywhere: the final response has every fragment, and the published fragments add up to it if and only if no non-empty fragment's write failed |
| `StreamLaws.StreamIsGaplessIff` | internal/service/task_service.go:733-767 | with writes failing anywhere: no number is missing unless the very first fragment's write failed and something was published after it |
| `StreamLaws.LostOpeningLeavesAHole` | internal/service/task_service.go:733-767 | two fragments of which the store refuses the first: number 3 follows number 0 |
| `RecordLaws.RecordEndsTerminalIff` | internal/service/task_service.go:1049-1080 | over any interleaving of registration, the run, its removal, cancels in their three steps and a deletion: a record still there is terminal if and only if its last write that held was the settling one or a cancel's; it is the task after the first, cancelled after the second, and the task only after the first unless the task itself was cancelled |
| `RecordLaws.LastWriterIsTheLast` | internal/service/task_service.go:724-935 | whose write the record's state comes from is a matter of the acts themselves: the last of them that wrote the whole record and held |
| `RecordLaws.RecordKeepsUp` | internal/service/task_service.go:724-935 | while every write holds and nobody else writes, the record is the task as the run has it after every act, reported artifacts included; only the native session id may wait for the next write |
| `RecordLaws.FailedStartSaysWhy` | internal/service/task_service.go:612-635 | a start that fails before its run exists leaves a failed task with the adapter's own words, otherwise as it was created, and nothing later changes it |
| `RecordLaws.StuckRecordCanBeCancelled` | internal/service/task_service.go:1066-1079 | a record left in progress with no run behind it is settled, as cancelled, by the next cancel whose write holds |
| `RecordLaws.CompletedRecordIsOverwritten` | internal/service/task_service.go:1049-1080 | a cancel that read before the settling write and looked after the run was gone turns a completed record into a stale cancelled one |
| `RecordLaws.FailedSettlingIsCancelledLater` | internal/service/task_service.go:1066-1079 | a settling write that fails leaves the record in progress with the run gone, and a later cancel makes it terminal |
| `RecordLaws.EarlyCancelIsUndone` | internal/service/task_service.go:581-651 | a cancel between the record's creation and the run's registration is answered, the run is not told, and its next write puts the record back in progress |
| `Budgets.ResolveBudget` | internal/service/budget.go:67-92 | the wall-clock budget is the least of the ceiling and the positive bounds that fit, positive under a positive ceiling, and no product leaves 64 bits of nanoseconds |
| `Budgets.BudgetSeconds` | internal/service/budget.go:280-286 | the least whole number of seconds that covers a positive budget, never zero |
| `Budgets.ResolveStepBudget` | internal/service/budget.go:129-151 | none, or the least of the bounds that are set and not negative |
| `Budgets.StepCeiling` | internal/service/task_service.go:419-430 | refused exactly when the request names a ceiling that a base narrating no calls cannot count, or a zero that a base not announcing its calls cannot honour; otherwise the least of the request's bound, the deployment's and the configured one, the last dropped when it cannot be held; the result can be held, and is handed unchanged to a base that enforces its own |
| `Idempotency.IdempotencyKeys.Claim` | internal/service/idempotency.go:145-156 | sweep first, then the key's live claim or a new one, which alone is the caller's to start |
| `Idempotency.IdempotencyKeys.EvictExpired` | internal/service/idempotency.go:228-240 | walking the map in any order while deleting from it dates and drops the same claims as dealing with all of them at once |
| `Idempotency.IdempotencyKeys.Settle` | internal/service/idempotency.go:194-211 | the outcome is recorded and a claim without a run is released, but only if the key still leads to that very claim |
| `IdempotencyLaws.NoTwoExecutions` | internal/service/task_service.go:324-337 | in every reachable state at most one claim of a key may still start work or has a run that is not over |
| `IdempotencyLaws.UnsettledIsInTheMap` | internal/service/idempotency.go:194-211 | a claim whose start has not returned is never swept away |
| `IdempotencyLaws.EveryWaiterIsToldTheSame` | internal/service/idempotency.go:62-94 | a claim's outcome, once readable, is the same for every later look, and is a run or an error |
| `IdempotencyLaws.RegrantOnlyAfterTheWindow` | internal/service/idempotency.go:145-240 | a key is granted again only if the earlier claim produced no run, or one sweep dated it after its run was over and a later sweep's own clock reading was a full retention on |
| `IdempotencyLaws.OutOfTheMapIff` | internal/service/idempotency.go:194-240 | in every reachable state a claim is out of the map if and only if its start returned with no run, or some sweep saw its answer at or past the date that the first sweep to see it gave it |
| `IdempotencyLaws.GrantedIff` | internal/service/idempotency.go:145-156 | a claim of a key is granted if and only if every earlier claim of it produced no run or has expired by then, its own sweep included |
| `IdempotencyLaws.FreedKeyIsGranted` | internal/service/idempotency.go:194-205 | once a start has returned with no run its key leads nowhere, whatever else happens, and the next claim of it is granted |
| `IdempotencyLaws.WaitersAreToldTheOutcome` | internal/service/idempotency.go:62-94 | once a claim is readable it holds the run that its start made, or the refusal it was settled with |
| `IdempotencyLaws.KnownIsWhatClaimWouldSay` | internal/service/idempotency.go:169-176 | a claim a moment later, at its own reading of the clock, is refused exactly when the key was known and its window has not run out in between |
| `Slots.Supervisor.Acquire` | internal/service/supervisor.go:398-413 | a slot exactly when fewer than the bound are in use, with a release of its own that has not been spent |
| `Slots.Supervisor.Release` | internal/service/supervisor.go:398-413 | the slot goes back on the first call and on no other |
| `Slots.SlotsAreConserved` | internal/service/task_service.go:453-464 | over any interleaving of starts, failures at any stage and run endings: the count is the number of starts that have a slot, never above the bound, which is the one configured or 8, and each start calls its release exactly once, by whichever exit |
| `Slots.AClosedRunHoldsNothing` | internal/service/supervisor.go:221-231 | by the time a run's log is closed, and so when `done` is, it has no slot and is in neither index |
| `Slots.NothingIsLeaked` | internal/service/supervisor.go:463-473 | once every start is over the table is as it was at the beginning |
| `Slots.RefusedIffFull` | internal/service/supervisor.go:398-405 | a start is refused for capacity if and only if the whole bound is really in use |
| `Slots.BusyIffTheLatestIsLive` | internal/service/supervisor.go:418-434 | the session index names a run if and only if it is live and nobody was registered for its session after it |
| `BusyLaws.TogetherOnlyByARace` | internal/service/task_service.go:432-436 | two runs of one session are live together only if, after the earlier was registered, someone registered on a check made before that: the later itself, or a run that hid the earlier from its check |
| `BusyLaws.EarlierRunIsInvisible` | internal/service/supervisor.go:418-455 | two starts that both pass the check before either is registered: once the later has ended the earlier is live and its session is said to have no run |
| `BusyLaws.HiddenRunLetsAnotherIn` | internal/service/supervisor.go:418-455 | a third start then passes the check, though it asks long after the live run was registered |
| `Sse.ScanEventLines` | uhp/sse.go:238-266 | from the bytes at hand: a line, or a request for more, never guessing about a CR at the end of a chunk |
| `Sse.TokenIsFirstLine` | uhp/sse.go:238-266 | a line given out of a partial buffer is the first line of the whole input, whatever follows, and so is where it ends |
| `Sse.EventDecoder.Next` | uhp/sse.go:111-197 | the next frame, the bytes left and the last event id are those of the undivided input, however the reads were cut |
| `Sse.DecodeStream` | uhp/sse.go:111-197 | for every way of cutting the bytes into reads, the frames and the last event id depend on the bytes alone |
| `SseLines.LinesAreBetweenTerminators` | uhp/sse.go:233-266 | on every input the lines are what is left between line feeds once every CRLF and every lone CR is made one; the end of the input ends a line that has begun and begins none |
| `SseStandard.FollowsTheLineRules` | uhp/sse.go:111-231 | on every input the frames are those the line rules of section 9.2.6 of the WHATWG HTML Living Standard dispatch, with the same ids, then the unfinished frame if there is one; the id at the end is the id buffer |
| `SseSection.AgreesWithTheSectionIff` | uhp/sse.go:111-231 | against the whole section, dispatched messages and last event ID string: agreement if and only if nothing is missed behind a mark and the stream ends with no block and no id pending, or what is missed is made up for: a lost data line where all frames are alike and one is the unfinished one, a lost id where nothing is sent |
| `SseMark.AgreesUnmarkedIff` | uhp/sse.go:111-231 | against the line rules over the stream without its mark, the unfinished frame and the id buffer included: agreement if and only if the stream is not marked or the line behind the mark leaves no trace, a condition on the bytes alone |
| `SseMark.FirstLineShows` | uhp/sse.go:111-197 | starting one line in makes no difference exactly when that line is blank, a comment, unknown, void, or an event or id replaced or dropped before anything is sent with it |
| `SseMark.MarkedFirstLineIsIgnored` | uhp/sse.go:111-197 | with a byte order mark in front, decoding is decoding from the second line on |
| `SseMark.MarkedStreamLosesItsFirstMessage` | uhp/sse.go:111-197 | a marked stream that loses its one message |
| `SseWire.WrittenIsReadBack` | internal/transport/http/sse.go:295-338 | round trip: every sequence of records and keep-alives the server writes is decoded to its events, with their names, payloads and ids, and nothing more |
| `ClientStream.Stream.Next` | uhp/client_stream.go:60-76 | hands over an event only if it is the one expected, moves the resume point with it, and on a gap moves neither |
| `ClientStream.GapIsReportedNotPassedOver` | uhp/client_stream.go:60-71 | whatever arrives, a caller gets the longest consecutive beginning and then either the end of the stream or the gap error that names what was expected and what came |
| `ClientStream.ErrorsIgnoredStillNothingSkipped` | uhp/client_stream.go:60-71 | even a caller that ignores every gap error is never handed a later number in place of a missing one |
| `ClientStream.ReconnectingReadsEverythingOnce` | uhp/client_stream.go:76-206 | any series of connections over a gapless log, each dropped anywhere and reopened at the resume point, yields the log from its start, each event once, in order, with no gap reported |
| `FeedClient.FeedReadsCleanlyIff` | internal/transport/http/harness_events.go:44-62 | of a feed as it stands: a client opened at n is given all of it from n on without a gap if and only if n is still held or next; below it is refused with the oldest number, save that at 0 it is answered from the oldest and reports a gap |
| `LiveFeed.LiveFeedIsReadIff` | internal/transport/http/sse.go:132-199 | however appends, evictions and the reading interleave, all that a connection carries is read without a gap if and only if it carries nothing or its subscription began at n, which it did for every n but 0 |
| `LiveFeed.NoticeIsTakenForTheMissingEvent` | internal/transport/http/sse.go:177-199 | a connection that ends in a gap at f ends, for the client, with f read and the resume point past it, though f was never delivered; reopening there passes f over for good exactly when f alone was missing, and is refused otherwise |
| `LiveFeed.SecondEventIsPassedOver` | internal/transport/http/sse.go:177-199 | an interleaving in which a client is given the first and third of three events and no gap error |
| `FeedClient.EvictedFeedIsNeverReadFromZero` | cmd/uhpc/commands.go:798-850 | however much is appended later, reopening an evicted feed at 0 reports a gap before the first event, and the point to resume at stays 0 |
| `FeedClient.FeedThatEvictedItsFirst` | internal/transport/http/harness_events.go:44-62 | a reachable feed that a client opened at 0 cannot read |
| `MemoryStores.MemoryStore.DeleteSession` | internal/store/memory.go:166-185 | the sweep over all tasks, in any order, drops exactly the session's tasks and arrivals beside the session and its share |
| `MemoryStores.MemoryStore.CreateShare` | internal/store/memory.go:195-217 | the stored share, an existing one handed back, or nothing for a session that is not there |
| `MemoryStores.ArrivalsAreAlwaysExact` | internal/store/memory.go:63-113 | over every sequence of operations, exactly the stored tasks have an arrival number, no two the same, none beyond the counter |
| `MemoryStores.MirrorBreaksIffAnIdIsStolen` | internal/store/memory.go:195-278 | an operation keeps the two share indexes mutual inverses over existing sessions if and only if it does not mint a share under the id of a live one |
| `MemoryStores.AlwaysMirroredIffIdsAreFresh` | internal/store/memory.go:166-278 | over whole histories: the indexes mirror each other throughout if and only if no such id was ever minted |
| `MemoryStores.OneShareEach` | internal/store/memory.go:253-257 | the number of shares counted is the number of sessions shared |
| `MemoryStores.CreateShareNeverReplaces` | internal/store/memory.go:195-217 | a session that is shared gets its own share back and the store is not touched; a new share disturbs no other |
| `MemoryStores.ShareLivesUntilRevoked` | internal/store/memory.go:195-278 | over any further operations short of its revocation or its session's deletion, a share resolves under its id, unchanged |
| `MemoryStores.DeletionIsExact` | internal/store/memory.go:166-185 | after a session's deletion no task, arrival or share of it is left and everything of the others is as it was |
| `MemoryStores.OrderOfArrivalIsKept` | internal/store/memory.go:63-73 | no operation moves a stored task in the order, and a new one comes after all that are there |
| `StoreLaws.TasksAreAsWritten` | internal/store/memory.go:63-122 | after any history of operations a task is there under its id exactly as last created or updated, with every artifact appended since, in order, unless it or its session was deleted since |
| `StoreLaws.SessionsAreAsWritten` | internal/store/memory.go:126-185 | after any history a session is there as last created or updated, unless deleted since |
| `StoreLaws.SharesAreAsWritten` | internal/store/memory.go:195-278 | with fresh share ids, after any history a session has the first share made for it since it was last revoked or deleted |
| `StoreLaws.ShareIdsResolve` | internal/store/memory.go:222-250 | with fresh share ids, a share id resolves exactly to the share that some session has under it |
| `Sorting.ListingIsUnique` | internal/store/memory.go:429-434 | under a strict total order there is one arrangement, so neither the map's order nor the sort's algorithm shows |
| `Sorting.Sort` | internal/store/memory.go:429-434 | every element once, in ascending order |
| `Paging.NewerFirstIsAnOrder` | internal/store/memory.go:429-434 | newest first with ties by id is a strict total order on sessions with distinct ids |
| `Paging.ListSessions` | internal/store/memory.go:417-461 | of a limit from 1 to 100 that many rows, and of any other 20, or what is left if that is less: exactly the matching sessions by falling time and then by id, from one past the one the cursor names, or from the first when it names none; the next cursor is the last row's id when something is left and empty otherwise |
| `Paging.CursorNamesItsPlace` | internal/store/memory.go:437-444 | the cursor of a page leads back to where that page ended |
| `Paging.ListAll` | cmd/uhpc/commands.go:525-542 | following the cursor from nothing ends, with every matching session once, newest first, for every limit; it is cut short if and only if a blank id ends a page that is not the last |
| `Paging.ListSessionTasks` | internal/store/memory.go:464-487 | exactly the session's tasks, each once, by second, then arrival, then id |
| `Paging.SameSecondKeepsCreationOrder` | internal/store/memory.go:475-485 | tasks of one second are listed as created, an id never decides, and no operation turns two of them round |
| `Harnesses.CarryForwardCredentials` | internal/service/harnesses.go:825-841 | in place: an entry sent with a credential keeps it, one sent without gets the last one stored under its name, nothing else changes |
| `Harnesses.NormalizeMcpServers` | internal/service/harnesses.go:703-731 | every entry in normal form, or the first offending entry's refusal |
| `Harnesses.NormalizeSkills` | internal/service/harnesses.go:738-790 | every bundle in normal form, or the first offending bundle's refusal |
| `Harnesses.Render` | internal/harness/managed.go:48-87 | the view: the configuration with every credential blanked and what only the base can answer filled in |
| `Harnesses.HarnessService.UpdateHarness` | internal/service/harnesses.go:361-423 | the write as specified on this harness and no other, or the right refusal with nothing changed, a failing store included |
| `Harnesses.HarnessService.PatchHarness` | internal/service/harnesses.go:384-458 | the same write over the stored configuration with the sent fields laid over it, or the right refusal with nothing changed; what that stores of a field sent or left out is `HarnessWrites.PatchStoresWhatItSends` and `HarnessWrites.PatchSendsTheRest` |
| `HarnessWrites.AcceptedIff` | internal/service/harnesses.go:516-588 | a write is accepted if and only if the base can serve the model and the servers, every server has a name, a url and a known transport, every skill a name and a bundle of good files with a manifest, and the ceiling is none, unchanged, or one that can be held |
| `HarnessRefusals.RefusedForTheFirstThingWrong` | internal/service/harnesses.go:516-571 | a refused write is refused for the first thing wrong: the model, the first bad server and what it lacks first, servers the base cannot be given, the first bad skill and its first bad file, and the ceiling |
| `HarnessWrites.AcceptedPathIff` | internal/service/harnesses.go:797-814 | a path in a bundle is accepted if and only if it is relative, has neither backslash nor NUL, and walking it component by component never leaves the folder and ends below it |
| `HarnessWrites.WriteStoresWhatIsSent` | internal/service/harnesses.go:516-588 | an accepted write stores every field as sent, entry by entry, the defaults "http" and enabled filled in, and an entry sent without a credential has the last one stored under its name |
| `HarnessWrites.PatchStoresWhatItSends` | internal/service/harnesses.go:442-454 | an accepted patch stores every field that it sends, a name that is not empty, and lists entry by entry, with a sent credential kept |
| `HarnessWrites.PatchSendsTheRest` | internal/service/harnesses.go:442-454 | whatever state the harness was in: a field that an accepted patch leaves out keeps its value, and a list left out is stored as if it had been sent as it stood |
| `HarnessWrites.CreationIsAWrite` | internal/service/harnesses.go:334-358 | what a creation accepts and stores is what a write over an empty harness does |
| `HarnessLaws.NormalisingTwiceIsOnce` | internal/service/harnesses.go:703-758 | normalisation gives back what it gave |
| `HarnessLaws.WhatIsWrittenIsNormal` | internal/service/harnesses.go:516-588 | whatever any create or write stores is in normal form, under its own id, base and creation time |
| `HarnessLaws.BlankedAndCarriedBack` | internal/harness/managed.go:194-201 | blanking every credential and carrying them forward again restores them if and only if entries of one name carry one credential |
| `HarnessLaws.ViewsShowNoCredential` | internal/harness/managed.go:48-87 | configurations that differ only in credentials have the same view |
| `HarnessLaws.GetThenPutIsIdentityIff` | internal/service/harnesses.go:361-423 | reading and putting back unchanged stores exactly what was stored, if and only if it is still writable as shown, its default model is its own, and one name means one credential |
| `HarnessLaws.EmptyPatchIsIdentityIff` | internal/service/harnesses.go:442-454 | a patch that sends nothing stores exactly what was stored, if and only if it is still writable and no bare entry has a namesake with a credential |
| `HarnessLaws.DistinctNamesRoundTrip` | internal/service/harnesses.go:361-454 | distinct names, a default model of its own and what is stored still writable: reading and putting back, and a patch that sends nothing, both leave the harness as it was, credentials included |
| `HarnessLaws.PatchChangesOnlyWhatItSends` | internal/service/harnesses.go:384-454 | no field that a patch leaves out is changed by it |
| `HarnessLaws.CeilingRefusedOnlyWhenChanged` | internal/service/harnesses.go:552-577 | a ceiling is the reason for a refusal only when the write changes it, to one that cannot be held |
| `HarnessLaws.StoredCeilingCanBeHeld` | internal/service/harnesses.go:597-602 | after a write the ceiling is the old one, none, or one the base can hold |
| `HarnessLaws.PutTwiceIsOnceIff` | internal/service/harnesses.go:400-423 | the same update twice is the same update once, if and only if under every name sent bare either nothing is stored and nothing else sent, or the last entry sent is bare too or repeats what is stored; distinct names suffice |
| `HarnessLaws.PutTwiceCanFillANamesake` | internal/service/harnesses.go:400-423 | two entries of one name: the second of two identical updates stores the one's credential with the other |
| `EndToEnd.ServedIsWhatASubscriptionHands` | internal/service/supervisor.go:233-243 | a subscription that lasts hands over everything from its origin, however it was interleaved; to a client that named a number, and to any client of a run's log, that is what the client's side takes it to be served |
| `EndToEnd.AFinishedLogServesWhatItHolds` | internal/service/eventlog.go:185-263 | a reader that begins on a finished log returns with exactly what that log is said to serve |
| `EndToEnd.ClientReadsTheWholeAnswer` | internal/service/supervisor.go:233-243 | a run whose writes hold, read over connections each dropped anywhere: a prefix of the stream each event once, in the end all of it, its last event and no other terminal, and its fragments the final response's text |
| `EndToEnd.ClientStopsAtAHoleIff` | uhp/client_stream.go:60-71 | a run with failing writes is read without a gap reported, and in full, if and only if its stream has no hole |

## Left out

- Subprocesses, pipes and argv: an adapter is an arbitrary sequence of updates and a close.
- HTTP routing, JSON, SQLite and file writes; the payload of one frame is bytes.
- A scanner's buffer limit and read errors in the middle of a stream.
- Keep-alive timing and logging; timestamps other than `created_at`.
- Which files an artifact capture finds: it is an arbitrary list added before the terminal write.
- Mutual exclusion of two starts in one session does not hold; `BusyLaws` says how it fails.
- Listing while sessions come and go between pages: an unknown cursor restarts at the first page.
- Aliasing and deep copies at the store's edge: records are values there.
- The store's 64-bit arrival counter and the event numbers are unbounded naturals; their wrap-around is not modelled.
- How share, task and harness ids are minted: fresh ids are a condition of the laws, or a step of the machine that is not possible for an id already in use.
- The registry, model discovery, capability reporting and the default harness; a base is a record of what it answers.
- Channels and claim objects are modelled by their allocation numbers; the contexts that abandon a wait are steps.
- The write of a native session id, the session's own status, and the removal of a response nobody asked to store are steps without effect on the task's stream.
- Deleting a harness, and the tombstone left in its feed's place.
- Slots.SlotsAreConserved: counts the calls of the release on the code's own paths; that a second call would do no harm is the contract of `Slots.Supervisor.Release`.
- Subscription.RefusalIsHonest: holds of logs whose numbering has no holes, which feeds never have; a run's own log is never evicted.
- ClientStream.ReconnectingReadsEverythingOnce: assumes the server starts one past the number named and serves a whole gapless log; `EndToEnd` discharges both for a run whose writes hold, and `FeedClient` says what holds of a feed.
- SseSection.AgreesWithTheSectionIff: bytes are not decoded further, so a malformed UTF-8 sequence, which the standard replaces by U+FFFD, is compared as the bytes it is.
- Supervisor.Supervise: gives the feed its copies with no other run publishing in between; the interleaving of many runs is `FeedLaws`.
