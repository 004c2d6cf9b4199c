# Cope: doing it once, and only on proof

Cope drives Microsoft 365 Copilot through a visible browser and executes what the model asks for in a local
repository. Everything it does to the outside world it must do once, and claim only on evidence: a message is sent
at most once, an answer is read only if it belongs to that message, text is executed only if it is a widget the
page owns, a configuration is rewritten only when no session depends on it, a rollback is accounted for exactly
once, and a task is complete only if the local record says so. This project models those mechanisms and proves
what they promise.

| module | what it models |
|---|---|
| `ConfigLock` | the crash-tolerant directory lock, as an interleaved step system |
| `SessionLifecycle`, `SetupTransaction`, `SessionRecovery` | session states; browser setup, session publication and the recovery scan as steps under the lock; the scan as a loop |
| `Base64Url`, `TaskMarker` | the marker a message carries, its printer and its scanner |
| `ResponseCorrelation` | which response on a possibly truncated page answers a message |
| `ResponseWait`, `WaitOutcomes` | the polling loop that decides when an answer is complete; every way it can end |
| `BrowserAdapter`, `SubmitOutcomes`, `CopilotAdapter`, `Restart` | submit, resolve and receive over all runs; what each call does and answers, guard by guard; the same as an object; what a restart recovers |
| `PageTransaction`, `PageOutcomes`, `ContextPage` | the fill/click transaction over changing tabs; what each call does and answers; the same as an object |
| `SubmissionOverPage` | adapter and page together: how many messages can really leave |
| `ManualReadiness` | the clocked readiness loop |
| `LineOrder`, `ResponseCapture`, `Execution` | from editor lines to the gate in front of the protocol parser; from a received answer to its execution |
| `AuditLog`, `Rollback` | the hash chain, and rollback with crashes between durable steps |
| `Completion` | the completion verdict |
| `DisclosureBudget` | disclosure arithmetic and the bound derived for terminal output |

Three devices recur. What the outside world answers — pages, clocks, kill switches, failing system calls, crashes —
is a parameter of a step or a call, so a statement about all runs is a statement about every behaviour of the
outside. Foreign functions — SHA-256, JSON, URL parsing, byte lengths, the protocol parser — are parameters too;
where a law about them is needed it is a hypothesis (`TaskMarker.Lawful`, `ResponseCorrelation.Separates`) or a free
constructor (the hashes of `AuditLog`, the digests of `SetupTransaction`). And objects that update fields are
classes whose methods are proved equal to functions on their state; the theorems about all runs are lemmas about
those functions.

## Findings

- A click can be reported with `dispatchAttempted: false` and be issued all the same, and so may be sent. The
  last deadline check comes before the awaited installation of the click guard, and the flag is set only after it
  (`src/browser/playwright-semantic-page.ts:475-560`); a timer that fires in between answers the caller
  (`src/browser/playwright-semantic-page.ts:598-692`), while the click follows unless the teardown
  (`src/browser/context-semantic-page.ts:1037-1055`) is faster. In a transaction that is otherwise in order this
  happens exactly when last check < timer < guard installed < teardown
  (`PageTransaction.RefusedClickDispatchedExactlyWhen`, with an input in `PageTransaction.RefusedClickCanBeSent`).
  After the deadline the click is allowed one millisecond (`src/browser/playwright-semantic-page.ts:557-560`); after
  an abort that comes before the deadline it is allowed what remains of it. The page is revoked then, so through
  that page still at most one message per submission leaves, and after such a click none at all
  (`SubmissionOverPage.AtMostOneMessage`, `SubmissionOverPage.MisreportedClickIsTheLast`).
- A rollback whose intent was audited but whose status was not yet written is refused as long as another command
  keeps the session out of the audited status. Recovering the session does so until it is paused again
  (`Rollback.RetryRefusedWhileRecovering`). What lets the retry through later, besides a return to the audited
  status, is a rollback of another checkpoint, since a session that is rolled back is no longer asked for its status.
  So the refusal is for ever exactly when accepted moves no longer lead back to the audited status and no other
  restorable checkpoint has a rollback that was never audited or whose own audited status can come back
  (`Rollback.RefusedForEverExactlyWhen`). An abort brings this about for a session with one checkpoint, and a rollback
  of a second one repairs it (`Rollback.RetryRefusedAfterAbort`).
- With two or more new responses the last one is taken for the answer exactly when at most one envelope more than
  the baseline is visible, the visible ones before the last look like the end of the baseline, and with the last
  they do not (`ResponseCorrelation.NewResponsesMisreadExactlyWhen`, with an input in
  `ResponseCorrelation.TwoNewResponsesCanBeMisread`).
- The derived bound on terminal output is refused by the policy engine exactly when even a single byte would be:
  the floor of one byte then overshoots (`DisclosureBudget.BoundIsAllowedExactlyWhen`,
  `DisclosureBudget.FloorCanOvershoot`). The bound applies the
  per-operation cap to the planned size while the engine applies it to the raw count, so the bound can be smaller
  than what the engine allows (`DisclosureBudget.FloorCanBeAllowed`,
  `DisclosureBudget.BoundIsLargestAllowedExactlyWhen`).

## Model

| member | source | states |
|---|---|---|
| ConfigLock.ReachableInv | src/config/browser-config-lock.ts:37-129 | every interleaving of acquire, recovery and release by any number of processes, with crashes and failing or unreadable calls between any two file-system steps, keeps the two-level invariant of directory, owner file, claim file and program counters |
| ConfigLock.MutualExclusion | src/config/browser-config-lock.ts:37-100 | at most one live actor is between a successful acquire and the unlink of its owner file |
| ConfigLock.LiveOwnerUndisturbed | src/config/browser-config-lock.ts:41-129 | nobody else's step replaces the directory of a live owner or touches its owner file |
| ConfigLock.ClaimPinsDirectory | src/config/browser-config-lock.ts:102-129 | until the process that created a recovery claim unlinks it, no step removes the claim or the directory incarnation it is in |
| ConfigLock.DirectoryRemovedByMakerOrAfterItsDeath | src/config/browser-config-lock.ts:37-129 | a lock directory disappears only through its maker or after its maker died |
| ConfigLock.ReleaseReadsItsOwnToken | src/config/browser-config-lock.ts:89-99 | a release that can read the owner file always finds its own token |
| ConfigLock.AcquiresExactlyWhenObtainable | src/config/browser-config-lock.ts:37-129 | an undisturbed acquire gets the lock exactly if the directory is absent or its owner is dead and unclaimed; otherwise it ends without it, the directory untouched |
| ConfigLock.AloneReleases | src/config/browser-config-lock.ts:89-99 | an undisturbed release removes the directory, unless a recovery claim is in it |
| SessionLifecycle.LifecycleIsOneWay | src/session/state-machine.ts:16-105 | no chain of accepted moves leaves the terminal statuses, returns before the grant, or leaves `rolled_back` |
| SessionLifecycle.LeadsHasRoute | src/session/state-machine.ts:16-68 | start-up statuses lead forward, running ones to one another and all of them to the finished ones: each such way has a route of accepted moves without a rollback |
| SessionLifecycle.RouteLeads | src/session/state-machine.ts:70-91 | and no route of accepted moves without a rollback leads anywhere else |
| SetupTransaction.ReachableInv | src/cli/setup-transaction.ts:31-117 | every run of setups, live and offline starts, lifecycle moves and crashes keeps the invariant that ties sessions, browser file and lock holders together |
| SetupTransaction.PassedScanIsHarmless | src/cli/session-recovery.ts:62-225 | a session the recovery scan does not count as a blocker cannot be stranded by a new browser file |
| SetupTransaction.ResumableExactlyWhen | src/cli/session-recovery.ts:62-172 | when a session is a resume candidate, terminal or to be reconciled, in terms of status, manifest and browser evidence |
| SetupTransaction.BlockedReasonExactly | src/cli/session-recovery.ts:78-165 | which reason a blocked session gets, each exactly in its case |
| SetupTransaction.UnfinishedSessionProtectsBrowser | src/cli/setup-transaction.ts:41-62 | while a live-browser session is unfinished, half published or unreadable, no step rewrites the browser file |
| SessionRecovery.ScanSessionRecovery | src/cli/session-recovery.ts:173-217 | lists every session directory in order; the browser configuration is read at most once, exactly when a session needs it and no override is given |
| SessionRecovery.ReadyExactlyWhenFree | src/cli/session-recovery.ts:219-225 | setup is ready exactly when every session is finished, or past its grant on another transport, whatever the browser evidence |
| SetupTransaction.NoStrandedSession | src/cli/session-files.ts:93-111 | every non-terminal session with a readable live-browser manifest is pinned to the digest of the current browser file, so its resume check passes |
| SetupTransaction.ResumableSessionIsPastItsGrant | src/cli/commands.ts:349-391 | a session advertised as resumable is past its grant, its grant file is durable, and its manifest names its own transport |
| SetupTransaction.BrowserRewrittenOnlyWhenHarmless | src/cli/setup-transaction.ts:41-62 | the browser file changes only in the last setup step, under the lock, when no session can be stranded |
| SetupTransaction.WriteIsCompareAndSwap | src/cli/setup-transaction.ts:31-117 | in every run a step that changes the browser file replaces exactly the baseline of the setup that takes it, by exactly its configuration |
| SetupTransaction.BaselineStaysWhileSetupGoesOn | src/cli/setup-transaction.ts:43-46 | from its first comparison on, the browser file stays the baseline of a setup that goes on, as long as every writer takes the lock |
| SetupTransaction.SetupSavesExactlyWhen | src/cli/setup-transaction.ts:41-62 | an undisturbed setup saves exactly its own configuration, exactly if the file is its baseline and no session stands in its way, and asks for revalidation only then |
| SetupTransaction.SetupComesToAnEnd | src/cli/setup-transaction.ts:41-66 | and it has a schedule to its end, with that file |
| SetupTransaction.StartPublishesExactlyWhen | src/cli/setup-transaction.ts:68-93 | an undisturbed start publishes its whole pinned session exactly if the browser file is the expected one and the session is new, and no trace of it otherwise |
| Base64Url.DecodeEncode | src/browser/copilot-browser-adapter.ts:1296-1310 | decoding undoes encoding for every byte sequence |
| TaskMarker.OneMatchPerMessage | src/browser/copilot-browser-adapter.ts:1184-1197 | an accepted message with its marker holds exactly one marker-shaped text, none across the join |
| TaskMarker.MarkerRoundTrip | src/browser/copilot-browser-adapter.ts:1291-1312 | scanning a submitted message recovers its own marker and the very baseline it was made with |
| TaskMarker.MarkerForeignToOthers | src/browser/copilot-browser-adapter.ts:1601-1628 | a submitted message says nothing about any other correlation |
| TaskMarker.BaselineFreeMarkerIsMalformed | src/browser/copilot-browser-adapter.ts:1643-1670 | a marker without a baseline, if it were on a page, would be malformed for its correlation |
| TaskMarker.SubmittedMessageIsUnique | src/browser/copilot-browser-adapter.ts:1601-1684 | a page with the submitted message once, among messages foreign to it, yields exactly that marker and baseline |
| TaskMarker.TwoCopiesAreAmbiguous | src/browser/copilot-browser-adapter.ts:1607-1684 | two copies of a submitted message are ambiguous whatever else is shown |
| TaskMarker.MalformedCopyIsAmbiguous | src/browser/copilot-browser-adapter.ts:1607-1684 | one malformed marker for the correlation anywhere makes the page ambiguous |
| TaskMarker.UniqueExactlyWhenOneRecovered | src/browser/copilot-browser-adapter.ts:1607-1684 | evidence is unique exactly when one marker is recovered and none is malformed |
| TaskMarker.AbsentExactlyWhenForeign | src/browser/copilot-browser-adapter.ts:1680-1684 | a page proves nothing exactly when every marker on it is foreign, and is ambiguous exactly with a malformed one or two recovered ones |
| TaskMarker.ReadExactly | src/browser/copilot-browser-adapter.ts:1611-1678 | when a marker is foreign, malformed, recovered with or without a baseline, as conditions on its version and decoded array |
| TaskMarker.MatchAtExactly | src/browser/copilot-browser-adapter.ts:1605-1609 | a match at a position is exactly a marker of one of the two versions standing there |
| TaskMarker.MatchesAreAll | src/browser/copilot-browser-adapter.ts:1605-1609 | the scan finds every marker in a text, each once and from left to right |
| TaskMarker.HistoricalMessageIsUnique | src/browser/copilot-browser-adapter.ts:1629-1658 | a page with one historical message, V1 or V2 with the first baseline version, among messages foreign to it, yields that marker and no baseline |
| TaskMarker.TaskMarkerEvidence | src/browser/copilot-browser-adapter.ts:1601-1684 | the nested loops compute the judgement specified over all readings of the page |
| ResponseCorrelation.VirtualizedReading | src/browser/copilot-browser-adapter.ts:1381-1433 | digest alignments of a truncated transcript decide exactly which text suffix is shown |
| ResponseCorrelation.NothingChosenWithoutNewResponse | src/browser/copilot-browser-adapter.ts:1333-1450 | on any suffix of the baseline transcript no envelope is chosen, periodic or not |
| ResponseCorrelation.NewResponseChosenExactlyWhenDistinguishable | src/browser/copilot-browser-adapter.ts:1333-1450 | on any suffix of baseline plus one response the last envelope is chosen exactly when the suffix is distinguishable, and it is that response |
| ResponseCorrelation.CorrelationSound | src/browser/copilot-browser-adapter.ts:1333-1450 | with at most one new response a candidate exists only if there is one, and is exactly its element |
| ResponseCorrelation.ChosenExactlyWhenAligned | src/browser/copilot-browser-adapter.ts:1333-1450 | on any page whatever an envelope is chosen exactly when all but the last continue a suffix of the baseline and the last breaks it |
| ResponseCorrelation.NewResponsesMisreadExactlyWhen | src/browser/copilot-browser-adapter.ts:1381-1433 | with two or more new responses the last is taken for the answer exactly under a condition on baseline, new responses and visible length; otherwise nothing is read |
| ResponseCorrelation.TwoNewResponsesCanBeMisread | src/browser/copilot-browser-adapter.ts:1381-1433 | a page that meets the condition |
| ResponseCorrelation.SelectExactly | src/browser/copilot-browser-adapter.ts:1353-1433 | for a record in memory, on any page: exactly when nothing is new, and exactly when each of the three refusals is given |
| ResponseCorrelation.SelectRebuiltExactly | src/browser/copilot-browser-adapter.ts:1353-1379 | the same for a record rebuilt from a marker, which waits exactly on the whole baseline |
| ResponseCorrelation.SecondAlignmentExactlyWhen | src/browser/copilot-browser-adapter.ts:1391-1412 | a tail of the baseline is ambiguous exactly if at least two envelopes show, all of them alike |
| ResponseCorrelation.PendingWithoutNewResponse | src/browser/copilot-browser-adapter.ts:1359-1362 | before an answer arrives the correlator waits, on the whole baseline and on every tail with one alignment |
| ResponseCorrelation.PresentExactly | src/browser/copilot-browser-adapter.ts:1366-1378 | when the chosen envelope is a capture issue and with which code, when it is an answer, and when it is still blank |
| ResponseCorrelation.AnswerExactly | src/browser/copilot-browser-adapter.ts:1333-1450 | on any page the last element is presented exactly if the page is aligned, and otherwise only pending or a refusal is answered |
| ResponseWait.AwaitResponse | src/browser/copilot-browser-adapter.ts:585-782 | the loop returns the specified outcome for every sequence of samples |
| ResponseWait.CountersDescribeWindow | src/browser/copilot-browser-adapter.ts:641-735 | the loop's counters are the size and start of an uninterrupted window of turns showing one answer |
| ResponseWait.CompletedMeansStable | src/browser/copilot-browser-adapter.ts:585-752 | `completed` needs `stableSamples` samples of one digest over `minimumStableMs`, interrupted by nothing but pending or unreadable samples, all proved by conversation and marker, the last one quiet and within bounds |
| ResponseWait.CautionRefines | src/browser/copilot-browser-adapter.ts:585-782 | whatever is sampled, the loop with a correlator that reads the same or gives up ends the same or gives up |
| ResponseWait.SettledPageCompletes | src/browser/copilot-browser-adapter.ts:710-752 | a page that settles on one answer for the configured samples and time is completed with exactly that answer |
| WaitOutcomes.OutcomeExactly | src/browser/copilot-browser-adapter.ts:585-782 | how the loop ends, for every sequence of samples: with the outcome of the first turn that ends it, or with what the samples say at the deadline |
| WaitOutcomes.BlockedExactlyWhen | src/browser/copilot-browser-adapter.ts:631-636 | it is blocked exactly by the first page that ends it, in the pinned conversation and neither ready nor streaming |
| WaitOutcomes.CompletedExactlyWhen | src/browser/copilot-browser-adapter.ts:710-752 | it completes exactly at the first turn that ends it, if the answer it shows has the configured samples and time behind it |
| WaitOutcomes.TimedOutExactlyWhen | src/browser/copilot-browser-adapter.ts:755-782 | it times out exactly if no turn ends it, the marker was there when last looked for, and no failed capture or issue is open; incomplete exactly if an answer or issue was seen |
| WaitOutcomes.LostMarkerIsReported | src/browser/copilot-browser-adapter.ts:755-760 | a submission that is not proved at the deadline is reported as such, never as a timeout |
| WaitOutcomes.SettlesExactly | src/browser/copilot-browser-adapter.ts:601-656 | which samples end the loop at once, and with what |
| BrowserAdapter.AtMostOneDispatch | src/browser/copilot-browser-adapter.ts:230-420 | no run of submit, resolve and receive calls dispatches two clicks for one submission id |
| BrowserAdapter.NothingAfterDispatch | src/browser/copilot-browser-adapter.ts:240-250 | after a click that may have been dispatched no later run of calls clicks again for it, and no call after any such run reports it not submitted |
| BrowserAdapter.NotSubmittedChangesNothing | src/browser/copilot-browser-adapter.ts:394-420 | a not-submitted answer leaves every pinned conversation as it was, and nothing was ever dispatched |
| BrowserAdapter.SubmittedHasEvidence | src/browser/copilot-browser-adapter.ts:230-534 | every submitted receipt, on all six paths, names a conversation in which the unique matching marker was observed |
| BrowserAdapter.ConversationMovesAtMostOnce | src/browser/copilot-browser-adapter.ts:1031-1112 | a record's conversation moves at most once, only off the entry route and only to where its marker was seen |
| BrowserAdapter.SubmittedIsFinalInRuns | src/browser/copilot-browser-adapter.ts:240-250 | no later sequence of calls changes the record of a submission that was proved |
| BrowserAdapter.CompletedAnswerIsProved | src/browser/copilot-browser-adapter.ts:536-752 | a completed answer belongs to a proved submission and was stable in its conversation |
| BrowserAdapter.ConfirmSound | src/browser/copilot-browser-adapter.ts:814-973 | the confirmation loop ends in a receipt backed by evidence and never in not-submitted |
| BrowserAdapter.SubmitSound | src/browser/copilot-browser-adapter.ts:230-420 | one submit keeps the record invariant, touches no other submission and keeps its reply's promises |
| BrowserAdapter.ResolveSound | src/browser/copilot-browser-adapter.ts:431-534 | one resolve does the same |
| BrowserAdapter.ResolveNeverClicks | src/browser/copilot-browser-adapter.ts:431-534 | resolving clicks nothing |
| SubmitOutcomes.ClicksExactlyWhen | src/browser/copilot-browser-adapter.ts:230-420 | for every state and environment a submit clicks exactly if every guard passes: accepted and retryable, two trusted looks with a usable adapter, agreeing conversations, no trace on the page, a returned fill, an actionable control; dispatched exactly if not refused |
| SubmitOutcomes.UnacceptedReplies | src/browser/copilot-browser-adapter.ts:230-241 | which error an unacceptable call raises; nothing changes |
| SubmitOutcomes.KnownReplies | src/browser/copilot-browser-adapter.ts:240-250 | what a known submission answers that may not be attempted again |
| SubmitOutcomes.FirstLookReplies | src/browser/copilot-browser-adapter.ts:252-317 | the status, conversation, marker and code of each guard that fails at the first look |
| SubmitOutcomes.FirstLookRecords | src/browser/copilot-browser-adapter.ts:1063-1094 | what such a look leaves on record: a baseline only from a usable marker, the conversation pinned only by a recovered one |
| SubmitOutcomes.UnsentReplies | src/browser/copilot-browser-adapter.ts:328-384 | the status and code of each guard that fails between fill and click; the record stays unactivated and no conversation is pinned |
| SubmitOutcomes.RefusedClickReplies | src/browser/copilot-browser-adapter.ts:387-411 | a refused click is answered by its code and taken back completely |
| SubmitOutcomes.SentReplies | src/browser/copilot-browser-adapter.ts:384-420 | a click that was not refused is answered as submitted exactly if the page then proves it, by the record of the attempt, and as uncertain otherwise |
| SubmitOutcomes.ConfirmedExactlyWhen | src/browser/copilot-browser-adapter.ts:814-973 | the confirmation ends in submitted exactly by the first decisive poll, or by the last look after a sight on the entry route |
| SubmitOutcomes.ConfirmStopsAt | src/browser/copilot-browser-adapter.ts:814-914 | the first poll that does not keep it waiting decides, with this receipt |
| SubmitOutcomes.ConfirmRunsOut | src/browser/copilot-browser-adapter.ts:915-973 | what is answered if every poll keeps it waiting |
| SubmitOutcomes.ResolvedExactlyWhen | src/browser/copilot-browser-adapter.ts:431-534 | when a resolution answers submitted, and when not-submitted, in terms of record and page |
| SubmitOutcomes.UnresolvedReplies | src/browser/copilot-browser-adapter.ts:431-534 | what it answers in every other case |
| SubmitOutcomes.ResolvedRecords | src/browser/copilot-browser-adapter.ts:486-508 | a proved resolution pins its task and keeps the record, or rebuilds it from the marker |
| SubmitOutcomes.ReceivedExactlyWhen | src/browser/copilot-browser-adapter.ts:536-577 | a receive waits exactly for a submission resolved as submitted with a usable baseline; what it answers otherwise |
| CopilotAdapter.Adapter.Submit | src/browser/copilot-browser-adapter.ts:230-420 | the object's maps after a submit, and its reply, are those of the specification |
| CopilotAdapter.Adapter.ResolveSubmission | src/browser/copilot-browser-adapter.ts:431-534 | the same for resolve |
| CopilotAdapter.Adapter.ConfirmSubmission | src/browser/copilot-browser-adapter.ts:814-973 | the confirmation loop over a changing record does what the recursive specification says |
| CopilotAdapter.Adapter.AdoptMaterializedConversation | src/browser/copilot-browser-adapter.ts:1096-1112 | adopts exactly when allowed, moving record and pinned conversation together |
| CopilotAdapter.Adapter.Receive | src/browser/copilot-browser-adapter.ts:536-782 | resolves, demands a known baseline, and waits with the record's own correlation |
| CopilotAdapter.Serve | src/browser/copilot-browser-adapter.ts:111-140 | a new adapter serving any sequence of calls ends in the specified state, with at most one dispatch per submission |
| Restart.RebuiltFromPage | src/browser/copilot-browser-adapter.ts:489-505 | a new adapter that sees the submitted message rebuilds marker, count and sequence digest of the lost record |
| Restart.RetryClicksNothing | src/browser/copilot-browser-adapter.ts:303-316 | a new adapter asked to submit a message that is already on the page recognises it, rebuilds the record and clicks nothing |
| Restart.RestartRefinesOriginal | src/browser/copilot-browser-adapter.ts:1031-1061 | the rebuilt record reads, on every page, the answer the lost record would have read, or none |
| Restart.FirstAttemptIsHeld | src/browser/copilot-browser-adapter.ts:318-420 | a submission proved at its first attempt leaves the record made on the page of that attempt, in the conversation of its receipt |
| Restart.RestartedReceiveRefines | src/browser/copilot-browser-adapter.ts:536-782 | for the same samples a whole receive by a new adapter ends as that of the adapter still holding the record, with the same content, or gives up |
| Restart.RestartAfterSubmitRefines | src/browser/copilot-browser-adapter.ts:230-782 | the same against the adapter that has just submitted the message and proved it |
| Restart.RestartLosesNothingUntruncated | src/browser/copilot-browser-adapter.ts:1333-1379 | if no sampled page has dropped an earlier response, the two receives end alike |
| Restart.UnusableMarkerNeverAnswers | src/browser/copilot-browser-adapter.ts:571-577 | evidence without a usable baseline proves the submission, and no later receive ever waits for an answer to it |
| Restart.UnusableMarkerOnSubmitNeverAnswers | src/browser/copilot-browser-adapter.ts:303-316 | the same when a submit recognises such evidence: it is answered as submitted without a click, and no later receive waits for it |
| Restart.LegacyMarkerNeverAnswers | src/browser/copilot-browser-adapter.ts:1629-1658 | so it is for every page that shows one message of an earlier version, whichever of the historical markers it carries |
| Restart.LegacyMarkerOnSubmitNeverAnswers | src/browser/copilot-browser-adapter.ts:303-316 | and for a submit that meets such a page |
| PageTransaction.SelectedChatIsAlone | src/browser/context-semantic-page.ts:749-764 | a selected chat tab has no rival: no open tab is authenticating, handing off, or another chat |
| PageTransaction.EveryClickIsLicensed | src/browser/context-semantic-page.ts:458-747 | every dispatched click follows one fill, a later observation and a reading of the filled text, and at each of them and at the last guard the page is open and selected with the URL and epoch of the fill and no dialog ever |
| PageTransaction.OneClickPerFill | src/browser/context-semantic-page.ts:503-527 | the fill of a later click comes after the earlier click |
| PageTransaction.RefusedClickDispatchedExactlyWhen | src/browser/playwright-semantic-page.ts:345-692 | a click reported as not attempted is issued all the same exactly when the timer fires after the last deadline check and before the click guard is installed, and the installation beats the teardown; the page is then revoked, and the click has one millisecond left after the deadline, or what remains of it after an earlier abort |
| PageTransaction.RefusedClickCanBeSent | src/browser/playwright-semantic-page.ts:475-595 | a concrete transaction and timing in which such a click is issued, with its one millisecond |
| PageTransaction.StripSentinels | src/browser/context-semantic-page.ts:674-687 | drops all trailing zero-width sentinels and nothing else |
| PageOutcomes.SelectionExactly | src/browser/context-semantic-page.ts:749-764 | which tab owns the surface, in every context: by authentication, handoff, the only chat, the preferred or the last open tab, or which refusal |
| PageOutcomes.FillExactly | src/browser/context-semantic-page.ts:458-501 | when a fill writes, when it succeeds and what it pins, and the code of every refusal |
| PageOutcomes.ObservationExactly | src/browser/context-semantic-page.ts:341-423 | when an observation carries a filled transaction on, and that every other one ends it |
| PageOutcomes.FreshObservationExactly | src/browser/context-semantic-page.ts:341-423 | what an observation records when there is no transaction |
| PageOutcomes.DialogStopsFills | src/browser/context-semantic-page.ts:341-350 | after a dialog was ever raised no observed page can be filled |
| PageOutcomes.ClickExactly | src/browser/context-semantic-page.ts:503-747 | a click is issued exactly if all guards pass in time, and succeeds exactly if it is also back in time, proved and on an unchanged page |
| PageOutcomes.UnarmedClickAnswers | src/browser/context-semantic-page.ts:503-747 | the code of the guard that fails first |
| PageOutcomes.ArmedClickAnswers | src/browser/playwright-semantic-page.ts:484-595 | what an armed click answers that does not succeed |
| ContextPage.ContextSemanticPage.CurrentUrl | src/browser/context-semantic-page.ts:341-423 | the fields after opening an observation are those of the specification |
| ContextPage.ContextSemanticPage.Fill | src/browser/context-semantic-page.ts:462-501 | the same for a fill |
| ContextPage.ContextSemanticPage.Click | src/browser/context-semantic-page.ts:503-527 | the same for a click, whose pin is dropped however it ends |
| ContextPage.Serve | src/browser/context-semantic-page.ts:103-170 | a new page object serving any sequence of calls ends in the specified state, and every click it dispatched is licensed |
| SubmissionOverPage.SubmitAccounted | src/browser/copilot-browser-adapter.ts:384-420 | one submit clicks at most once, and a click that was not refused counts as dispatched |
| SubmissionOverPage.AtMostOneMessage | src/browser/copilot-browser-adapter.ts:384-420 | adapter and page together: in every run at most one message per submission leaves through a page, even when a refused click was issued, and the clicks counted are all that were |
| SubmissionOverPage.NothingLeavesRevokedPage | src/browser/context-semantic-page.ts:1037-1075 | once a page is revoked, no sequence of adapter and page calls changes it or sends anything through it |
| SubmissionOverPage.MisreportedClickIsTheLast | src/browser/context-semantic-page.ts:1037-1055 | after a click that was issued but reported as not attempted, no retry and no other submission gets a message out through that page |
| ManualReadiness.WaitForStableManualReadiness | src/browser/manual-readiness.ts:20-180 | the endless loop, cut off anywhere, is where the specification says |
| ManualReadiness.CountersCountRuns | src/browser/manual-readiness.ts:36-143 | every counter is the length of an uninterrupted run; no evidence survives a page change |
| ManualReadiness.AnswersExactlyWhen | src/browser/manual-readiness.ts:97-179 | an observation is answered exactly when it is ready, gives up on its runs, or is out of time |
| ManualReadiness.OtherTurnsExactly | src/browser/manual-readiness.ts:62-143 | how every other turn ends the loop or goes on: aborted, late, failed, or on a page that changed |
| ManualReadiness.EarlyUnreadyAnswerIsStable | src/browser/manual-readiness.ts:101-170 | before the deadline an unready answer needs a terminal run of `stableSamples`, reaching back to the last page change or non-terminal sample, that spans the hydration time, or an unchanged unsafe key over the short window |
| ManualReadiness.OperatorStatesGetTheFullWindow | src/browser/manual-readiness.ts:193-207 | sign-in, MFA, consent and blocking dialogs are never answered before the deadline |
| ManualReadiness.TerminalRunIsMaximal | src/browser/manual-readiness.ts:48-60 | such a run reaches back to the last page change or non-terminal sample |
| ManualReadiness.ObservationsAreBounded | src/browser/manual-readiness.ts:62-96 | with a sleep that lasts as asked, observation number k happens only if k polls are less than the wait |
| LineOrder.AcceptedExactlyWhenContiguous | src/browser/playwright-semantic-page.ts:1011-1034 | the index check accepts exactly permutations of 0..n-1 or 1..n |
| LineOrder.ReconstructionIgnoresDomOrder | src/browser/playwright-semantic-page.ts:1011-1034 | every order of the same DOM lines yields the same joined code |
| ResponseCapture.ReconstructedExactlyWhenOwned | src/browser/playwright-semantic-page.ts:1495-1730 | text is reconstructed exactly for a capture that owns one valid widget; every other outcome leaves the rendered text |
| ResponseCapture.CorrelationTextIgnoresOutcome | src/browser/playwright-semantic-page.ts:1781-1787 | correlation text does not depend on the outcome of the capture |
| ResponseCapture.SanitizedCaptureEvidence | src/orchestrator/response-capture-evidence.ts:1-95 | building the evidence field by field equals the filter it is specified by |
| ResponseCapture.SanitizeIsAFilter | src/orchestrator/response-capture-evidence.ts:1-95 | sanitizing is idempotent, adds nothing, and keeps only fields of the expected shape |
| ResponseCapture.AcceptedOnlyWithReconstructedEvidence | src/orchestrator/cba-protocol-adapter.ts:478-515 | with any evidence present, a turn is accepted only if the evidence is complete and claims a reconstructed widget |
| ResponseCapture.GateFollowsStatus | src/orchestrator/cba-protocol-adapter.ts:478-515 | the gate opens for typed evidence exactly when its widget was reconstructed |
| ResponseCapture.OnlyOwnedTextIsExecuted | src/orchestrator/cba-protocol-adapter.ts:100-194 | a captured response is accepted exactly when it owns one supported widget and the parser accepts that widget's own fence |
| Execution.ReceivedAnswerIsExecutedExactlyWhenOwned | src/orchestrator/cba-protocol-adapter.ts:100-194 | a completed receive, with its submission proved and its answer stable, is executed exactly when the last response on the final page owns one supported widget whose fence the parser accepts |
| Execution.ExecutedWidgetIsTheNewResponse | src/browser/copilot-browser-adapter.ts:1333-1450 | with at most one new response the executed widget is that response's |
| AuditLog.VerifyAuditText | src/audit/audit-log.ts:106-154 | accepts exactly the encodings of chains of this session, and reads the chain back |
| AuditLog.WrittenLogVerifies | src/audit/audit-log.ts:45-92 | every log that appends, keyed appends and restarts produce verifies |
| AuditLog.KeysAreUnique | src/audit/audit-log.ts:82-92 | if keys are written only by `appendOnce`, no two events share a key, restarts or not |
| AuditLog.FinalHashDeterminesLog | src/audit/audit-log.ts:120-153 | two accepted logs of one session with the same final hash are the same log |
| AuditLog.Log.Initialize | src/audit/audit-log.ts:24-43 | a restarted object tracks sequence, last hash and keys of the log on disk |
| AuditLog.Log.Append | src/audit/audit-log.ts:45-80 | the file grows by exactly the next linked event, and memory follows |
| AuditLog.Log.AppendOnce | src/audit/audit-log.ts:82-92 | nothing is written for a known key, one keyed event otherwise |
| AuditLog.Serve | src/audit/audit-log.ts:12-92 | any sequence of operations with restarts leaves exactly the specified log on disk |
| Rollback.AtMostOneEventEach | src/cli/commands.ts:808-872 | in no history of rollbacks, crashes and other moves does a checkpoint get two events of either kind |
| Rollback.RunFinishesExactlyWhen | src/cli/commands.ts:808-872 | an uninterrupted run finishes exactly when the audited intent agrees with the status, and leaves exactly one event of each kind |
| Rollback.FullRunExactly | src/cli/commands.ts:808-872 | status, restored files and the very events an uninterrupted run leaves, and which runs are refused |
| Rollback.CrashedRunIsPrefix | src/cli/commands.ts:808-872 | a run cut short has written a prefix of those events |
| Rollback.CrashAndRetryFinishesOnce | src/cli/commands.ts:808-872 | after any history and any number of attempts crashing anywhere, one uninterrupted attempt ends rolled back with exactly one event of each kind |
| Rollback.RefusedForEverExactlyWhen | src/cli/commands.ts:832-848 | among all commands, rollbacks of any restorable checkpoint included, some sequence lets a refused retry through exactly when accepted moves lead back to its audited status, or another restorable checkpoint was never audited or its own audited status can come back |
| Rollback.ClosedForEver | src/cli/commands.ts:808-848 | once neither this checkpoint nor any restorable one can finish, no sequence of commands changes that |
| Rollback.RetryRefusedWhileRecovering | src/cli/commands.ts:832-840 | a paused session whose rollback crashed: recovering it refuses the retry until it is paused again |
| Rollback.RetryRefusedAfterAbort | src/cli/commands.ts:832-848 | aborting it refuses the retry for ever if no other checkpoint can be restored, and rolling back to another one lets it through |
| Rollback.Session.RollbackSession | src/cli/commands.ts:757-883 | the durable state after a run with any crash point is that of the specification |
| Completion.VerifyCompletion | src/orchestrator/completion.ts:94-415 | a claim is accepted exactly when all declared conditions over the recorded evidence hold, and then without reasons |
| Completion.TerminalReasons | src/orchestrator/completion.ts:103-131 | no reason exactly when terminal effects are clean and the latest is fingerprinted; finds the latest observed one |
| Completion.ControlReasons | src/orchestrator/completion.ts:129-176 | no reason exactly when hidden state, branch and head are those of the latest observed effect, or of the start |
| Completion.ScopeReasons | src/orchestrator/completion.ts:177-193 | no reason exactly when every out-of-scope change was there before and is unchanged |
| Completion.AnswerReasons | src/orchestrator/completion.ts:210-236 | no reason exactly when an answer mutated nothing and rests on completed results or user context |
| Completion.NewestValidationByCommand | src/orchestrator/completion.ts:474-480 | maps exactly the executed commands to their latest records |
| Completion.ValidationReasons | src/orchestrator/completion.ts:254-305 | no reason exactly when reports are duplicate-free, name the executed commands with their latest outcomes, and required commands have a current success |
| Completion.CriteriaReasons | src/orchestrator/completion.ts:308-321 | no reason exactly when no criterion is reported twice and each of the session's is reported satisfied |
| Completion.MutationInvalidatesCompletion | src/orchestrator/completion.ts:238-252 | a mutation after the validations that leaves another repository state makes every claim unacceptable |
| Completion.FirstOfEachKeySelects | src/orchestrator/completion.ts:461-472 | unique paths select one path for every key that occurs and no two for one key |
| Completion.UniquePaths | src/orchestrator/completion.ts:461-472 | the loop over a set of seen keys computes that selection |
| DisclosureBudget.MaximumSourceBytes | src/orchestrator/runtime-policy.ts:932-953 | the binary search returns the closed form, or throws only if the range leaves the safe integers |
| DisclosureBudget.LargestIsLargest | src/orchestrator/disclosure-budget.ts:35-66 | the closed form is the largest size in range whose planned disclosure fits, or zero when no positive one does |
| DisclosureBudget.TerminalOutputBound | src/orchestrator/runtime-policy.ts:876-930 | computes the bound from the five ceilings |
| DisclosureBudget.BoundKeepsCeilingsExactlyWhen | src/orchestrator/runtime-policy.ts:876-930 | the bound keeps each ceiling it is derived from, the planned per-operation one included, exactly when every ceiling admits one byte |
| DisclosureBudget.BoundIsAllowedExactlyWhen | src/policy/engine.ts:508-516 | the engine, with the control reserve and the raw per-operation count, lets the bound through exactly when it lets one byte through |
| DisclosureBudget.CeilingsAreAllowed | src/orchestrator/runtime-policy.ts:599-653 | what keeps the ceilings is within every budget the engine enforces |
| DisclosureBudget.BoundIsLargestAllowedExactlyWhen | src/policy/engine.ts:508-516 | a larger output would be let through exactly when the engine's own ceiling in closed form exceeds the bound |
| DisclosureBudget.FloorCanOvershoot | src/orchestrator/runtime-policy.ts:919-928 | a spent output budget for which the one-byte floor is refused |
| DisclosureBudget.FloorCanBeAllowed | src/orchestrator/runtime-policy.ts:912-928 | a per-operation cap for which the ceiling is zero and the one-byte floor, and more, is let through |
| DisclosureBudget.BoundIsMaximal | src/orchestrator/runtime-policy.ts:919-928 | no larger output keeps all the ceilings, the planned per-operation one included |
| DisclosureBudget.DiffBoundIsLargest | src/orchestrator/runtime-policy.ts:1058-1080 | with or without a policy ceiling the session-diff size is the largest that obeys it together with the path sample, disabled exactly when none does, and stable under reapplication |

## Left out

- ConfigLock and SetupTransaction are step systems over shared state, because their subject is interleaving; the `#released` flag is a program counter there.
- Liveness of lock recovery under contention: a crash or a late claimer can leave the directory for manual inspection, so only an undisturbed acquire is claimed to succeed.
- `ExclusiveProfileLock`: it removes a path it has not pinned, so its exclusion is not claimed.
- The policy file that `commitBrowserSetup` writes before the browser file, and how identity hashes are computed.
- Two or more new responses: correlation is sound for at most one (`ResponseCorrelation.NewResponsesMisreadExactlyWhen`).
- Dispatch across process restarts by `submit` alone: a new adapter has no records; only what markers recover is claimed.
- CopilotAdapter: calls are serialised, so the error for concurrent operations is not modelled; records are values in a map, not shared mutable objects.
- BrowserAdapter takes the click contract as given (a refusal dispatched nothing); SubmissionOverPage does without it. Left out are `inspectState` and `emergencyStop`; the kill switch, abort signals and closing are one `usable` answer per check.
- PageTransaction: setup-only readiness overrides, `snapshot` and `completeObservation` (they only read), and page discovery in `focusActivePage`, which may answer with any page.
- ManualReadiness and ResponseWait follow the loop for as many turns as are given; that a clock reaches the deadline is not claimed.
- ResponseCapture: the protocol parser, legacy rebinding and DOM capture are functions of the host.
- AuditLog: a crash in the middle of a record, after which the file no longer verifies; only clean restarts are modelled.
- SessionLifecycle and SetupTransaction: the lifecycle value in memory that is restored when a durable state write fails; such a restored value is outside the move table.
- PageTransaction: a composer snapshot that times out inside a click is a refusal, and the revocation a separate expiry step after it; whether an issued click arrives within its allowance is the browser's affair.
- SessionRecovery: status and manifest of one session are read in one step.
- PageTransaction: the deadline race is modelled at the end of a click, where it matters; earlier it only refuses.
- Rollback: the copying inside the checkpoint store; its `restored` marker makes that step repeatable.
- Completion: the wording of reasons and the `actual` report, except for unique paths.
- DisclosureBudget: timeouts, other tools' accounting, and the byte count of a command line.
- `PolicyEngine`, `AgentRuntime`, stores, browser discovery, prompts and all output text.
