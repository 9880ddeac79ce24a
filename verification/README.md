# Dark factory: a verified model

The dark factory takes a change from an operator's brief to a release. Stages produce results, a table-driven flow
decides what happens next, a driver persists each decision, operators approve phases in a web console, and events leave
through an outbox. This project models the parts of it that are state machines or text transformations and proves what
holds over every run of them.

- `Base.dfy`, `Text.dfy`: options and results; splitting, joining and trimming.
- `Approvals.dfy`, `SubmitApproval.dfy`: the approval endpoint with the other writers of decisions, and any number of
  console clients that submit with one retry over a lossy network.
- `Polling.dfy`: the data-fetching hook with effect cycles, timers, requests in flight and tab visibility.
- `Lifecycle.dfy`, `Keys.dfy`: status tables of runs and stages, withdrawal, and the keys of operations, attempts and
  effects.
- `ReadModels.dfy`: the latest-wins read models against the completion invariant.
- `Flow.dfy`, `Driver.dfy`, `DriverRuns.dfy`: the transition core between stages, the driver that advances a run over it
  with its stage rows keyed by input revision, and what holds in every state it reaches.
- `DriverFiles.dfy`: what an advance or a withdrawal puts on file, row by row.
- `Policies.dfy`: the gate, risk and merge policies, and what they guarantee over whole runs.
- `Leases.dfy`, `Effects.dfy`: fencing tokens with the optimistic revision, and the effect ledger under crashes.
- `Outbox.dfy`, `OutboxRetries.dfy`, `OutboxBatch.dfy`, `OutboxJam.dfy`, `OutboxSequences.dfy`, `OutboxStore.dfy`:
  transactional outbox, dispatcher passes with their leases, retries and ordered, limited batches, operator
  interventions, retention and the numbering of events.
- `Conversations.dfy`: questions, comments and rework orders.
- `Frontmatter.dfy`, `ArtifactPath.dfy`, `Brief.dfy`: text forms of documents, paths and briefs.

Objects the source updates in place are classes; each method's contract gives its answer and the whole new state as a
function of the old one, and the theorems are about those functions over all sequences of steps. Automatic induction is
switched off for every lemma, so each induction is written out.

Assumptions: a request is one transaction, committed as a whole or not at all; a submitting client's idempotency key is
used by no one else; the status a client sees is the server's own, so a gateway's 502 or 504 after a commit counts as a
network failure; event ids are published once; rows locked by one transaction are not written by another; clocks,
lookups, gate states, resolved revisions and observed facts are inputs that may differ at every step.

## Where code and documentation differ

The model follows the code. Each point below is a theorem of the project; the last three are not contradictions but
gaps a reader may not expect.

- The console's derived revision (`console/src/lib/meta.ts:68-76`) counts every decision, but rework orders and
  command-line decisions do not move the revision: it is exact only while the approval endpoint is the only writer
  (`SubmitApproval.DerivedRevisionExact`), and the gap never closes (`SubmitApproval.DriftIsPermanent`). A rework order
  of the API is audited as a recorded approval even when it stores no decision, and one of the command line is not even
  when it does (`SubmitApproval.AuditsExactly`); `SubmitApproval.ReworkOfFreshChange` is a run with both defects.
- The phase of the `review` gate is approved on `verification`, so the two gate tables are not inverse
  (`Approvals.PhaseTablesInverse`).
- Polling responses can overlap and overtake each other after a return to a visible tab, against the header comment of
  `console/src/api/hooks.ts:7-20` (`Polling.OverlapBoundIsReached`, `Polling.OvertakenAfterReturn`). A lost initial load
  (the run `Polling.LostInitialLoad`) does not keep polling off until the next reload, as the comment at line 117 has it:
  a return to visible starts it again (`Polling.ReturnRevivesTheChain`), and besides a restart and an unmount nothing
  else does (`Polling.OffExactly`).
- A lease token restarts at one after a release, so an older holder can pass the fence again
  (`Leases.OldTokenPassesAgain`, the run `Leases.ReleasedTokenRun`); `Leases.FenceExactly` says which
  holders can, and `Leases.NoLostUpdate` what the revision still guarantees.
- A rework round inside a stage leaves the failed row open, so after the fresh one succeeds the driver re-enters the
  stage instead of the one the decision named (`DriverRuns.NamedStageIsNext`, the run `DriverRuns.ReworkRun`). A round
  that pins a revision its stage already has falls onto the existing row: a phase round then loses the run
  (`DriverRuns.LosesItsStageExactly`, `DriverRuns.PhaseRoundLosesTheRun`), and a review rework names a stage that has
  nothing to execute (`DriverRuns.ReviewReworkRun`).
- A merge left to a human is filed as a succeeded result on a waiting stage run. The driver then only replays it; the
  authorization that should resume the flow has no effect (`DriverRuns.StuckExactly`, `DriverRuns.DeferredMergeSticks`,
  the run `DriverRuns.ManualMergeRun`).
- Operation keys identify operations only while execution ids have no colon; `Keys.OperationKeysEqualExactly` gives all
  pairs that share one.
- Deliveries behind a dead one keep their places in the batch: as many of them as the limit starve every later stream
  (`OutboxBatches.StarvesUntilOperator`, reached by `OutboxJams.JamIsReached`).
- `apply_result` refuses a wrong next stage only after it has changed the run in memory (`Flow.RefusalLeavesRunAlone`,
  the fresh run `Flow.WrongSuccessorMovesFreshRun`).
- The stage id column is narrower than the keys its parts allow (`Keys.StageIdFits`).
- The "next monotonic sequence" of a stream is monotonic exactly while each cleanup leaves the event with the largest
  number (`OutboxSequences.CleanupKeepsHighest`, `OutboxSequences.NextNumberIsLargestExactly`); after one that does not,
  the next number does not exceed all before it and may repeat one (the run `OutboxSequences.NumberIsRepeated`).
- A retry leaves a stage run retryable, so retries need no attempt between them (`Lifecycle.RetriesNeedNoMove`).
- A question can become answered without an answer, by a bare status move that no caller in the repository makes
  (`Conversations.QuestionCallKeepsExactly`).
- The completion invariant reads every attempt ever filed, so a finding that a later attempt resolves still bars success,
  on a clean screen (`DriverRuns.ViolationBarsSuccess`, `ReadModels.CleanScreenMayStillViolate`).

## Model

| member | source | states |
|---|---|---|
| `Approvals.PhaseTablesInverse` | src/dark_factory/orchestration/phase_gate.py:82-158 | going from a gate to its phase and back is the identity exactly for the gates other than `review`; a phase is the phase of its gate unless it is `architecture` |
| `Approvals.ApprovalsAmongDecisions` | console/src/lib/meta.ts:74-76 | the decisions that moved the revision are all decisions of the change exactly if none came from another writer |
| `Approvals.RecordedExactly` | src/dark_factory/api/routes_changes.py:102-151 | a request is recorded exactly if an operator sends a body in order for a known change under an unused key at the expected revision, the stated phase is approved on the gate, and the gate lets the outcome through; the decision then says the request word for word, and one revision and one audit row follow |
| `Approvals.AnsweredExactly` | src/dark_factory/api/routes_changes.py:305-349 | when a stored decision, the first under the key, is returned instead; when a request is refused with 403, 404, 409 or 422; a refusal writes nothing |
| `Approvals.OrderRecordsExactly` | src/dark_factory/orchestration/state/conversation_ops.py:216-237 | a rework order stores a rejection, with its phase, head, note and key, exactly if it is new, the change is known, the phase has a gate and the key is unused |
| `Approvals.CliRecordsExactly` | src/dark_factory/orchestration/state/conversation_ops.py:260-296 | a command-line decision is stored exactly if the change is known, the phase has a gate and the gate lets it through; the revision is the one given or else the current one |
| `Approvals.Service.FindByKey` | src/dark_factory/orchestration/state/change_store.py:293-297 | the loop finds the first decision under a key, or none exists |
| `Approvals.Service.RecordApproval` | src/dark_factory/api/routes_changes.py:305-349 | answer and new state for every request: role, body validation, unknown change, replay by key, optimistic revision, gate preconditions, decision with revision bump and audit row; a refusal writes nothing |
| `Approvals.Service.CountDecisions` | src/dark_factory/api/routes_changes.py:268-285 | the count on the card of a known change |
| `SubmitApproval.Console.Submit` | console/src/pages/GatesPage.tsx:43-78 | the submission as a sequence of calls: store and answer are those of the client machine when nothing interrupts it |
| `SubmitApproval.ExactlyOnce` | console/src/pages/GatesPage.tsx:43-78 | for every interleaving of any number of submitters with lost requests and responses, other posters, rework orders and command-line decisions: a submission that returned stored exactly one decision, with the gate, outcome, revision, comment and key of the form; one that got an HTTP error stored none; after a network failure there is at most one, and it is that one |
| `SubmitApproval.SubmissionReturnsExactly` | console/src/pages/GatesPage.tsx:43-78 | an undisturbed submission returns exactly if the first request fits, or it conflicts, the card counts only approvals, and the gate lets the resend through; otherwise nothing is stored |
| `SubmitApproval.SendPosts` | console/src/pages/GatesPage.tsx:46-57 | a request states the form and the expected revision; it takes effect whether or not the answer gets back |
| `SubmitApproval.DerivedRevisionExact` | console/src/lib/meta.ts:74-76 | in every run, `1 + decisions_count` is the revision of a change exactly while the approval endpoint wrote all its decisions |
| `SubmitApproval.DriftIsPermanent` | console/src/lib/meta.ts:68-76 | once derived and real revision differ, the gap never shrinks |
| `SubmitApproval.RetryPassesRevisionCheck` | console/src/pages/GatesPage.tsx:73-77 | the resend after a conflict passes the revision check exactly if the approvals recorded since the card was read equal the decisions on it that had not moved the revision; then only the gate can refuse it |
| `SubmitApproval.AuditsExactly` | src/dark_factory/cli/changes.py:779-792 | in every run, `created` approval audits plus command-line rework orders that stored a decision equal decisions plus API rework orders that stored none; so the two logs agree exactly if those counts do |
| `SubmitApproval.ReworkOfFreshChange` | src/dark_factory/orchestration/state/conversation_ops.py:216-237 | a fresh change and one rework order: the card derives revision 2 while the change is at 1, and from the command line the one decision has no approval audit |
| `SubmitApproval.EveryDecisionJustified` | src/dark_factory/api/routes_changes.py:102-151 | every stored decision was written by one step whose preconditions held at that moment, and says what that step was asked to record: approved saw an available gate and its current revision, rejected names a revision unless a rework order wrote it, waived gives a reason, phase and gate agree |
| `SubmitApproval.ResendIsInert` | src/dark_factory/api/routes_changes.py:317-324 | presenting a stored key again returns the stored decision whatever the body or change says, and adds one audit row only |
| `Polling.NeverDies` | console/src/api/hooks.ts:76-137 | in every reachable state a live, visible, polling cycle that ever succeeded has a timer pending or a background request in flight |
| `Polling.OverlapBound` | console/src/api/hooks.ts:76-137 | requests in flight plus the pending timer never exceed one plus the returns to visible the cycle saw |
| `Polling.OverlapBoundIsReached` | console/src/api/hooks.ts:125-137 | for every number of returns there is a run that reaches the bound |
| `Polling.DataIsNewest` | console/src/api/hooks.ts:89-101 | without a return to visible in its cycle, the data on screen was issued after everything shown before it |
| `Polling.OvertakenAfterReturn` | console/src/api/hooks.ts:125-137 | after one return, any request still in flight can land behind the newer refresh and replace its data |
| `Polling.HiddenTabIsQuiet` | console/src/api/hooks.ts:76-87 | in a hidden tab no timer is pending and only the first fetch of a new cycle is issued |
| `Polling.OffExactly` | console/src/api/hooks.ts:116-137 | once the initial load is lost the chain is off, and one event leaves it off exactly if it is no restart, no unmount and no return to visible |
| `Polling.OffUntilWoken` | console/src/api/hooks.ts:116-137 | over any number of such events it stays off: nothing is fetched and nothing is shown |
| `Polling.LostInitialLoad` | console/src/api/hooks.ts:116-120 | the run of two events into that state |
| `Polling.ReturnRevivesTheChain` | console/src/api/hooks.ts:116-137 | from there a return to visible fetches, and a success shows data and arms the timer again |
| `Polling.OneTimerOverall` | console/src/api/hooks.ts:61-88 | over all cycles at most one timer is pending, of the cycle that was not cleaned up |
| `Polling.NoErrorOverData` | console/src/api/hooks.ts:89-121 | once the live cycle succeeded, error is null, data is present and the loader is gone |
| `Polling.OnlySuccessUpdates` | console/src/api/hooks.ts:92-101 | data and `updatedAt` change together, only by a success of the live cycle, to its result and time |
| `Polling.FailureKeepsTheScreen` | console/src/api/hooks.ts:103-120 | a failure never touches the data, shows an error exactly if the live cycle has nothing to show, and moves no timer unless it was a background refresh |
| `Polling.ScreenNeverFallsBack` | console/src/api/hooks.ts:47-50 | from any state of a run to any later one: loading never returns, no update is lost, data never returns to null |
| `Polling.CleanedUpCycleIsSilent` | console/src/api/hooks.ts:143-148 | a cleaned-up cycle never writes, arms a timer or changes again, whatever follows |
| `Polling.CyclesAsAsked` | console/src/api/hooks.ts:61-79 | each restart begins one cycle, which polls exactly if that restart asked for it |
| `Polling.QuietUnlessAsked` | console/src/api/hooks.ts:76-79 | a cycle that was not asked to poll never has a timer and never issues a background request, whatever happens to the tab |
| `Polling.ReturnsCounted` | console/src/api/hooks.ts:125-141 | the returns that bound the overlap are the changes from hidden to visible since the last restart |
| `Polling.LoaderExactly` | console/src/api/hooks.ts:48-49 | in every run, loading is shown exactly until the first result or error |
| `Polling.ErrorMovesExactly` | console/src/api/hooks.ts:92-120 | an error is cleared exactly by a success of the live cycle and set exactly by its failure without data |
| `Polling.Poller.Arm` | console/src/api/hooks.ts:76-87 | arming as a function of the old state |
| `Polling.Poller.StartCycle` | console/src/api/hooks.ts:61-123 | clean-up of the previous cycle, fresh variables, first fetch |
| `Polling.Poller.TimerElapsed` | console/src/api/hooks.ts:81-86 | the timer callback |
| `Polling.Poller.Resolved` | console/src/api/hooks.ts:92-101 | the success handler |
| `Polling.Poller.Rejected` | console/src/api/hooks.ts:103-120 | the failure handler |
| `Polling.Poller.OnVisibilityChange` | console/src/api/hooks.ts:125-137 | the visibility listener of the live cycle |
| `Polling.Poller.Stop` | console/src/api/hooks.ts:142-148 | the clean-up function |
| `Lifecycle.StageHistory` | src/dark_factory/changes/run.py:190-221 | over every call sequence on a fresh stage run: revision is one plus the accepted moves, attempt number one plus the accepted retries, finished time set exactly in a terminal status |
| `Lifecycle.TerminalStageAbsorbs` | src/dark_factory/changes/run.py:77-131 | no call changes a terminal stage run |
| `Lifecycle.StageSucceedsFromProgress` | src/dark_factory/changes/run.py:86-95 | a succeeded stage run was in progress when a call made it succeed, and its finished time is that call's |
| `Lifecycle.AttemptsOnlyGrow` | src/dark_factory/changes/run.py:201-221 | attempt numbers never fall, and an accepted retry raises them |
| `Lifecycle.RetriesNeedNoMove` | src/dark_factory/changes/run.py:201-221 | a retry leaves the status alone, so any number of retries in a row is accepted from a retryable status |
| `Lifecycle.RunHistory` | src/dark_factory/changes/run.py:249-259 | over every call sequence on a fresh run: revision is one plus the accepted moves, finished time set exactly in a terminal status and equal to the last update |
| `Lifecycle.RunSucceedsFromRunning` | src/dark_factory/changes/run.py:49-58 | a succeeded run was running when a call made it succeed, and its finished time is that call's |
| `Lifecycle.TerminalRunAbsorbs` | src/dark_factory/changes/run.py:47-75 | no call changes a terminal run |
| `Lifecycle.RunMovesExactly` | src/dark_factory/changes/run.py:47-75 | a call moves a run exactly along the table, given target by target; a move counts, is timed, and finishes the run exactly if its target is terminal |
| `Lifecycle.StageMovesExactly` | src/dark_factory/changes/run.py:77-131 | the same for stage runs, with the retry: one attempt more, only after a failure or a block |
| `Lifecycle.StagePathIsComplete` | src/dark_factory/orchestration/state/run_store.py:160-179 | for every walk the table allows, of any length, the store finds one to the same status that the table allows too and that is no longer |
| `Lifecycle.RunPathIsComplete` | src/dark_factory/orchestration/state/repositories.py:68-90 | the same for runs |
| `Lifecycle.WithdrawalEndsTheRun` | src/dark_factory/orchestration/state/run_store.py:695-751 | a run is withdrawn exactly if it is not terminal and its lease is free; then run and stages are terminal, each open stage by one legal move, finished stages untouched, and a repeat only audits; otherwise nothing moves |
| `Lifecycle.StageRun.Apply` | src/dark_factory/changes/run.py:190-199 | accepted exactly by the table; the new state, or no change |
| `Lifecycle.StageRun.Retry` | src/dark_factory/changes/run.py:201-221 | accepted exactly from failed or blocked with the next number |
| `Lifecycle.StageRun.Advance` | src/dark_factory/orchestration/state/run_store.py:465-484 | the row moves along the table walk to the target, or not at all |
| `Lifecycle.ChangeRun.Apply` | src/dark_factory/changes/run.py:249-259 | accepted exactly by the table; the new state, or no change |
| `Lifecycle.ChangeRun.Withdraw` | src/dark_factory/orchestration/state/run_store.py:695-731 | outcome and new state of a withdrawal, stage by stage |
| `Keys.AttemptIdInjective` | src/dark_factory/changes/keys.py:16-18 | an attempt id determines key and number, for all keys |
| `Keys.OperationKeyInjective` | src/dark_factory/changes/keys.py:11-13 | with colon-free execution ids an operation key determines its three parts |
| `Keys.OperationKeysEqualExactly` | src/dark_factory/changes/keys.py:11-13 | for all inputs, two operations share a key exactly if they are equal or the longer execution id is the other one with its stage (and possibly more) appended, and the revision of the shorter starts with what that took over |
| `Keys.OperationKeysCollide` | src/dark_factory/changes/keys.py:11-13 | such a pair for every execution id, revision and two stages |
| `Keys.EffectKeyInjective` | src/dark_factory/changes/keys.py:21-23 | with colon-free ids, revisions and effect types an effect key determines all five parts, for any target |
| `Keys.NoKeyInTwoFamilies` | src/dark_factory/changes/keys.py:11-23 | with colon-free ids, revisions and effect types no operation key, attempt id or effect key is a key of another family, whatever parts each is built from |
| `Keys.ColonsOfFamilies` | src/dark_factory/changes/keys.py:11-23 | operation, attempt and effect keys have exactly two, exactly three and at least four colons |
| `Keys.KeysFit` | migrations/versions/0001_state_schema.py:244-245 | keys built from parts that fit their columns fit the key and attempt columns |
| `Keys.StageIdFits` | migrations/versions/0001_state_schema.py:177-182 | the operation key fits the narrower stage id column exactly if its parts have at most 254 characters together |
| `Keys.AttemptIdsDistinct` | src/dark_factory/changes/keys.py:16-18 | all accepted retries of a stage run have pairwise different attempt ids |
| `Keys.DigitsReadBack` | src/dark_factory/changes/keys.py:16-18 | the attempt number in an id reads back as that number, without leading zeros |
| `Keys.OperationReadBack` | src/dark_factory/changes/keys.py:11-13 | cutting an operation key at its first two colons gives execution, stage and revision back |
| `Keys.AttemptReadBack` | src/dark_factory/changes/keys.py:16-18 | cutting an attempt id at its last colon gives key and number back |
| `Keys.EffectReadBack` | src/dark_factory/changes/keys.py:21-23 | cutting an effect key at its colons gives all five parts back, for any target |
| `OrderedDict.FilledHoldsLatest` | src/dark_factory/api/aggregates.py:47-62 | a dictionary filled in order holds each key once, with its last value |
| `OrderedDict.FilledInFirstOrder` | src/dark_factory/api/aggregates.py:47-62 | its keys stand in the order of their first occurrences |
| `OrderedDict.FilledConcat` | src/dark_factory/api/aggregates.py:47-62 | filling with `xs + ys` is filling with `xs` overridden by the fill of `ys` |
| `OrderedDict.SelectKeeps` | src/dark_factory/api/aggregates.py:38-44 | reading a dictionary in a fixed order gives, in step with the keys of the order that are present and for no others, the last value of each |
| `OrderedDict.SelectLatest` | src/dark_factory/api/aggregates.py:38-44 | reading the filled dictionary in a fixed order gives the last occurrences in that order |
| `ReadModels.FindingsById` | src/dark_factory/api/aggregates.py:47-53 | the nested loops: each id once, last value, first-occurrence order |
| `ReadModels.EvidenceById` | src/dark_factory/api/aggregates.py:56-62 | the same for evidence |
| `ReadModels.LatestGateResults` | src/dark_factory/api/aggregates.py:38-44 | exactly one entry for each gate any result reported, with its last result, strictly ascending by gate name |
| `ReadModels.GatesByNameIsSorted` | src/dark_factory/api/aggregates.py:44-44 | that order is the order of the gate names |
| `ReadModels.TraceChain` | src/dark_factory/api/aggregates.py:74-86 | exactly one entry for each stage with a result, with its last one, strictly ascending along the route |
| `ReadModels.ReadModelsConcat` | src/dark_factory/api/aggregates.py:38-86 | every read model of `xs + ys` is the one of `xs` overridden by the one of `ys` |
| `ReadModels.OpenBlockerCountIsExact` | src/dark_factory/api/aggregates.py:65-71 | the count is the number of ids whose last finding is an open blocker |
| `ReadModels.BlockersExactly` | src/dark_factory/api/aggregates.py:65-71 | an id counts as an open blocker exactly if the finding reported last under it, over all attempts, is a blocker and open |
| `ReadModels.LatestFindingIsLast` | src/dark_factory/api/aggregates.py:47-53 | the value under an id is the last finding of the last attempt that has one |
| `ReadModels.LatestEvidenceIsLast` | src/dark_factory/api/aggregates.py:56-62 | the same for evidence |
| `ReadModels.LatestReportIsLast` | src/dark_factory/api/aggregates.py:38-44 | the same for gate reports |
| `ReadModels.LatestStageIsLast` | src/dark_factory/api/aggregates.py:74-86 | the same for stages |
| `ReadModels.ViolationsExactly` | src/dark_factory/changes/run.py:318-340 | exactly the open blockers and the required items that are not available are reported, of every attempt, with its stage |
| `ReadModels.FindCompletionViolations` | src/dark_factory/changes/run.py:318-340 | the loops list, in order, every missing required evidence and every open blocker of a succeeded run |
| `ReadModels.NoViolations` | src/dark_factory/changes/run.py:318-340 | no violation exactly if no attempt ever reported missing evidence or an open blocker |
| `ReadModels.ViolationsConcat` | src/dark_factory/changes/run.py:328-340 | appending results never removes a violation |
| `ReadModels.CompletionIsCleanOnScreen` | src/dark_factory/changes/run.py:318-340 | no violation implies no open blocker and all required evidence available in the read models |
| `ReadModels.CleanScreenMayStillViolate` | src/dark_factory/api/aggregates.py:47-71 | for a clean screen a violation exists exactly if a later result superseded an offending item under its id |
| `Flow.RefusedExactly` | src/dark_factory/orchestration/flow.py:259-286 | a result is accepted exactly if run, table, status, attempt and named successor fit; an inner status move never raises |
| `Flow.AcceptedExactly` | src/dark_factory/orchestration/flow.py:99-131 | a result is accepted exactly if its run has not ended, the table of its stage has the action with that status and next stage, and the attempt is the newest open one, its retry, or the first |
| `Flow.DecisionsMean` | src/dark_factory/orchestration/flow.py:134-151 | what every decision means for stage, run and next stage, action by action, and that the rows follow it |
| `Flow.UsageExactly` | src/dark_factory/orchestration/flow.py:661-670 | tokens grow by the reported total or else by both parts, cost by the reported cost, and a missing report counts nothing |
| `Flow.EscalationStops` | src/dark_factory/orchestration/flow.py:362-370 | a declared escalation blocks every action that would go on |
| `Flow.RefusalLeavesRunAlone` | src/dark_factory/orchestration/flow.py:324-339 | a refusal leaves the run in memory alone exactly if the stage is not entered, or the run is running, the attempt already in progress and no usage reported; only a wrong next stage is refused later than that |
| `Flow.WrongSuccessorMovesFreshRun` | src/dark_factory/orchestration/flow.py:324-339 | a fresh run asked to go from specification to release: refused, yet running, its stage in progress and the usage counted |
| `Flow.EnterExactly` | src/dark_factory/orchestration/flow.py:673-726 | a result enters its stage exactly if its attempt is the active one, its retry, or the first of a fresh stage run |
| `Flow.HonouredExactly` | src/dark_factory/orchestration/flow.py:324-447 | an accepted result is carried out exactly if no gate, token, cost or time limit, declared escalation, risk, rework, merge or completion rule stops it; otherwise the run is blocked (or parked, for a deferred merge) with no stage opened and no round spent |
| `Flow.FlowRun.Apply` | src/dark_factory/orchestration/flow.py:220-286 | new run and decision of every call, also when it raises |
| `Flow.FlowRun.HandleAction` | src/dark_factory/orchestration/flow.py:289-321 | dispatch over the closed set of actions |
| `Flow.FlowRun.EnsureStageRun` | src/dark_factory/orchestration/flow.py:673-726 | find, retry or create the stage run and put it in progress |
| `Flow.FlowRun.Execute` | src/dark_factory/orchestration/flow.py:324-353 | advance or stop |
| `Flow.FlowRun.Rework` | src/dark_factory/orchestration/flow.py:356-387 | spend a round and re-enter the target, or stop |
| `Flow.FlowRun.MergeRun` | src/dark_factory/orchestration/flow.py:390-422 | stop, park for a human, or advance |
| `Flow.FlowRun.ReleaseRun` | src/dark_factory/orchestration/flow.py:425-447 | stop or complete the run |
| `DriverRuns.SucceededRunIsComplete` | src/dark_factory/orchestration/runner.py:433-605 | a run the driver brought to success has a succeeded stage run for every stage, no open one, no completion violation on file and clean read models |
| `DriverRuns.ViolationBarsSuccess` | src/dark_factory/orchestration/state/run_store.py:285-291 | one final result with an open blocker or missing required evidence stays on file and bars success for good, whatever later attempts report |
| `DriverRuns.BlockerRun` | src/dark_factory/orchestration/state/run_store.py:285-291 | the run of one step to such a result |
| `DriverRuns.NoStageIsSkipped` | src/dark_factory/orchestration/flow.py:729-742 | no stage run exists before one of its predecessor succeeded |
| `DriverRuns.BudgetIsConserved` | src/dark_factory/orchestration/flow.py:374-374 | rework rounds, tokens and cost are the sums over the persisted decisions, and rework stays within its limit |
| `DriverRuns.AlwaysAStageToExecute` | src/dark_factory/orchestration/runner.py:394-408 | a waiting or blocked run has a waiting or blocked stage run at hand; a running one has a stage as long as no decision fell onto an existing row |
| `DriverRuns.LosesItsStageExactly` | src/dark_factory/orchestration/runner.py:912-946 | a decision leaves a running run without any stage exactly if it completes the executed stage run, the row it needs exists at that revision, and nothing else is open |
| `DriverRuns.LostForGood` | src/dark_factory/orchestration/runner.py:815-820 | such a run takes no further result |
| `DriverRuns.PhaseRoundLosesTheRun` | src/dark_factory/orchestration/state/run_store.py:346-357 | with the default resolver, one revision for every stage run, every persisted phase round loses the run |
| `DriverRuns.PhaseRoundRun` | src/dark_factory/orchestration/flow.py:457-468 | the first phase round of a fresh run at the same revision: running, and no stage left |
| `DriverRuns.StuckExactly` | src/dark_factory/orchestration/runner.py:541-580 | the driver only replays, whatever it observes, exactly when the stage run in hand waits on a merge left to a human |
| `DriverRuns.StuckForGood` | src/dark_factory/orchestration/runner.py:617-661 | then no result moves the run |
| `DriverRuns.DeferredMergeSticks` | src/dark_factory/orchestration/flow.py:513-524 | every persisted deferred merge leads there |
| `DriverRuns.ManualMergeRun` | src/dark_factory/orchestration/flow.py:513-524 | a run from the start to a merge left to a human, after which the driver is stuck |
| `DriverRuns.AdvanceWritesExactly` | src/dark_factory/orchestration/runner.py:534-614 | a result for the stage and attempt in hand is written exactly if it fits the table, the driver is not stuck and it does not repeat the wait it should resolve |
| `DriverFiles.FiledExactly` | src/dark_factory/orchestration/runner.py:534-614 | in every run, a result is put on file exactly if the run has not ended, it is the attempt at hand, in the table, not canceled, and neither stuck nor a repeated wait |
| `DriverFiles.ResultsExactly` | src/dark_factory/orchestration/state/stage_results.py:60-118 | putting a result on file adds it, in the place of an earlier one of the same attempt, and changes no other |
| `DriverFiles.RowExactly` | src/dark_factory/orchestration/state/run_store.py:465-484 | the executed stage row: its status, attempt, moves and finish time |
| `DriverFiles.RecordExactly` | src/dark_factory/orchestration/state/repositories.py:178-213 | the run row: status, time, finish time, and one revision more or as many as the run in memory has |
| `DriverFiles.WithdrawnExactly` | src/dark_factory/orchestration/state/run_store.py:695-731 | a withdrawal of a run on file, row by row |
| `DriverFiles.RunsInStep` | src/dark_factory/orchestration/runner.py:433-605 | in every run, rows are finished exactly when ended, the run at its last update, and its revision at least counts its decisions |
| `DriverRuns.DecisionIsPersistable` | src/dark_factory/orchestration/state/run_store.py:602-609 | the rows on file can always follow the decision through the tables |
| `DriverRuns.NamedStageIsNext` | src/dark_factory/orchestration/runner.py:394-408 | the next advance executes the stage a decision names exactly if that stage has something to execute (a row that stays open or a revision of its own) and a forward decision leaves no other open row of the executed stage |
| `DriverRuns.ReworkRun` | src/dark_factory/orchestration/flow.py:374-387 | a run of two advances: a rework round of specification, then a decision that names planning, and specification is executed again |
| `DriverRuns.ReviewReworkRun` | src/dark_factory/orchestration/flow.py:374-387 | a run whose review rework at the same revision names construction, and review is executed again |
| `DriverRuns.ReworkLeavesItOpen` | src/dark_factory/orchestration/flow.py:374-387 | a rework round inside a stage leaves its failed row open, and a second open row beside it exactly if one was there or the round has a revision of its own |
| `Policies.EffectiveIsMaximum` | src/dark_factory/orchestration/policy/risk.py:111-129 | the effective class is the maximum of declared, classified and route floor, and the band refuses exactly raised classes on the short route |
| `Policies.ClassExactly` | src/dark_factory/orchestration/policy/risk.py:111-129 | fact by fact, what puts a run into each class |
| `Policies.SatisfiedExactly` | src/dark_factory/orchestration/rules/gates.py:94-109 | a gate is satisfied exactly if the last report on it is a pass or a skip |
| `Policies.GatesExactly` | src/dark_factory/orchestration/rules/gates.py:28-80 | which gates each stage needs, off and on the quick route |
| `Policies.ControlPointsExactly` | src/dark_factory/orchestration/policy/escalation.py:119-156 | whose approval each stage needs, by class |
| `Policies.ControlShaExactly` | src/dark_factory/orchestration/policy/escalation.py:119-156 | the revision an approval has to name: the one of the first passed human gate, or the input |
| `Policies.VerdictsExactly` | src/dark_factory/orchestration/flow.py:571-610 | the verdicts a result gets from what was observed, each exactly |
| `Policies.LatestHumanIsLast` | src/dark_factory/orchestration/policy/merge.py:238-256 | the decision the merge goes by is the last human one on the review gate bound to the revision |
| `Policies.MergeAuthorizedExactly` | src/dark_factory/orchestration/policy/merge.py:134-224 | a merge is authorized exactly if a human executes it at an unchanged revision whose required gates are satisfied there and whose last human review decision approves it |
| `Policies.MergeBlockedExactly` | src/dark_factory/orchestration/policy/merge.py:134-224 | when a merge is blocked; what is neither blocked nor authorized is left to a human |
| `PolicyRuns.EveryStageSteppedInto` | src/dark_factory/orchestration/flow.py:729-742 | every stage of a run was entered by an advance that nothing stopped |
| `PolicyRuns.ReleaseNeedsHuman` | src/dark_factory/orchestration/policy/merge.py:94-96 | in every run, the release stage is reached only by a merge a human confirmed for exactly that revision |
| `PolicyRuns.SuccessNeedsHuman` | src/dark_factory/orchestration/policy/merge.py:94-96 | so does every succeeded run |
| `PolicyRuns.StagesNeedGates` | src/dark_factory/orchestration/rules/gates.py:28-80 | every run, of any class, enters planning, construction and review only with the gates of the stage before passed or skipped |
| `PolicyRuns.RaisedClassNeedsHuman` | src/dark_factory/orchestration/policy/escalation.py:119-156 | a run of a raised class enters planning only after a human approved specification and interface, and construction only after a human approved the plan, each at the revision the passed gates name; the quick route is closed to it |
| `PolicyRuns.ConfirmedRun` | src/dark_factory/orchestration/policy/merge.py:134-224 | a run of a raised class, all confirmed by a human at one revision, from its creation to the release stage |
| `PolicyRuns.ShortRouteIsClosed` | src/dark_factory/orchestration/routes.py:123-135 | a raised class on the short route never leaves specification and never succeeds |
| `Leases.GrantedExactly` | src/dark_factory/orchestration/state/repositories.py:222-266 | an acquisition is granted exactly if there is no lease row, it has expired, or it is the caller's own; then with the next token for its time to live, and otherwise nothing changes |
| `Leases.HolderExactly` | src/dark_factory/orchestration/state/repositories.py:268-314 | exactly owner and token of the row renew or release it |
| `Leases.WrittenExactly` | src/dark_factory/orchestration/state/repositories.py:178-213 | a status is written exactly under the live token, at the current revision, along the table |
| `Leases.TakenOverAfterExpiry` | src/dark_factory/orchestration/state/repositories.py:222-266 | in every run, between two owners of an unreleased lease there is an acquisition after its expiry |
| `Leases.ExpiryIsLastRenewal` | src/dark_factory/orchestration/state/repositories.py:268-297 | that expiry is what the owner's last acquisition or renewal gave it |
| `Leases.ReleasedByHolder` | src/dark_factory/orchestration/state/repositories.py:299-314 | a lease row disappears only by a release of its own holder |
| `Leases.ClockExactly` | src/dark_factory/orchestration/state/repositories.py:222-266 | the clock the leases run against is the sum of the time that passed |
| `Leases.TokensGrow` | src/dark_factory/orchestration/state/repositories.py:222-266 | without a release between them, a later acquisition has a larger token |
| `Leases.FenceExactly` | src/dark_factory/orchestration/state/repositories.py:196-201 | which grants pass the fence: since the last release only the newest; of earlier ones exactly those whose ordinal equals the number granted since |
| `Leases.OldTokenPassesAgain` | src/dark_factory/orchestration/state/repositories.py:299-314 | after a release the next grant restarts at one, so the first holder of the ended epoch passes again |
| `Leases.ReleasedTokenRun` | src/dark_factory/orchestration/state/repositories.py:299-314 | the shortest run into that: lease taken, released, taken by another owner, and the first token passes |
| `Leases.NoLostUpdate` | src/dark_factory/orchestration/state/repositories.py:202-213 | every accepted status write expected exactly the revision its predecessor left, also where that was raised to the one the run reached in memory |
| `Leases.Repository.AcquireLease` | src/dark_factory/orchestration/state/repositories.py:222-266 | token and row of an acquisition, or a refusal while another owner is live |
| `Leases.Repository.RenewLease` | src/dark_factory/orchestration/state/repositories.py:268-297 | only owner and token together extend the lease |
| `Leases.Repository.ReleaseLease` | src/dark_factory/orchestration/state/repositories.py:299-314 | only owner and token together delete the row |
| `Leases.Repository.WriteStatus` | src/dark_factory/orchestration/state/repositories.py:178-213 | fence, revision and table, in this order |
| `Effects.AtMostOncePlusMissed` | src/dark_factory/orchestration/state/repositories.py:364-388 | over every sequence of attempts dying anywhere: at most one effect, plus one per lookup that missed an effect that was there; all answers agree with the ledger |
| `Effects.AtMostOnce` | src/dark_factory/orchestration/state/repositories.py:371-376 | with a lookup that sees what is there, at most one effect, and every caller got its reference |
| `Effects.MissedLookupsRepeat` | src/dark_factory/orchestration/state/repositories.py:381-388 | the bound is reached for every number of misses |
| `Effects.WorldExactly` | src/dark_factory/orchestration/state/repositories.py:364-388 | after any attempts: an effect exists exactly if one got past its call, the ledger has a reference exactly if one reached its end, and each that did has an answer |
| `Effects.ExactlyOnceWhenSeen` | src/dark_factory/orchestration/state/repositories.py:364-388 | with a lookup that sees what is there: exactly one effect if some attempt got past its call, and its reference for every one that reached its end |
| `Effects.CommittedForGood` | src/dark_factory/orchestration/state/repositories.py:378-380 | after a commit no attempt touches the external system, and exactly those that reach their end are answered |
| `Effects.Ledger.EnsureEffect` | src/dark_factory/orchestration/state/repositories.py:364-388 | one attempt as a function of ledger and external state |
| `OutboxTables.MinimumDecidesGate` | src/dark_factory/orchestration/events/rules.py:94-113 | comparing with the smallest undelivered sequence decides exactly whether a delivery heads its stream |
| `OutboxTables.GateIgnoresLeases` | src/dark_factory/orchestration/events/repository.py:160-208 | leasing rows during a pass changes no ordering decision of the pass |
| `OutboxRuns.DeliveredInPublicationOrder` | src/dark_factory/orchestration/events/dispatcher.py:86-192 | over every run with concurrent passes, crashes, replays, skips and cleanups: each delivery is recorded once, and in publication order per consumer and stream |
| `OutboxRuns.NoCallSkipsAPredecessor` | src/dark_factory/orchestration/events/repository.py:160-208 | a handler is called only after every predecessor of the stream was called or waived |
| `OutboxRuns.EveryDeliveryAccountedFor` | src/dark_factory/orchestration/events/cleanup.py:22-64 | no published delivery is lost: it is open, or was handled and recorded, or waived |
| `OutboxRuns.AttemptBudget` | src/dark_factory/orchestration/events/rules.py:79-81 | attempts of an open row stay within the limit, and a retryable row is under it |
| `OutboxRuns.OnePerStreamAndPass` | src/dark_factory/orchestration/events/repository.py:160-208 | one pass takes at most one delivery of a stream |
| `OutboxRetries.TakenExactly` | src/dark_factory/orchestration/events/repository.py:160-208 | a candidate is taken exactly if it is pending or failed, its time has come, and nothing undelivered stands before it |
| `OutboxRetries.LeaseExactly` | src/dark_factory/orchestration/events/repository.py:206-206 | a row taken at a time is taken by no pass before 120 seconds later, and can be taken from then on |
| `OutboxRetries.LeaseOverRuns` | src/dark_factory/orchestration/events/repository.py:160-208 | over every run, two reservations of a delivery closer than that have an outcome or an operator replay between them |
| `OutboxRetries.HeldExactly` | src/dark_factory/orchestration/events/dispatcher.py:86-130 | what a pass holds: from its reservation to its call, to its outcome or its crash |
| `OutboxRetries.HeldSince` | src/dark_factory/orchestration/events/dispatcher.py:86-130 | over every run, what a pass holds it took itself, with the attempts of the row and at the time of the pass |
| `OutboxRetries.BackoffExactly` | src/dark_factory/orchestration/events/rules.py:58-76 | 30 seconds first, then four times the delay before, up to an hour |
| `OutboxRetries.SettledExactly` | src/dark_factory/orchestration/events/repository.py:210-240 | an outcome is written exactly if the pass holds the delivery and the row is still open: delivered, or due again after 30, 120, 480 or 1920 seconds, or dead |
| `OutboxRetries.BackoffOverRuns` | src/dark_factory/orchestration/events/dispatcher.py:130-192 | over every run, a failed delivery is not taken again before that, unless another outcome or a replay comes first |
| `OutboxRetries.AttemptsByStatus` | src/dark_factory/orchestration/events/rules.py:79-81 | in every run, a pending row had no attempt, a failed one to four, and a dead one exactly five |
| `OutboxRetries.ReplayedExactly` | src/dark_factory/orchestration/events/repository.py:242-271 | a replay makes exactly the dead and failed deliveries it names as good as new |
| `OutboxRetries.SkippedExactly` | src/dark_factory/orchestration/events/repository.py:273-306 | a skip waives exactly the one open delivery it names |
| `OutboxRetries.CleanedExactly` | src/dark_factory/orchestration/events/cleanup.py:22-64 | a cleanup deletes exactly the events that are 30 days old with every delivery delivered or waived, and their rows |
| `OutboxRetries.RetainedOverRuns` | src/dark_factory/orchestration/events/cleanup.py:22-64 | over every run, an event stays as published until a cleanup 30 days after it |
| `OutboxRetries.PublishedExactly` | src/dark_factory/orchestration/state/repositories.py:428-462 | a publication adds its event and one due row for each consumer, and nothing else |
| `OutboxOrder.OldestFirst` | src/dark_factory/orchestration/events/repository.py:170-188 | a due unlocked row stands before a member of the batch exactly if it is older, or smaller by sequence, event id and consumer |
| `OutboxOrder.BatchExists` | src/dark_factory/orchestration/events/repository.py:170-188 | there is an ordered batch for every limit, time and set of locked rows, in all tables whose deliveries have their events |
| `OutboxOrder.InBatchExactly` | src/dark_factory/orchestration/events/repository.py:170-188 | a due unlocked row is in the ordered batch exactly if fewer than the limit sort before it |
| `OutboxBatches.HeadTakenExactly` | src/dark_factory/orchestration/events/repository.py:160-208 | a pass takes something of a stream exactly if its head is due, not locked, and fewer than the limit of eligible rows sort before it |
| `OutboxBatches.JamStarves` | src/dark_factory/orchestration/events/repository.py:189-208 | as many due rows behind dead ones as the limit keep every later row out of the batch, and none of them is taken |
| `OutboxBatches.StarvesUntilOperator` | src/dark_factory/orchestration/events/repository.py:160-208 | that lasts over every further run, until an operator replays or skips a delivery |
| `OutboxJams.JamIsReached` | src/dark_factory/orchestration/events/dispatcher.py:86-192 | for every limit of at least one, a run whose passes reserve real batches of that limit under a clock that never runs back reaches such a state, with the head of another stream due and waiting |
| `OutboxSequences.CleanupKeepsHighest` | src/dark_factory/orchestration/events/cleanup.py:22-64 | a cleanup keeps the largest sequence of a stream exactly if there is none or an event that carries it is not due for deletion |
| `OutboxSequences.NextNumberIsGiven` | src/dark_factory/orchestration/state/repositories.py:421-426 | the number the next publication after a cleanup stores |
| `OutboxSequences.NextNumberIsLargestExactly` | src/dark_factory/orchestration/state/repositories.py:421-426 | it exceeds every number stored before the cleanup exactly if the cleanup left the largest one |
| `OutboxSequences.SequencesGrowWhileKept` | src/dark_factory/orchestration/state/repositories.py:421-426 | in every run whose cleanups leave the stream its largest number, numbers grow with publication |
| `OutboxSequences.SequenceRestartsAfterCleanup` | src/dark_factory/orchestration/state/repositories.py:421-426 | a cleanup that empties a stream makes its next event number one, which no earlier event of the stream is below |
| `OutboxSequences.NumberIsRepeated` | src/dark_factory/orchestration/state/repositories.py:421-426 | a run, published and skipped and cleaned up past retention and published again, in which two events of a stream have the same number |
| `OutboxStore.Store.Publish` | src/dark_factory/orchestration/state/repositories.py:428-462 | the event with its sequence and one pending row per consumer |
| `OutboxStore.Store.MinUndeliveredSequence` | src/dark_factory/orchestration/events/repository.py:145-158 | the smallest unaccepted sequence of a consumer and stream |
| `OutboxStore.Store.SelectBatch` | src/dark_factory/orchestration/events/repository.py:170-188 | the query: due unlocked rows, ordered, cut at the limit |
| `OutboxStore.Store.TakeHeads` | src/dark_factory/orchestration/events/repository.py:189-208 | the loop over the candidates: heads of their streams are leased, the others left alone |
| `OutboxStore.Store.ReserveBatch` | src/dark_factory/orchestration/events/repository.py:160-208 | batch, taken and deferred rows, and the tables after one reservation |
| `OutboxStore.Store.CommitOutcome` | src/dark_factory/orchestration/events/repository.py:210-240 | the row a recorded outcome leaves |
| `OutboxStore.Store.ReplayEvent` | src/dark_factory/orchestration/events/repository.py:242-271 | the rows an operator replay resets |
| `OutboxStore.Store.SkipDelivery` | src/dark_factory/orchestration/events/repository.py:273-306 | the row an operator waiver closes |
| `OutboxStore.Store.CleanupExpired` | src/dark_factory/orchestration/events/cleanup.py:22-64 | the events and rows a cleanup deletes |
| `Conversations.QuestionRun` | src/dark_factory/changes/conversations.py:202-237 | in every run without a bare move to `answered`: no answer while open, a fitting one once answered or resolved |
| `Conversations.QuestionCallKeepsExactly` | src/dark_factory/changes/conversations.py:202-237 | one call breaks that exactly if it is a bare move of an open question to `answered` |
| `Conversations.QuestionMovesAtMostTwice` | src/dark_factory/changes/conversations.py:58-65 | at most two accepted moves; answered after one, resolved after two |
| `Conversations.DraftExactly` | src/dark_factory/changes/conversations.py:159-170 | a choice is taken exactly with two options that say something, any other question exactly with none |
| `Conversations.QuestionStepExactly` | src/dark_factory/changes/conversations.py:202-237 | what one call does to a question, by the table given target by target |
| `Conversations.AnswerWasGiven` | src/dark_factory/changes/conversations.py:232-237 | an answer on record was given by one call to the open question, and is its value without the whitespace around it |
| `Conversations.AnswerIsFinal` | src/dark_factory/changes/conversations.py:232-237 | an answer is never replaced |
| `Conversations.AcceptedAnswersFit` | src/dark_factory/changes/conversations.py:211-230 | an answer is accepted exactly if its trimmed form fits the kind, and is stored trimmed |
| `Conversations.ChoiceAcceptsItsOptions` | src/dark_factory/changes/conversations.py:159-170 | the accepted answers of a choice question are exactly its cleaned options |
| `Conversations.AnsweringAgain` | src/dark_factory/orchestration/state/conversation_ops.py:99-114 | answering again replays the same value and conflicts with any other |
| `Conversations.ServiceOnlyAddresses` | src/dark_factory/api/routes_conversations.py:282-344 | a service request only ever moves an open comment to addressed |
| `Conversations.CommentStepExactly` | src/dark_factory/api/routes_conversations.py:282-344 | what one request does to a comment, and when it replaces the note |
| `Conversations.ClosedByOperator` | src/dark_factory/api/routes_conversations.py:320-331 | a closed comment was closed by an operator request of its history, and nothing changes it afterwards |
| `Conversations.OrderRun` | src/dark_factory/changes/conversations.py:362-385 | every run of the order calls keeps fields and status in step |
| `Conversations.OrderCallKeepsExactly` | src/dark_factory/changes/conversations.py:362-385 | one call breaks that exactly if it is an accepted bare status move |
| `Conversations.OrderStepExactly` | src/dark_factory/changes/conversations.py:362-385 | what one call does to an order: which status it needs and the values it stores |
| `Conversations.OrderSaysItsCalls` | src/dark_factory/changes/conversations.py:362-385 | every value on an order is the one a call of its run gave |
| `Conversations.OrderMovesAtMostTwice` | src/dark_factory/changes/conversations.py:76-83 | at most two accepted moves; in progress after one, done after two |
| `Conversations.OrderEndsForGood` | src/dark_factory/changes/conversations.py:76-83 | a done or escalated order takes no further call |
| `Conversations.QuestionEntity.AnswerWithValue` | src/dark_factory/changes/conversations.py:232-237 | validation, move and stored answer |
| `Conversations.CommentEntity.Handle` | src/dark_factory/api/routes_conversations.py:282-344 | role check, table and note of one request |
| `Conversations.OrderEntity.Begin` | src/dark_factory/changes/conversations.py:371-375 | status, round and run, or no change |
| `Conversations.OrderEntity.Complete` | src/dark_factory/changes/conversations.py:377-380 | status and summary, or no change |
| `Conversations.OrderEntity.GiveUp` | src/dark_factory/changes/conversations.py:382-385 | status and reason, or no change |
| `Frontmatter.SplitFrontmatter` | console/src/lib/artifacts.ts:115-129 | no frontmatter and the whole content exactly when no line closes an opened block; otherwise the lines before and after the first closing line |
| `Frontmatter.StartsExactly` | console/src/lib/artifacts.ts:116-118 | the prefix test holds exactly if the first line is the opening line |
| `Frontmatter.NothingIsHidden` | console/src/lib/artifacts.ts:119-127 | the document is the opening line, the block, the closing line and the body as its end, and the closing line is unique |
| `Frontmatter.SplitUndoesWriting` | console/src/lib/artifacts.ts:119-127 | splitting a written block and body gives both back |
| `ArtifactPath.DecodeEncode` | console/src/lib/artifacts.ts:90-90 | percent-decoding undoes percent-encoding on every Unicode string |
| `ArtifactPath.KeptExactly` | console/src/lib/artifacts.ts:90-90 | exactly letters, digits and nine marks stand for themselves |
| `ArtifactPath.EncodedAlphabet` | console/src/lib/artifacts.ts:90-90 | an encoded segment has nothing but these and percent signs in it |
| `ArtifactPath.PercentExactly` | console/src/lib/artifacts.ts:90-90 | a byte is escaped with two upper-case hexadecimal digits |
| `ArtifactPath.NonEmptyExactly` | console/src/lib/artifacts.ts:88-89 | exactly the segments that are not empty are kept, each in its place |
| `ArtifactPath.EncodedSegments` | console/src/lib/artifacts.ts:86-92 | the slashes of the result are exactly those between the non-empty segments |
| `ArtifactPath.DecodeEncodePath` | console/src/lib/artifacts.ts:86-92 | decoding segment by segment gives the path without its empty segments |
| `ArtifactPath.RoundTripExactly` | console/src/lib/artifacts.ts:86-92 | the round trip is the identity exactly on the empty path and on paths without an empty segment |
| `Brief.SplitLinesOfJoin` | console/src/lib/brief.ts:23-28 | clean entries written one per line are read back |
| `Brief.JoinInjective` | console/src/lib/brief.ts:48-55 | clean lists with the same joined text are equal |
| `Brief.SameFieldsExactly` | console/src/lib/brief.ts:48-55 | two forms count as the same exactly if they become the same structured fields |
| `Brief.RoundTripExactly` | console/src/lib/brief.ts:30-82 | opening a brief in the form and saving it is the identity exactly on clean briefs |
| `Brief.FormsBecomeCleanBriefs` | console/src/lib/brief.ts:66-82 | whatever the form holds, the wire brief is clean |
| `Brief.CompleteExactly` | console/src/lib/brief.ts:66-82 | a brief says what the form says without the whitespace around it, and is complete exactly if problem and goal are more than whitespace |
| `Brief.LinesExactly` | console/src/lib/brief.ts:23-28 | exactly the lines with something in them are kept, trimmed, each in its place |
| `Text.TrimExactly` | src/dark_factory/changes/intake.py:28-45 | trimming takes whitespace off both ends and nothing else |
| `Brief.ServerAgrees` | src/dark_factory/changes/intake.py:28-80 | the server keeps the sent fields and derives the status the console derived; only a blank or untrimmed error changes |
| `Brief.AgentKeepsAuthorshipExactly` | console/src/lib/brief.ts:61-63 | the author is the agent exactly if the saved fields equal those of its own formulation |

## Left out

- Concurrency of the database inside one request: isolation levels, locks and constraint races; requests are atomic.
- How the phase gate is built (`src/dark_factory/orchestration/phase_gate.py:249-416`): its availability and current
  revision are inputs of every step.
- Flow.HonouredExactly: the gate, risk and merge verdicts are inputs of the flow, which `Policies.Verdicts` computes;
  costs are real numbers, so the rounding of floating-point sums is not captured.
- Which facts of a contract classify its risk: the classifier's facts are inputs.
- DriverRuns.SucceededRunIsComplete: the other writers of run statuses (reconciliation, run records of the command line)
  are not steps of the driver.
- Flow.FlowRun.Apply: stage runs are values in a list, so sharing of one stage run object between lists is not captured.
- OutboxOrder.InBatchExactly: ids and consumers are ordered by their characters, not by a database collation; only that
  the order is total and strict is used.
- Effects.AtMostOnce: two attempts for one key do not interleave, because the ledger row stays locked.
- ArtifactPath.DecodeEncode: strings with lone surrogates, on which the encoder raises, are not strings of the model.
- SubmitApproval.EveryDecisionJustified: a blank reason is one of ASCII whitespace only.
- Brief.RoundTripExactly: whitespace is any predicate that counts the carriage return; the differences between the
  JavaScript and Python notions are not modelled.
- Conversations.AcceptedAnswersFit: the decimal parser is a parameter.
- Attaching an answered question or a comment to a rework order, and the anchors of both.
- The transport of decisions to run records, the command-line output and its exit codes.
- Tokens and authentication: only the role of a caller is modelled.
- React rendering, the other pages and the editor's autosave.
- Serialization, migrations, Markdown and diagram rendering: foreign libraries.
- Product status, environment checks and spend-limit parsing: small tables and thin wrappers that
  would add only easy members.
