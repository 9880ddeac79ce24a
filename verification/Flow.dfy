/**
 The transition core between stages: one stage result moves a run, under the verdicts of the gate, risk and
 merge policies, which are inputs here.
 */
module Flow {
  import opened Base
  import opened StageResults
  import opened L = Lifecycle
  import ReadModels

  datatype Spend = Spend(tokens: nat, cost: real)

  datatype Limits = Limits(tokens: Option<nat>, cost: Option<real>, deadline: Option<int>)

  const Unlimited: Limits := Limits(None, None, None)

  datatype Run = Run(
    record: RunRecord,
    stages: seq<StageRecord>,
    maxRework: nat,
    usedRework: nat,
    limits: Limits,
    spend: Spend,
    maxIterations: Option<nat>)   // set once a contract is approved

  datatype MergeVerdict = MergeBlocked | ManualMerge | MergeAuthorized

  /** What the policies say about one result: `true` stops the advance. */
  datatype Policy = Policy(gates: bool, obligations: bool, band: bool, merge: MergeVerdict)

  datatype FlowError = TerminalRun | InvalidFlow | StatusMismatch | StaleAttempt | NoSuccessor | IllegalMove

  datatype Decision = Decision(
    stage: Stage, action: Action, stageStatus: StageStatus, runStatus: RunStatus, nextStage: Option<Stage>)

  /** The run as the call leaves it in memory, also when it raises. */
  datatype Outcome = Outcome(run: Run, decision: Result<Decision, FlowError>)

  // ----- tables

  function Successor(s: Stage): Option<Stage> {
    match s
    case Specification => Some(Planning)
    case Planning => Some(Construction)
    case Construction => Some(ReviewVerification)
    case ReviewVerification => Some(Release)
    case Release => None
  }

  predicate Allowed(s: Stage, a: Action) {
    match a
    case ExecuteStage(_) => s.Specification? || s.Planning? || s.Construction?
    case WaitForInput => !s.Release?
    case WaitForCi => !s.Specification?
    case Rework(_) => !s.Release?
    case PhaseRound => s.Specification?
    case RequestApproval => !s.Release?
    case Merge => s.ReviewVerification?
    case ReleaseNow => s.Release?
    case Stop(_) => true
  }

  function StopStage(o: StopOutcome): StageStatus {
    match o
    case Blocked => StageStatus.Blocked
    case Failed => StageStatus.Failed
    case Canceled => StageStatus.Canceled
  }

  function StopRun(o: StopOutcome): RunStatus {
    match o
    case Blocked => RunStatus.Blocked
    case Failed => RunStatus.Failed
    case Canceled => RunStatus.Canceled
  }

  function ExpectedStatus(a: Action): StageStatus {
    match a
    case ExecuteStage(_) | Merge | ReleaseNow | PhaseRound => StageStatus.Succeeded
    case WaitForInput | WaitForCi | RequestApproval => StageStatus.Waiting
    case Rework(_) => StageStatus.Failed
    case Stop(o) => StopStage(o)
  }

  function ReworkTarget(s: Stage): Stage {
    if s.ReviewVerification? then Construction else s
  }

  // ----- open stage runs

  predicate IsOpen(s: StageRecord) { !StageTerminal(s.status) }

  predicate OpenAt(stages: seq<StageRecord>, stage: Stage, i: nat) {
    i < |stages| && stages[i].stage == stage && IsOpen(stages[i])
  }

  /** The last open stage run of `stage`. */
  function Active(stages: seq<StageRecord>, stage: Stage): (r: Option<nat>)
    ensures r.Some? ==> OpenAt(stages, stage, r.value)
    ensures r.Some? ==> forall i :: r.value < i < |stages| ==> !OpenAt(stages, stage, i)
    ensures r.None? ==> forall i :: 0 <= i < |stages| ==> !OpenAt(stages, stage, i)
  {
    if stages == [] then None
    else if OpenAt(stages, stage, |stages| - 1) then Some(|stages| - 1)
    else
      var r := Active(stages[..|stages| - 1], stage);
      assert forall i :: 0 <= i < |stages| - 1 ==>
        (OpenAt(stages, stage, i) <==> OpenAt(stages[..|stages| - 1], stage, i));
      r
  }

  function HasOpen(stages: seq<StageRecord>, stage: Stage): bool { Active(stages, stage).Some? }

  function NextStage(stages: seq<StageRecord>): Option<Stage> {
    if HasOpen(stages, Specification) then Some(Specification)
    else if HasOpen(stages, Planning) then Some(Planning)
    else if HasOpen(stages, Construction) then Some(Construction)
    else if HasOpen(stages, ReviewVerification) then Some(ReviewVerification)
    else if HasOpen(stages, Release) then Some(Release)
    else None
  }

  function AttemptNumber(stages: seq<StageRecord>, stage: Stage): nat {
    match Active(stages, stage)
    case None => 1
    case Some(i) => if Retryable(stages[i].status) then stages[i].attempt + 1 else stages[i].attempt
  }

  // ----- entering the stage

  function Entry(s: StageRecord, attempt: nat, now: int): Result<StageRecord, FlowError> {
    var retried := if s.attempt == attempt then s else StageStep(s, BeginRetry(attempt));
    if s.attempt != attempt && !Accepts(s, BeginRetry(attempt)) then Err(StaleAttempt)
    else if retried.status.InProgress? then Ok(retried)
    else if StageStatus.InProgress in StageTargets(retried.status) then
      Ok(StageMoved(retried, StageStatus.InProgress, now))
    else Err(IllegalMove)
  }

  /** The stage list with the entered stage run, and where it is. */
  function Enter(stages: seq<StageRecord>, result: StageResult, now: int): Result<(seq<StageRecord>, nat), FlowError> {
    match Active(stages, result.stage)
    case Some(i) =>
      var entered := Entry(stages[i], result.attempt, now);
      if entered.Err? then Err(entered.error) else Ok((stages[i := entered.value], i))
    case None =>
      if result.attempt != 1 then Err(StaleAttempt)
      else Ok((stages + [StageMoved(FreshStage(result.stage), StageStatus.InProgress, now)], |stages|))
  }

  // ----- handlers; each works on a run whose stage run `i` is in progress

  /** Move the stage run and then the run, or raise where a table refuses. */
  function Settle(run: Run, i: nat, st: StageStatus, rt: RunStatus, action: Action, now: int): Outcome
    requires i < |run.stages|
  {
    if st !in StageTargets(run.stages[i].status) then Outcome(run, Err(IllegalMove))
    else
      var moved := run.(stages := run.stages[i := StageMoved(run.stages[i], st, now)]);
      if rt !in RunTargets(run.record.status) then Outcome(moved, Err(IllegalMove))
      else Outcome(moved.(record := RunMoved(run.record, rt, now)),
                   Ok(Decision(run.stages[i].stage, action, st, rt, None)))
  }

  function StopHere(run: Run, i: nat, now: int): Outcome
    requires i < |run.stages|
  {
    Settle(run, i, StageStatus.Blocked, RunStatus.Blocked, Stop(StopOutcome.Blocked), now)
  }

  function Started(stages: seq<StageRecord>, stage: Stage): seq<StageRecord> {
    if HasOpen(stages, stage) then stages else stages + [FreshStage(stage)]
  }

  /** Complete or fail stage run `i` and open `target`: a fresh stage run, or one that is still open. */
  function Chain(run: Run, i: nat, st: StageStatus, target: Stage, again: bool, action: Action, now: int): Outcome
    requires i < |run.stages|
  {
    if st !in StageTargets(run.stages[i].status) then Outcome(run, Err(IllegalMove))
    else
      var moved := run.stages[i := StageMoved(run.stages[i], st, now)];
      Outcome(run.(stages := if again then moved + [FreshStage(target)] else Started(moved, target)),
              Ok(Decision(run.stages[i].stage, action, st, run.record.status, Some(target))))
  }

  /** A budget is used up or the deadline has passed. */
  predicate Exhausted(l: Limits, s: Spend, now: int) {
    || (l.tokens.Some? && s.tokens >= l.tokens.value)
    || (l.cost.Some? && s.cost >= l.cost.value)
    || (l.deadline.Some? && now > l.deadline.value)
  }

  predicate BudgetStops(run: Run, p: Policy, now: int) {
    p.gates || Exhausted(run.limits, run.spend, now)
  }

  predicate AutonomyStops(run: Run) {
    run.maxIterations.Some? && |run.stages| >= run.maxIterations.value
  }

  function HandleExecute(run: Run, i: nat, result: StageResult, p: Policy, next: Stage, now: int): Outcome
    requires i < |run.stages|
  {
    if Successor(result.stage) != Some(next) then Outcome(run, Err(InvalidFlow))
    else if BudgetStops(run, p, now) || Escalates(result) || p.obligations || AutonomyStops(run) then
      StopHere(run, i, now)
    else Chain(run, i, StageStatus.Succeeded, next, false, result.action, now)
  }

  function HandleRework(run: Run, i: nat, result: StageResult, round: nat, now: int): Outcome
    requires i < |run.stages|
  {
    if Escalates(result) || AutonomyStops(run) || run.usedRework >= run.maxRework || round > run.maxRework then
      StopHere(run, i, now)
    else
      var target := ReworkTarget(result.stage);
      Chain(run.(usedRework := run.usedRework + 1), i, StageStatus.Failed, target, target == result.stage,
            result.action, now)
  }

  function HandleMerge(run: Run, i: nat, result: StageResult, p: Policy, now: int): Outcome
    requires i < |run.stages|
  {
    if Successor(result.stage).None? then Outcome(run, Err(NoSuccessor))
    else if BudgetStops(run, p, now) || Escalates(result) || p.band || p.merge.MergeBlocked? then StopHere(run, i, now)
    else if p.merge.ManualMerge? then Settle(run, i, StageStatus.Waiting, RunStatus.Waiting, WaitForInput, now)
    else Chain(run, i, StageStatus.Succeeded, Successor(result.stage).value, false, result.action, now)
  }

  function HandleRelease(run: Run, i: nat, result: StageResult, p: Policy, history: seq<StageResult>, now: int): Outcome
    requires i < |run.stages|
  {
    if BudgetStops(run, p, now) || Escalates(result) || p.band then StopHere(run, i, now)
    else if ReadModels.CompletionViolations(RunStatus.Succeeded, history + [result]) != [] then StopHere(run, i, now)
    else Settle(run, i, StageStatus.Succeeded, RunStatus.Succeeded, result.action, now)
  }

  function Handle(run: Run, i: nat, result: StageResult, p: Policy, history: seq<StageResult>, now: int): Outcome
    requires i < |run.stages|
  {
    match result.action
    case ExecuteStage(next) => HandleExecute(run, i, result, p, next, now)
    case WaitForInput | WaitForCi | RequestApproval =>
      Settle(run, i, StageStatus.Waiting, RunStatus.Waiting, result.action, now)
    case Rework(round) => HandleRework(run, i, result, round, now)
    case PhaseRound => Chain(run, i, StageStatus.Succeeded, result.stage, true, result.action, now)
    case Merge => HandleMerge(run, i, result, p, now)
    case ReleaseNow => HandleRelease(run, i, result, p, history, now)
    case Stop(o) => Settle(run, i, StopStage(o), StopRun(o), result.action, now)
  }

  function Added(s: Spend, result: StageResult): Spend {
    Spend(s.tokens + TokensOf(result), s.cost + CostOf(result))
  }

  /** The run as the handlers find it: stage entered, run running, usage counted. */
  function Prepared(run: Run, stages: seq<StageRecord>, result: StageResult, now: int): Run {
    run.(stages := stages, spend := Added(run.spend, result),
         record := if run.record.status.Running? then run.record else RunMoved(run.record, RunStatus.Running, now))
  }

  function ApplyResult(run: Run, result: StageResult, p: Policy, history: seq<StageResult>, now: int): Outcome {
    if RunTerminal(run.record.status) then Outcome(run, Err(TerminalRun))
    else if !Allowed(result.stage, result.action) then Outcome(run, Err(InvalidFlow))
    else if result.status != ExpectedStatus(result.action) then Outcome(run, Err(StatusMismatch))
    else
      var entered := Enter(run.stages, result, now);
      if entered.Err? then Outcome(run, Err(entered.error))
      else if !run.record.status.Running? && RunStatus.Running !in RunTargets(run.record.status) then
        Outcome(run.(stages := entered.value.0), Err(IllegalMove))
      else
        Handle(Prepared(run, entered.value.0, result, now), entered.value.1, result, p, history, now)
  }

  // ----- when a result is refused

  lemma {:induction false} EntryInProgress(s: StageRecord, attempt: nat, now: int)
    requires Entry(s, attempt, now).Ok?
    ensures var e := Entry(s, attempt, now).value;
            e.status.InProgress? && e.stage == s.stage && e.attempt == attempt
  {
  }

  lemma {:induction false} EnterInProgress(stages: seq<StageRecord>, result: StageResult, now: int)
    requires Enter(stages, result, now).Ok?
    ensures var s := Enter(stages, result, now).value.0;
            var i := Enter(stages, result, now).value.1;
            && i < |s| && s[i].status.InProgress? && s[i].stage == result.stage && s[i].attempt == result.attempt
            && (i < |stages| ==> Active(stages, result.stage) == Some(i) && s == stages[i := s[i]])
            && (i >= |stages| ==> i == |stages| && s == stages + [s[i]] && !HasOpen(stages, result.stage))
  {
    match Active(stages, result.stage)
    case None =>
    case Some(i) =>
      EntryInProgress(stages[i], result.attempt, now);
  }

  predicate Fits(stages: seq<StageRecord>, stage: Stage, attempt: nat) {
    match Active(stages, stage)
    case None => attempt == 1
    case Some(i) => attempt == stages[i].attempt || attempt == AttemptNumber(stages, stage)
  }

  /** A stage result enters its stage exactly if its attempt number fits; a status table never refuses the entry. */
  lemma {:induction false} EnterExactly(stages: seq<StageRecord>, result: StageResult, now: int)
    ensures Enter(stages, result, now).Ok? <==> Fits(stages, result.stage, result.attempt)
    ensures Enter(stages, result, now).Err? ==> Enter(stages, result, now).error == StaleAttempt
  {
    match Active(stages, result.stage)
    case None =>
    case Some(i) =>
      TerminalStatuses(RunStatus.Pending, stages[i].status);
  }

  /** The whole list of reasons to refuse: an inner status move never raises. */
  predicate Acceptable(run: Run, result: StageResult) {
    && !RunTerminal(run.record.status)
    && Allowed(result.stage, result.action)
    && result.status == ExpectedStatus(result.action)
    && Fits(run.stages, result.stage, result.attempt)
    && (result.action.ExecuteStage? ==> Successor(result.stage) == Some(result.action.next))
  }

  lemma {:induction false} RunningIsReachable(s: RunStatus)
    requires !RunTerminal(s)
    ensures s.Running? || RunStatus.Running in RunTargets(s)
  {
    TerminalStatuses(s, StageStatus.Pending);
  }

  lemma {:induction false} RefusedExactly(run: Run, result: StageResult, p: Policy, history: seq<StageResult>, now: int)
    ensures ApplyResult(run, result, p, history, now).decision.Ok? <==> Acceptable(run, result)
    ensures ApplyResult(run, result, p, history, now).decision != Err(IllegalMove)
  {
    if !RunTerminal(run.record.status) && Allowed(result.stage, result.action)
       && result.status == ExpectedStatus(result.action)
    {
      EnterExactly(run.stages, result, now);
      RunningIsReachable(run.record.status);
      var entered := Enter(run.stages, result, now);
      if entered.Ok? {
        EnterInProgress(run.stages, result, now);
        HandleExactly(Prepared(run, entered.value.0, result, now), entered.value.1, result, p, history, now);
      }
    }
  }

  lemma {:induction false} HandleExactly(
    run: Run, i: nat, result: StageResult, p: Policy, history: seq<StageResult>, now: int)
    requires i < |run.stages| && run.stages[i].status.InProgress? && run.record.status.Running?
    requires Allowed(result.stage, result.action)
    ensures Handle(run, i, result, p, history, now).decision.Ok?
            <==> (result.action.ExecuteStage? ==> Successor(result.stage) == Some(result.action.next))
    ensures Handle(run, i, result, p, history, now).decision != Err(IllegalMove)
  {
  }

  /** Every check but the last one passes: the stage is entered before the named successor is looked at. */
  predicate EntersStage(run: Run, result: StageResult) {
    && !RunTerminal(run.record.status) && Allowed(result.stage, result.action)
    && result.status == ExpectedStatus(result.action) && Fits(run.stages, result.stage, result.attempt)
  }

  /** The attempt is already in progress. */
  predicate InHand(stages: seq<StageRecord>, result: StageResult) {
    match Active(stages, result.stage)
    case None => false
    case Some(i) => stages[i].status.InProgress? && stages[i].attempt == result.attempt
  }

  lemma {:induction false} EntryChangesExactly(s: StageRecord, attempt: nat, now: int)
    requires Entry(s, attempt, now).Ok?
    ensures Entry(s, attempt, now).value == s <==> s.status.InProgress? && s.attempt == attempt
  {
  }

  lemma {:induction false} EnterChangesExactly(stages: seq<StageRecord>, result: StageResult, now: int)
    requires Enter(stages, result, now).Ok?
    ensures Enter(stages, result, now).value.0 == stages <==> InHand(stages, result)
  {
    match Active(stages, result.stage)
    case None =>
      assert |Enter(stages, result, now).value.0| == |stages| + 1;
    case Some(i) =>
      EntryChangesExactly(stages[i], result.attempt, now);
      assert Enter(stages, result, now).value.0[i] == Entry(stages[i], result.attempt, now).value;
  }

  lemma {:induction false} PreparedChangesExactly(run: Run, stages: seq<StageRecord>, result: StageResult, now: int)
    ensures Prepared(run, stages, result, now) == run <==>
              stages == run.stages && run.record.status.Running? && TokensOf(result) == 0 && CostOf(result) == 0.0
  {
    assert !run.record.status.Running? ==>
           Prepared(run, stages, result, now).record.revision == run.record.revision + 1;
    assert Prepared(run, stages, result, now).spend == Added(run.spend, result);
  }

  /**
   A refused call leaves the run in memory as it was, unless it is refused only for naming the wrong successor and the
   stage was not in hand, the run not running, or usage reported: then stage, status and usage have moved already.
   */
  lemma {:induction false} RefusalLeavesRunAlone(
    run: Run, result: StageResult, p: Policy, history: seq<StageResult>, now: int)
    requires ApplyResult(run, result, p, history, now).decision.Err?
    ensures ApplyResult(run, result, p, history, now).run == run <==>
              !EntersStage(run, result)
              || (run.record.status.Running? && InHand(run.stages, result)
                  && TokensOf(result) == 0 && CostOf(result) == 0.0)
  {
    RefusedExactly(run, result, p, history, now);
    EnterExactly(run.stages, result, now);
    if EntersStage(run, result) {
      RunningIsReachable(run.record.status);
      EnterInProgress(run.stages, result, now);
      EnterChangesExactly(run.stages, result, now);
      PreparedChangesExactly(run, Enter(run.stages, result, now).value.0, result, now);
    }
  }

  /** A fresh run asked to go from specification straight to release: refused, and left running in mid-stage. */
  lemma {:induction false} WrongSuccessorMovesFreshRun(
    run: Run, result: StageResult, p: Policy, history: seq<StageResult>, now: int)
    requires run.stages == [FreshStage(Specification)] && run.record.status.Pending?
    requires result.stage.Specification? && result.attempt == 1 && result.status.Succeeded?
    requires result.action == ExecuteStage(Release)
    ensures var o := ApplyResult(run, result, p, history, now);
            && o.decision == Err(InvalidFlow)
            && o.run.record.status.Running? && |o.run.stages| == 1 && o.run.stages[0].status.InProgress?
            && o.run.spend == Added(run.spend, result)
  {
    assert Active(run.stages, Specification) == Some(0);
  }

  // ----- when an action is carried out

  /** Stage runs of the run once the result entered its stage. */
  function Entries(run: Run, stage: Stage): nat {
    |run.stages| + if HasOpen(run.stages, stage) then 0 else 1
  }

  predicate IterationsLeft(run: Run, stage: Stage) {
    run.maxIterations.None? || Entries(run, stage) < run.maxIterations.value
  }

  /** The attempt's own usage counts against the budget it asks to go on with. */
  predicate BudgetLeft(run: Run, result: StageResult, p: Policy, now: int) {
    && !p.gates
    && (run.limits.tokens.None? || run.spend.tokens + TokensOf(result) < run.limits.tokens.value)
    && (run.limits.cost.None? || run.spend.cost + CostOf(result) < run.limits.cost.value)
    && (run.limits.deadline.None? || now <= run.limits.deadline.value)
  }

  /** Nothing stops the action the result asks for. */
  predicate Clear(run: Run, result: StageResult, p: Policy, history: seq<StageResult>, now: int) {
    match result.action
    case ExecuteStage(_) =>
      BudgetLeft(run, result, p, now) && !Escalates(result) && !p.obligations && IterationsLeft(run, result.stage)
    case Rework(round) =>
      !Escalates(result) && IterationsLeft(run, result.stage)
      && run.usedRework < run.maxRework && round <= run.maxRework
    case Merge => BudgetLeft(run, result, p, now) && !Escalates(result) && !p.band && p.merge.MergeAuthorized?
    case ReleaseNow =>
      BudgetLeft(run, result, p, now) && !Escalates(result) && !p.band
      && ReadModels.Violations(history + [result]) == []
    case _ => true
  }

  predicate MergeDeferred(run: Run, result: StageResult, p: Policy, now: int) {
    result.action.Merge? && BudgetLeft(run, result, p, now) && !Escalates(result) && !p.band && p.merge.ManualMerge?
  }

  /** The stage and run statuses a decision may end in. */
  predicate Ends(d: Decision, st: StageStatus, rt: RunStatus) { d.stageStatus == st && d.runStatus == rt }

  /**
   The outcome carries out the action exactly if nothing stops it; otherwise a merge left to a human parks the run,
   and everything else blocks it, with no stage opened and no rework round spent.
   */
  predicate Honours(run: Run, result: StageResult, p: Policy, history: seq<StageResult>, now: int, o: Outcome) {
    && o.decision.Ok?
    && var d := o.decision.value;
       && (Clear(run, result, p, history, now) <==> d.action == result.action)
       && (MergeDeferred(run, result, p, now) ==>
             d.action == WaitForInput && Ends(d, StageStatus.Waiting, RunStatus.Waiting))
       && (!Clear(run, result, p, history, now) && !MergeDeferred(run, result, p, now) ==>
             d.action == Stop(StopOutcome.Blocked) && Ends(d, StageStatus.Blocked, RunStatus.Blocked))
       && (!Clear(run, result, p, history, now) ==>
             d.nextStage.None? && o.run.usedRework == run.usedRework
             && |o.run.stages| == Entries(run, result.stage))
  }

  /** Every acceptable result ends in a decision, of which the conditions are known beforehand. */
  lemma {:induction false} HonouredExactly(
    run: Run, result: StageResult, p: Policy, history: seq<StageResult>, now: int)
    requires Acceptable(run, result)
    ensures Honours(run, result, p, history, now, ApplyResult(run, result, p, history, now))
  {
    RefusedExactly(run, result, p, history, now);
    EnterExactly(run.stages, result, now);
    EnterInProgress(run.stages, result, now);
    RunningIsReachable(run.record.status);
    var (stages, i) := Enter(run.stages, result, now).value;
    assert |stages| == Entries(run, result.stage);
    HandledExactly(run, Prepared(run, stages, result, now), i, result, p, history, now);
  }

  lemma {:induction false} HandledExactly(
    run: Run, pre: Run, i: nat, result: StageResult, p: Policy, history: seq<StageResult>, now: int)
    requires i < |pre.stages| == Entries(run, result.stage)
    requires pre.stages[i].status.InProgress? && pre.record.status.Running?
    requires pre == run.(stages := pre.stages, spend := Added(run.spend, result), record := pre.record)
    requires Allowed(result.stage, result.action)
    requires result.action.ExecuteStage? ==> Successor(result.stage) == Some(result.action.next)
    ensures Honours(run, result, p, history, now, Handle(pre, i, result, p, history, now))
  {
  }

  // ----- the table, and what each action does

  /** The actions of each stage, with the stage they name and the status they come with. */
  predicate InTable(stage: Stage, a: Action, st: StageStatus) {
    && (match stage
        case Specification =>
          a == ExecuteStage(Planning) || a.WaitForInput? || a.Rework? || a.PhaseRound? || a.RequestApproval? || a.Stop?
        case Planning =>
          || a == ExecuteStage(Construction) || a.WaitForInput? || a.WaitForCi? || a.Rework? || a.RequestApproval?
          || a.Stop?
        case Construction =>
          || a == ExecuteStage(ReviewVerification) || a.WaitForInput? || a.WaitForCi? || a.Rework?
          || a.RequestApproval? || a.Stop?
        case ReviewVerification =>
          a.Merge? || a.WaitForInput? || a.WaitForCi? || a.Rework? || a.RequestApproval? || a.Stop?
        case Release => a.ReleaseNow? || a.WaitForCi? || a.Stop?)
    && (match st
        case Succeeded => a.ExecuteStage? || a.PhaseRound? || a.Merge? || a.ReleaseNow?
        case Waiting => a.WaitForInput? || a.WaitForCi? || a.RequestApproval?
        case Failed => a.Rework? || a == Stop(StopOutcome.Failed)
        case Blocked => a == Stop(StopOutcome.Blocked)
        case Canceled => a == Stop(StopOutcome.Canceled)
        case _ => false)
  }

  /** Row `i` is the newest of its stage that has not ended. */
  ghost predicate NewestOpen(stages: seq<StageRecord>, stage: Stage, i: nat) {
    && i < |stages| && stages[i].stage == stage && !Over(stages[i].status)
    && forall j :: i < j < |stages| && stages[j].stage == stage ==> Over(stages[j].status)
  }

  predicate Over(s: StageStatus) { s.Succeeded? || s.Skipped? || s.Superseded? || s.Canceled? }

  /** The attempt in hand, or the next one after a failure or a block, or the first of a new stage run. */
  ghost predicate AttemptFits(stages: seq<StageRecord>, stage: Stage, attempt: nat) {
    && (forall i: nat :: NewestOpen(stages, stage, i) ==>
          || attempt == stages[i].attempt
          || (attempt == stages[i].attempt + 1 && (stages[i].status.Failed? || stages[i].status.Blocked?)))
    && ((forall i: nat :: !NewestOpen(stages, stage, i)) ==> attempt == 1)
  }

  lemma {:induction false} ActiveIsNewest(stages: seq<StageRecord>, stage: Stage)
    ensures forall i: nat :: NewestOpen(stages, stage, i) <==> Active(stages, stage) == Some(i)
  {
    forall i: nat ensures i < |stages| ==> (IsOpen(stages[i]) <==> !Over(stages[i].status)) {
      if i < |stages| {
        TerminalStatuses(RunStatus.Pending, stages[i].status);
      }
    }
    forall i: nat | NewestOpen(stages, stage, i) ensures Active(stages, stage) == Some(i) {
      assert OpenAt(stages, stage, i);
    }
    if Active(stages, stage).Some? {
      var i := Active(stages, stage).value;
      forall j | i < j < |stages| && stages[j].stage == stage ensures Over(stages[j].status) {
        assert !OpenAt(stages, stage, j);
      }
    }
  }

  lemma {:induction false} FitsExactly(stages: seq<StageRecord>, stage: Stage, attempt: nat)
    ensures Fits(stages, stage, attempt) <==> AttemptFits(stages, stage, attempt)
  {
    ActiveIsNewest(stages, stage);
  }

  lemma {:induction false} TableExactly(result: StageResult)
    ensures InTable(result.stage, result.action, result.status) <==>
              && Allowed(result.stage, result.action) && result.status == ExpectedStatus(result.action)
              && (result.action.ExecuteStage? ==> Successor(result.stage) == Some(result.action.next))
  {
  }

  /** A result is accepted exactly if its run has not ended, the table has it, and its attempt fits. */
  lemma {:induction false} AcceptedExactly(
    run: Run, result: StageResult, p: Policy, history: seq<StageResult>, now: int)
    ensures ApplyResult(run, result, p, history, now).decision.Ok? <==>
              && !run.record.status.Succeeded? && !run.record.status.Failed?
              && !run.record.status.Canceled? && !run.record.status.Superseded?
              && InTable(result.stage, result.action, result.status)
              && AttemptFits(run.stages, result.stage, result.attempt)
  {
    RefusedExactly(run, result, p, history, now);
    TerminalStatuses(run.record.status, StageStatus.Pending);
    FitsExactly(run.stages, result.stage, result.attempt);
    TableExactly(result);
  }

  /** What a decision that carries out its action says: how the stage and the run end up, and where it goes next. */
  predicate Means(d: Decision, stage: Stage) {
    match d.action
    case ExecuteStage(next) => Ends(d, StageStatus.Succeeded, RunStatus.Running) && d.nextStage == Some(next)
    case Merge => Ends(d, StageStatus.Succeeded, RunStatus.Running) && d.nextStage == Some(Release)
    case PhaseRound => Ends(d, StageStatus.Succeeded, RunStatus.Running) && d.nextStage == Some(Specification)
    case ReleaseNow => Ends(d, StageStatus.Succeeded, RunStatus.Succeeded) && d.nextStage == None
    case WaitForInput | WaitForCi | RequestApproval =>
      Ends(d, StageStatus.Waiting, RunStatus.Waiting) && d.nextStage == None
    case Rework(_) =>
      && Ends(d, StageStatus.Failed, RunStatus.Running)
      && d.nextStage == Some(if stage == ReviewVerification then Construction else stage)
    case Stop(Blocked) => Ends(d, StageStatus.Blocked, RunStatus.Blocked) && d.nextStage == None
    case Stop(Failed) => Ends(d, StageStatus.Failed, RunStatus.Failed) && d.nextStage == None
    case Stop(Canceled) => Ends(d, StageStatus.Canceled, RunStatus.Canceled) && d.nextStage == None
  }

  /** The outcome is what the decision says, in the rows: the entered one, and one open for the stage that is next. */
  ghost predicate RowsFollow(run: Run, result: StageResult, o: Outcome) {
    && o.decision.Ok?
    && var d := o.decision.value;
       && d.stage == result.stage && o.run.record.status == d.runStatus
       && (exists i: nat :: i < |o.run.stages| && o.run.stages[i].stage == result.stage
                            && o.run.stages[i].attempt == result.attempt && o.run.stages[i].status == d.stageStatus)
       && (d.nextStage.Some? ==> HasOpen(o.run.stages, d.nextStage.value))
       && o.run.usedRework == run.usedRework + if d.action.Rework? then 1 else 0
  }

  /** Every decision means what its action says, and run and stage rows follow it. */
  lemma {:induction false} DecisionsMean(
    run: Run, result: StageResult, p: Policy, history: seq<StageResult>, now: int)
    requires Acceptable(run, result)
    ensures var o := ApplyResult(run, result, p, history, now);
            RowsFollow(run, result, o) && Means(o.decision.value, result.stage)
  {
    RefusedExactly(run, result, p, history, now);
    EnterExactly(run.stages, result, now);
    EnterInProgress(run.stages, result, now);
    RunningIsReachable(run.record.status);
    var (stages, i) := Enter(run.stages, result, now).value;
    HandledMeans(run, Prepared(run, stages, result, now), i, result, p, history, now);
  }

  lemma {:induction false} HandledMeans(
    run: Run, pre: Run, i: nat, result: StageResult, p: Policy, history: seq<StageResult>, now: int)
    requires i < |pre.stages| && pre.stages[i].status.InProgress? && pre.record.status.Running?
    requires pre.stages[i].stage == result.stage && pre.stages[i].attempt == result.attempt
    requires pre.usedRework == run.usedRework && Allowed(result.stage, result.action)
    requires result.action.ExecuteStage? ==> Successor(result.stage) == Some(result.action.next)
    ensures var o := Handle(pre, i, result, p, history, now);
            RowsFollow(run, result, o) && Means(o.decision.value, result.stage)
  {
    DecisionMeans(pre, i, result, p, history, now);
    HandledRows(pre, i, result, p, history, now);
  }

  lemma {:induction false} DecisionMeans(
    pre: Run, i: nat, result: StageResult, p: Policy, history: seq<StageResult>, now: int)
    requires i < |pre.stages| && pre.stages[i].status.InProgress? && pre.record.status.Running?
    requires pre.stages[i].stage == result.stage && Allowed(result.stage, result.action)
    requires result.action.ExecuteStage? ==> Successor(result.stage) == Some(result.action.next)
    ensures var o := Handle(pre, i, result, p, history, now);
            && o.decision.Ok? && Means(o.decision.value, result.stage) && o.decision.value.stage == result.stage
            && o.run.usedRework == pre.usedRework + if o.decision.value.action.Rework? then 1 else 0
  {
  }

  /** The outcome of a handler on stage run `i`, in the rows. */
  ghost predicate RowsMoved(pre: Run, i: nat, o: Outcome) {
    o.decision.Ok? ==>
      && i < |pre.stages| && i < |o.run.stages|
      && o.run.stages[i].stage == pre.stages[i].stage && o.run.stages[i].attempt == pre.stages[i].attempt
      && o.run.stages[i].status == o.decision.value.stageStatus && o.run.record.status == o.decision.value.runStatus
      && (o.decision.value.nextStage.Some? ==> HasOpen(o.run.stages, o.decision.value.nextStage.value))
  }

  lemma {:induction false} SettleRows(run: Run, i: nat, st: StageStatus, rt: RunStatus, action: Action, now: int)
    requires i < |run.stages|
    ensures RowsMoved(run, i, Settle(run, i, st, rt, action, now))
  {
  }

  lemma {:induction false} ChainRows(
    run: Run, i: nat, st: StageStatus, target: Stage, again: bool, action: Action, now: int)
    requires i < |run.stages|
    ensures RowsMoved(run, i, Chain(run, i, st, target, again, action, now))
  {
    if st in StageTargets(run.stages[i].status) {
      var moved := run.stages[i := StageMoved(run.stages[i], st, now)];
      StartedOpens(moved, target);
      AddedOpens(moved, target);
    }
  }

  lemma {:induction false} AddedOpens(stages: seq<StageRecord>, target: Stage)
    ensures HasOpen(stages + [FreshStage(target)], target)
  {
    assert OpenAt(stages + [FreshStage(target)], target, |stages|);
  }

  lemma {:induction false} StartedOpens(stages: seq<StageRecord>, target: Stage)
    ensures HasOpen(Started(stages, target), target)
  {
    AddedOpens(stages, target);
  }

  lemma {:induction false} HandledRows(
    pre: Run, i: nat, result: StageResult, p: Policy, history: seq<StageResult>, now: int)
    requires i < |pre.stages|
    ensures RowsMoved(pre, i, Handle(pre, i, result, p, history, now))
  {
    var a := result.action;
    SettleRows(pre, i, StageStatus.Blocked, RunStatus.Blocked, Stop(StopOutcome.Blocked), now);
    SettleRows(pre, i, StageStatus.Waiting, RunStatus.Waiting, a, now);
    match a
    case ExecuteStage(next) => ChainRows(pre, i, StageStatus.Succeeded, next, false, a, now);
    case WaitForInput | WaitForCi | RequestApproval =>
    case Rework(_) =>
      var target := ReworkTarget(result.stage);
      var spent := pre.(usedRework := pre.usedRework + 1);
      ChainRows(spent, i, StageStatus.Failed, target, target == result.stage, a, now);
    case PhaseRound => ChainRows(pre, i, StageStatus.Succeeded, result.stage, true, a, now);
    case Merge =>
      SettleRows(pre, i, StageStatus.Waiting, RunStatus.Waiting, WaitForInput, now);
      if Successor(result.stage).Some? {
        ChainRows(pre, i, StageStatus.Succeeded, Successor(result.stage).value, false, a, now);
      }
    case ReleaseNow => SettleRows(pre, i, StageStatus.Succeeded, RunStatus.Succeeded, a, now);
    case Stop(o) => SettleRows(pre, i, StopStage(o), StopRun(o), a, now);
  }

  /** The usage counted is the reported total or else the sum of both parts, and a missing report counts nothing. */
  lemma {:induction false} UsageExactly(
    run: Run, result: StageResult, p: Policy, history: seq<StageResult>, now: int)
    requires Acceptable(run, result)
    ensures var spend, u := ApplyResult(run, result, p, history, now).run.spend, result.usage;
            && (u == None ==> spend == run.spend)
            && (u.Some? ==>
                  && (u.value.total == None ==> spend.tokens == run.spend.tokens + u.value.prompt + u.value.completion)
                  && (u.value.total.Some? ==> spend.tokens == run.spend.tokens + u.value.total.value)
                  && (u.value.cost == None ==> spend.cost == run.spend.cost)
                  && (u.value.cost.Some? ==> spend.cost == run.spend.cost + u.value.cost.value))
  {
    RefusedExactly(run, result, p, history, now);
    EnterExactly(run.stages, result, now);
    EnterInProgress(run.stages, result, now);
    RunningIsReachable(run.record.status);
    var (stages, i) := Enter(run.stages, result, now).value;
    HandleSpends(Prepared(run, stages, result, now), i, result, p, history, now);
  }

  lemma {:induction false} HandleSpends(
    run: Run, i: nat, result: StageResult, p: Policy, history: seq<StageResult>, now: int)
    requires i < |run.stages|
    ensures Handle(run, i, result, p, history, now).run.spend == run.spend
  {
  }

  /** A declared escalation stops whatever would go on. */
  lemma {:induction false} EscalationStops(
    run: Run, result: StageResult, p: Policy, history: seq<StageResult>, now: int)
    requires Acceptable(run, result) && result.escalations != []
    requires result.action.ExecuteStage? || result.action.Rework? || result.action.Merge? || result.action.ReleaseNow?
    ensures ApplyResult(run, result, p, history, now).decision
            == Ok(Decision(result.stage, Stop(StopOutcome.Blocked), StageStatus.Blocked, RunStatus.Blocked, None))
  {
    HonouredExactly(run, result, p, history, now);
    DecisionsMean(run, result, p, history, now);
  }

  // ----- the run the calls mutate

  class FlowRun {
    var record: RunRecord
    var stages: seq<StageRecord>
    var usedRework: nat
    var spend: Spend
    const maxRework: nat
    const limits: Limits
    const maxIterations: Option<nat>

    ghost function View(): Run
      reads this
    {
      Run(record, stages, maxRework, usedRework, limits, spend, maxIterations)
    }

    constructor (run: Run)
      ensures View() == run
    {
      record, stages, usedRework, spend := run.record, run.stages, run.usedRework, run.spend;
      maxRework, limits, maxIterations := run.maxRework, run.limits, run.maxIterations;
    }

    method MoveStage(i: nat, target: StageStatus, now: int) returns (ok: bool)
      requires i < |stages|
      modifies this
      ensures ok <==> target in StageTargets(old(stages[i]).status)
      ensures !ok ==> View() == old(View())
      ensures ok ==> View() == old(View()).(stages := old(stages)[i := StageMoved(old(stages)[i], target, now)])
    {
      ok := target in StageTargets(stages[i].status);
      if ok {
        stages := stages[i := StageMoved(stages[i], target, now)];
      }
    }

    method MoveRun(target: RunStatus, now: int) returns (ok: bool)
      modifies this
      ensures ok <==> target in RunTargets(old(record).status)
      ensures !ok ==> View() == old(View())
      ensures ok ==> View() == old(View()).(record := RunMoved(old(record), target, now))
    {
      ok := target in RunTargets(record.status);
      if ok {
        record := RunMoved(record, target, now);
      }
    }

    method SettleBoth(i: nat, st: StageStatus, rt: RunStatus, action: Action, now: int)
      returns (d: Result<Decision, FlowError>)
      requires i < |stages|
      modifies this
      ensures Outcome(View(), d) == old(Settle(View(), i, st, rt, action, now))
    {
      ghost var v := View();
      var stage := stages[i].stage;
      var moved := MoveStage(i, st, now);
      if !moved {
        assert Settle(v, i, st, rt, action, now) == Outcome(v, Err(IllegalMove));
        return Err(IllegalMove);
      }
      ghost var w := View();
      var settled := MoveRun(rt, now);
      if !settled {
        assert Settle(v, i, st, rt, action, now) == Outcome(w, Err(IllegalMove));
        return Err(IllegalMove);
      }
      d := Ok(Decision(stage, action, st, rt, None));
      assert Settle(v, i, st, rt, action, now) == Outcome(w.(record := RunMoved(v.record, rt, now)), d);
    }

    method StopRunHere(i: nat, now: int) returns (d: Result<Decision, FlowError>)
      requires i < |stages|
      modifies this
      ensures Outcome(View(), d) == old(StopHere(View(), i, now))
    {
      d := SettleBoth(i, StageStatus.Blocked, RunStatus.Blocked, Stop(StopOutcome.Blocked), now);
    }

    method ChainTo(i: nat, st: StageStatus, target: Stage, again: bool, action: Action, now: int)
      returns (d: Result<Decision, FlowError>)
      requires i < |stages|
      modifies this
      ensures Outcome(View(), d) == old(Chain(View(), i, st, target, again, action, now))
    {
      ghost var v := View();
      var stage := stages[i].stage;
      var moved := MoveStage(i, st, now);
      if !moved {
        assert Chain(v, i, st, target, again, action, now) == Outcome(v, Err(IllegalMove));
        return Err(IllegalMove);
      }
      ghost var w := View();
      if again || !HasOpen(stages, target) {
        stages := stages + [FreshStage(target)];
      }
      d := Ok(Decision(stage, action, st, record.status, Some(target)));
      assert View() == w.(stages := stages);
      assert Chain(v, i, st, target, again, action, now) == Outcome(w.(stages := stages), d);
    }

    method Rework(i: nat, result: StageResult, round: nat, now: int) returns (d: Result<Decision, FlowError>)
      requires i < |stages|
      modifies this
      ensures Outcome(View(), d) == old(HandleRework(View(), i, result, round, now))
    {
      var exhausted := maxIterations.Some? && |stages| >= maxIterations.value;
      if Escalates(result) || exhausted || usedRework >= maxRework || round > maxRework {
        d := StopRunHere(i, now);
      } else {
        usedRework := usedRework + 1;
        var target := ReworkTarget(result.stage);
        d := ChainTo(i, StageStatus.Failed, target, target == result.stage, result.action, now);
      }
    }

    method ReleaseRun(i: nat, result: StageResult, p: Policy, history: seq<StageResult>, now: int)
      returns (d: Result<Decision, FlowError>)
      requires i < |stages|
      modifies this
      ensures Outcome(View(), d) == old(HandleRelease(View(), i, result, p, history, now))
    {
      var spent := Exhausted(limits, spend, now);
      if p.gates || spent || Escalates(result) || p.band {
        d := StopRunHere(i, now);
        return;
      }
      var violations := ReadModels.FindCompletionViolations(RunStatus.Succeeded, history + [result]);
      if violations != [] {
        d := StopRunHere(i, now);
      } else {
        d := SettleBoth(i, StageStatus.Succeeded, RunStatus.Succeeded, result.action, now);
      }
    }

    method Execute(i: nat, result: StageResult, p: Policy, next: Stage, now: int)
      returns (d: Result<Decision, FlowError>)
      requires i < |stages|
      modifies this
      ensures Outcome(View(), d) == old(HandleExecute(View(), i, result, p, next, now))
    {
      if Successor(result.stage) != Some(next) {
        return Err(InvalidFlow);
      }
      var spent := Exhausted(limits, spend, now);
      var exhausted := maxIterations.Some? && |stages| >= maxIterations.value;
      if p.gates || spent || Escalates(result) || p.obligations || exhausted {
        d := StopRunHere(i, now);
      } else {
        d := ChainTo(i, StageStatus.Succeeded, next, false, result.action, now);
      }
    }

    method MergeRun(i: nat, result: StageResult, p: Policy, now: int) returns (d: Result<Decision, FlowError>)
      requires i < |stages|
      modifies this
      ensures Outcome(View(), d) == old(HandleMerge(View(), i, result, p, now))
    {
      var target := Successor(result.stage);
      if target.None? {
        return Err(NoSuccessor);
      }
      var spent := Exhausted(limits, spend, now);
      if p.gates || spent || Escalates(result) || p.band || p.merge.MergeBlocked? {
        d := StopRunHere(i, now);
      } else if p.merge.ManualMerge? {
        d := SettleBoth(i, StageStatus.Waiting, RunStatus.Waiting, WaitForInput, now);
      } else {
        d := ChainTo(i, StageStatus.Succeeded, target.value, false, result.action, now);
      }
    }

    method HandleAction(i: nat, result: StageResult, p: Policy, history: seq<StageResult>, now: int)
      returns (d: Result<Decision, FlowError>)
      requires i < |stages|
      modifies this
      ensures Outcome(View(), d) == old(Handle(View(), i, result, p, history, now))
    {
      match result.action
      case ExecuteStage(next) => d := Execute(i, result, p, next, now);
      case WaitForInput | WaitForCi | RequestApproval =>
        d := SettleBoth(i, StageStatus.Waiting, RunStatus.Waiting, result.action, now);
      case Rework(round) => d := Rework(i, result, round, now);
      case PhaseRound => d := ChainTo(i, StageStatus.Succeeded, result.stage, true, result.action, now);
      case Merge => d := MergeRun(i, result, p, now);
      case ReleaseNow => d := ReleaseRun(i, result, p, history, now);
      case Stop(o) => d := SettleBoth(i, StopStage(o), StopRun(o), result.action, now);
    }

    /** Find the stage run of the result, retry it where the attempt says so, and put it in progress. */
    method EnsureStageRun(result: StageResult, now: int) returns (r: Result<nat, FlowError>)
      modifies this
      ensures r.Ok? <==> old(Enter(stages, result, now)).Ok?
      ensures r.Ok? ==> r.value < |stages| && old(Enter(stages, result, now)) == Ok((stages, r.value))
      ensures r.Ok? ==> View() == old(View()).(stages := stages)
      ensures r.Err? ==> View() == old(View()) && old(Enter(stages, result, now)) == Err(r.error)
    {
      var active := Active(stages, result.stage);
      if active.Some? {
        var i := active.value;
        var entered := Entry(stages[i], result.attempt, now);
        if entered.Err? {
          return Err(entered.error);
        }
        stages := stages[i := entered.value];
        r := Ok(i);
      } else {
        if result.attempt != 1 {
          return Err(StaleAttempt);
        }
        stages := stages + [StageMoved(FreshStage(result.stage), StageStatus.InProgress, now)];
        r := Ok(|stages| - 1);
      }
    }

    method Apply(result: StageResult, p: Policy, history: seq<StageResult>, now: int)
      returns (d: Result<Decision, FlowError>)
      modifies this
      ensures Outcome(View(), d) == old(ApplyResult(View(), result, p, history, now))
    {
      if RunTerminal(record.status) {
        return Err(TerminalRun);
      }
      if !Allowed(result.stage, result.action) {
        return Err(InvalidFlow);
      }
      if result.status != ExpectedStatus(result.action) {
        return Err(StatusMismatch);
      }
      d := EnterAndHandle(result, p, history, now);
    }

    method EnterAndHandle(result: StageResult, p: Policy, history: seq<StageResult>, now: int)
      returns (d: Result<Decision, FlowError>)
      requires !RunTerminal(record.status)
      requires Allowed(result.stage, result.action) && result.status == ExpectedStatus(result.action)
      modifies this
      ensures Outcome(View(), d) == old(ApplyResult(View(), result, p, history, now))
    {
      ghost var v := View();
      var entered := EnsureStageRun(result, now);
      if entered.Err? {
        return Err(entered.error);
      }
      ghost var s := stages;
      RunningIsReachable(record.status);
      if !record.status.Running? {
        var ok := MoveRun(RunStatus.Running, now);
        assert ok;
      }
      spend := Added(spend, result);
      assert View() == Prepared(v, s, result, now);
      d := HandleAction(entered.value, result, p, history, now);
    }
  }
}
