/**
 Runs and stage runs: their transition tables, the calls that move them in place, the walks the store takes
 through the tables, and the withdrawal of a run.
 */
module Lifecycle {
  import opened Base

  datatype Stage = Specification | Planning | Construction | ReviewVerification | Release

  /** Where the stage stands on every route. */
  function Position(s: Stage): nat {
    match s
    case Specification => 0
    case Planning => 1
    case Construction => 2
    case ReviewVerification => 3
    case Release => 4
  }

  datatype RunStatus = Pending | Running | Waiting | Blocked | Succeeded | Failed | Canceled | Superseded

  datatype StageStatus =
    | Pending | InProgress | Waiting | Succeeded | Failed | Blocked | Skipped | Superseded | Canceled

  datatype Refusal = InvalidStatusTransition

  function RunTargets(s: RunStatus): set<RunStatus> {
    match s
    case Pending => {RunStatus.Running, RunStatus.Canceled, RunStatus.Superseded}
    case Running =>
      {RunStatus.Waiting, RunStatus.Blocked, RunStatus.Succeeded,
       RunStatus.Failed, RunStatus.Canceled, RunStatus.Superseded}
    case Waiting => {RunStatus.Running, RunStatus.Blocked, RunStatus.Failed, RunStatus.Canceled, RunStatus.Superseded}
    case Blocked => {RunStatus.Running, RunStatus.Failed, RunStatus.Canceled, RunStatus.Superseded}
    case Succeeded | Failed | Canceled | Superseded => {}
  }

  function StageTargets(s: StageStatus): set<StageStatus> {
    match s
    case Pending => {StageStatus.InProgress, StageStatus.Skipped, StageStatus.Canceled, StageStatus.Superseded}
    case InProgress =>
      {StageStatus.Waiting, StageStatus.Succeeded, StageStatus.Failed, StageStatus.Blocked, StageStatus.Canceled,
       StageStatus.Superseded}
    case Waiting =>
      {StageStatus.InProgress, StageStatus.Failed, StageStatus.Blocked, StageStatus.Canceled, StageStatus.Superseded}
    case Blocked => {StageStatus.InProgress, StageStatus.Failed, StageStatus.Canceled, StageStatus.Superseded}
    case Failed => {StageStatus.InProgress, StageStatus.Canceled, StageStatus.Superseded}
    case Succeeded | Skipped | Superseded | Canceled => {}
  }

  predicate RunTerminal(s: RunStatus) { RunTargets(s) == {} }

  predicate StageTerminal(s: StageStatus) { StageTargets(s) == {} }

  predicate Retryable(s: StageStatus) { s.Failed? || s.Blocked? }

  lemma {:induction false} TerminalStatuses(r: RunStatus, s: StageStatus)
    ensures RunTerminal(r) <==> r.Succeeded? || r.Failed? || r.Canceled? || r.Superseded?
    ensures StageTerminal(s) <==> s.Succeeded? || s.Skipped? || s.Superseded? || s.Canceled?
  {
    assert !r.Succeeded? && !r.Failed? && !r.Canceled? && !r.Superseded? ==> RunStatus.Canceled in RunTargets(r);
    assert !s.Succeeded? && !s.Skipped? && !s.Canceled? && !s.Superseded? ==> StageStatus.Canceled in StageTargets(s);
  }

  datatype StageRecord = StageRecord(
    stage: Stage, status: StageStatus, attempt: nat, revision: nat, finishedAt: Option<int>)

  datatype RunRecord = RunRecord(status: RunStatus, revision: nat, updatedAt: int, finishedAt: Option<int>)

  function FreshStage(stage: Stage): StageRecord {
    StageRecord(stage, StageStatus.Pending, 1, 1, None)
  }

  function FreshRun(now: int): RunRecord {
    RunRecord(RunStatus.Pending, 1, now, None)
  }

  /** The record after a move the table allows. */
  function StageMoved(s: StageRecord, target: StageStatus, now: int): StageRecord {
    s.(status := target, revision := s.revision + 1,
       finishedAt := if StageTerminal(target) then Some(now) else s.finishedAt)
  }

  function RunMoved(r: RunRecord, target: RunStatus, now: int): RunRecord {
    r.(status := target, revision := r.revision + 1, updatedAt := now,
       finishedAt := if RunTerminal(target) then Some(now) else r.finishedAt)
  }

  // ----- every sequence of calls on a fresh stage run

  datatype StageCall = ApplyStatus(target: StageStatus, now: int) | BeginRetry(attempt: int)

  predicate Accepts(s: StageRecord, call: StageCall) {
    match call
    case ApplyStatus(target, _) => target in StageTargets(s.status)
    case BeginRetry(attempt) => Retryable(s.status) && attempt == s.attempt + 1
  }

  function StageStep(s: StageRecord, call: StageCall): StageRecord {
    if !Accepts(s, call) then s
    else match call
      case ApplyStatus(target, now) => StageMoved(s, target, now)
      case BeginRetry(attempt) => s.(attempt := s.attempt + 1)
  }

  function StageAfter(stage: Stage, calls: seq<StageCall>): StageRecord {
    if calls == [] then FreshStage(stage)
    else StageStep(StageAfter(stage, calls[..|calls| - 1]), calls[|calls| - 1])
  }

  /** How many of the calls were accepted moves, and how many accepted retries. */
  function Accepted(stage: Stage, calls: seq<StageCall>, retries: bool): nat {
    if calls == [] then 0
    else
      var last := calls[|calls| - 1];
      Accepted(stage, calls[..|calls| - 1], retries)
      + if last.BeginRetry? == retries && Accepts(StageAfter(stage, calls[..|calls| - 1]), last) then 1 else 0
  }

  lemma {:induction false} StageHistory(stage: Stage, calls: seq<StageCall>)
    ensures var s := StageAfter(stage, calls);
            && s.stage == stage
            && s.revision == 1 + Accepted(stage, calls, false)
            && s.attempt == 1 + Accepted(stage, calls, true)
            && (s.finishedAt.Some? <==> StageTerminal(s.status))
  {
    if calls != [] {
      StageHistory(stage, calls[..|calls| - 1]);
      TerminalStatuses(RunStatus.Pending, StageAfter(stage, calls[..|calls| - 1]).status);
    }
  }

  /** No call moves a stage run that reached a terminal status. */
  lemma {:induction false} TerminalStageAbsorbs(stage: Stage, calls: seq<StageCall>, more: seq<StageCall>)
    requires StageTerminal(StageAfter(stage, calls).status)
    ensures StageAfter(stage, calls + more) == StageAfter(stage, calls)
  {
    if more == [] {
      assert calls + more == calls;
    } else {
      TerminalStageAbsorbs(stage, calls, more[..|more| - 1]);
      assert (calls + more)[..|calls + more| - 1] == calls + more[..|more| - 1];
      TerminalStatuses(RunStatus.Pending, StageAfter(stage, calls).status);
    }
  }

  /** A succeeded stage was in progress when a call made it succeed, and finished at that call's time. */
  lemma {:induction false} StageSucceedsFromProgress(stage: Stage, calls: seq<StageCall>) returns (i: nat)
    requires StageAfter(stage, calls).status.Succeeded?
    ensures i < |calls| && StageAfter(stage, calls[..i]).status.InProgress?
    ensures calls[i].ApplyStatus? && calls[i].target.Succeeded?
    ensures StageAfter(stage, calls).finishedAt == Some(calls[i].now)
  {
    i := |calls| - 1;
    var before := StageAfter(stage, calls[..i]);
    if before.status.Succeeded? {
      var j := StageSucceedsFromProgress(stage, calls[..i]);
      assert calls[..i][..j] == calls[..j];
      i := j;
    }
  }

  /** Two accepted retries of one stage run carry different attempt numbers. */
  lemma {:induction false} AttemptsOnlyGrow(stage: Stage, calls: seq<StageCall>, i: nat, j: nat)
    requires i < j <= |calls|
    ensures StageAfter(stage, calls[..i]).attempt <= StageAfter(stage, calls[..j]).attempt
    ensures calls[i].BeginRetry? && Accepts(StageAfter(stage, calls[..i]), calls[i]) ==>
              StageAfter(stage, calls[..i]).attempt < calls[i].attempt <= StageAfter(stage, calls[..j]).attempt
  {
    assert calls[..j][..j - 1] == calls[..j - 1];
    if i + 1 < j {
      AttemptsOnlyGrow(stage, calls, i, j - 1);
    }
  }

  /** A retry leaves the status alone, so any number of them is accepted in a row without one move between. */
  function Retries(first: nat, n: nat): seq<StageCall> {
    if n == 0 then [] else Retries(first, n - 1) + [BeginRetry(first + n)]
  }

  lemma {:induction false} RetriesNeedNoMove(stage: Stage, calls: seq<StageCall>, n: nat)
    requires Retryable(StageAfter(stage, calls).status)
    ensures var s := StageAfter(stage, calls);
            StageAfter(stage, calls + Retries(s.attempt, n)) == s.(attempt := s.attempt + n)
  {
    var s := StageAfter(stage, calls);
    var all := calls + Retries(s.attempt, n);
    if n == 0 {
      assert all == calls;
    } else {
      RetriesNeedNoMove(stage, calls, n - 1);
      assert all[..|all| - 1] == calls + Retries(s.attempt, n - 1);
    }
  }

  // ----- every sequence of calls on a fresh run

  datatype RunCall = RunCall(target: RunStatus, now: int)

  function RunStep(r: RunRecord, call: RunCall): RunRecord {
    if call.target in RunTargets(r.status) then RunMoved(r, call.target, call.now) else r
  }

  function RunAfter(t: int, calls: seq<RunCall>): RunRecord {
    if calls == [] then FreshRun(t) else RunStep(RunAfter(t, calls[..|calls| - 1]), calls[|calls| - 1])
  }

  function RunAccepted(t: int, calls: seq<RunCall>): nat {
    if calls == [] then 0
    else RunAccepted(t, calls[..|calls| - 1])
         + if calls[|calls| - 1].target in RunTargets(RunAfter(t, calls[..|calls| - 1]).status) then 1 else 0
  }

  lemma {:induction false} RunHistory(t: int, calls: seq<RunCall>)
    ensures var r := RunAfter(t, calls);
            && r.revision == 1 + RunAccepted(t, calls)
            && (r.finishedAt.Some? <==> RunTerminal(r.status))
            && (r.finishedAt.Some? ==> r.finishedAt.value == r.updatedAt)
  {
    if calls != [] {
      RunHistory(t, calls[..|calls| - 1]);
      TerminalStatuses(RunAfter(t, calls[..|calls| - 1]).status, StageStatus.Pending);
    }
  }

  /** A succeeded run was running when a call made it succeed, and finished at that call's time. */
  lemma {:induction false} RunSucceedsFromRunning(t: int, calls: seq<RunCall>) returns (i: nat)
    requires RunAfter(t, calls).status.Succeeded?
    ensures i < |calls| && RunAfter(t, calls[..i]).status.Running? && calls[i].target.Succeeded?
    ensures RunAfter(t, calls).finishedAt == Some(calls[i].now)
  {
    i := |calls| - 1;
    if RunAfter(t, calls[..i]).status.Succeeded? {
      var j := RunSucceedsFromRunning(t, calls[..i]);
      assert calls[..i][..j] == calls[..j];
      i := j;
    }
  }

  lemma {:induction false} TerminalRunAbsorbs(t: int, calls: seq<RunCall>, more: seq<RunCall>)
    requires RunTerminal(RunAfter(t, calls).status)
    ensures RunAfter(t, calls + more) == RunAfter(t, calls)
  {
    if more == [] {
      assert calls + more == calls;
    } else {
      TerminalRunAbsorbs(t, calls, more[..|more| - 1]);
      assert (calls + more)[..|calls + more| - 1] == calls + more[..|more| - 1];
    }
  }

  // ----- the tables, by where a move leads

  /** Where a run can come from, target by target. */
  predicate RunEdge(from: RunStatus, target: RunStatus) {
    match target
    case Pending => false
    case Running => from.Pending? || from.Waiting? || from.Blocked?
    case Waiting | Succeeded => from.Running?
    case Blocked => from.Running? || from.Waiting?
    case Failed => from.Running? || from.Waiting? || from.Blocked?
    case Canceled | Superseded => from.Pending? || from.Running? || from.Waiting? || from.Blocked?
  }

  /** Where a stage run can come from, target by target. */
  predicate StageEdge(from: StageStatus, target: StageStatus) {
    match target
    case Pending => false
    case InProgress => from.Pending? || from.Waiting? || from.Blocked? || from.Failed?
    case Waiting | Succeeded => from.InProgress?
    case Failed => from.InProgress? || from.Waiting? || from.Blocked?
    case Blocked => from.InProgress? || from.Waiting?
    case Skipped => from.Pending?
    case Canceled | Superseded =>
      from.Pending? || from.InProgress? || from.Waiting? || from.Blocked? || from.Failed?
  }

  /** A call moves a run exactly along these edges, and a move counts, is timed, and ends the run or not. */
  lemma {:induction false} RunMovesExactly(r: RunRecord, call: RunCall)
    ensures RunStep(r, call)
            == if RunEdge(r.status, call.target)
               then RunRecord(call.target, r.revision + 1, call.now,
                              if call.target in {RunStatus.Succeeded, RunStatus.Failed, RunStatus.Canceled,
                                                 RunStatus.Superseded}
                              then Some(call.now) else r.finishedAt)
               else r
  {
    TerminalStatuses(call.target, StageStatus.Pending);
  }

  /** The same for a stage run; and a retry only raises the attempt number, by one, after a failure or a block. */
  lemma {:induction false} StageMovesExactly(s: StageRecord, call: StageCall)
    ensures StageStep(s, call)
            == match call
               case ApplyStatus(target, now) =>
                 if StageEdge(s.status, target)
                 then StageRecord(s.stage, target, s.attempt, s.revision + 1,
                                  if target in {StageStatus.Succeeded, StageStatus.Skipped, StageStatus.Canceled,
                                                StageStatus.Superseded}
                                  then Some(now) else s.finishedAt)
                 else s
               case BeginRetry(attempt) =>
                 if (s.status.Failed? || s.status.Blocked?) && attempt == s.attempt + 1
                 then s.(attempt := s.attempt + 1) else s
  {
    if call.ApplyStatus? {
      TerminalStatuses(RunStatus.Pending, call.target);
    }
  }

  // ----- the walks the store takes through the tables

  function StagePath(current: StageStatus, target: StageStatus): Result<seq<StageStatus>, Refusal> {
    if current == target then Ok([])
    else if target in StageTargets(current) then Ok([target])
    else if StageStatus.InProgress in StageTargets(current) && target in StageTargets(StageStatus.InProgress) then
      Ok([StageStatus.InProgress, target])
    else Err(InvalidStatusTransition)
  }

  function RunPath(current: RunStatus, target: RunStatus): Result<seq<RunStatus>, Refusal> {
    if current == target then Ok([])
    else if target in RunTargets(current) then Ok([target])
    else if RunStatus.Running in RunTargets(current) && target in RunTargets(RunStatus.Running) then
      Ok([RunStatus.Running, target])
    else Err(InvalidStatusTransition)
  }

  ghost predicate StageWalk(current: StageStatus, walk: seq<StageStatus>) {
    forall i :: 0 <= i < |walk| ==> walk[i] in StageTargets(StageEnd(current, walk[..i]))
  }

  ghost predicate RunWalk(current: RunStatus, walk: seq<RunStatus>) {
    forall i :: 0 <= i < |walk| ==> walk[i] in RunTargets(RunEnd(current, walk[..i]))
  }

  function StageEnd(current: StageStatus, walk: seq<StageStatus>): StageStatus {
    if walk == [] then current else walk[|walk| - 1]
  }

  function RunEnd(current: RunStatus, walk: seq<RunStatus>): RunStatus {
    if walk == [] then current else walk[|walk| - 1]
  }

  lemma {:induction false} StagePathIsLegal(current: StageStatus, target: StageStatus)
    requires StagePath(current, target).Ok?
    ensures var walk := StagePath(current, target).value;
            StageWalk(current, walk) && StageEnd(current, walk) == target
  {
  }

  /** The store finds a walk whenever the table has one of any length, and never a longer one. */
  lemma {:induction false} StagePathIsComplete(current: StageStatus, walk: seq<StageStatus>)
    requires StageWalk(current, walk)
    ensures StagePath(current, StageEnd(current, walk)).Ok?
    ensures var path := StagePath(current, StageEnd(current, walk)).value;
            |path| <= |walk| && StageWalk(current, path) && StageEnd(current, path) == StageEnd(current, walk)
  {
    if |walk| >= 2 {
      var init := walk[..|walk| - 1];
      assert StageWalk(current, init) by {
        forall i | 0 <= i < |init| ensures init[i] in StageTargets(StageEnd(current, init[..i])) {
          assert walk[i] in StageTargets(StageEnd(current, walk[..i])) && walk[..i] == init[..i];
        }
      }
      StagePathIsComplete(current, init);
      assert walk[|walk| - 1] in StageTargets(StageEnd(current, init));
    } else if |walk| == 1 {
      assert walk[0] in StageTargets(StageEnd(current, walk[..0]));
    }
  }

  /** The same for runs: the path found is a legal walk to the target, and no longer than any other. */
  lemma {:induction false} RunPathIsComplete(current: RunStatus, walk: seq<RunStatus>)
    requires RunWalk(current, walk)
    ensures RunPath(current, RunEnd(current, walk)).Ok?
    ensures var path := RunPath(current, RunEnd(current, walk)).value;
            |path| <= |walk| && RunWalk(current, path) && RunEnd(current, path) == RunEnd(current, walk)
  {
    if |walk| >= 2 {
      var init := walk[..|walk| - 1];
      assert RunWalk(current, init) by {
        forall i | 0 <= i < |init| ensures init[i] in RunTargets(RunEnd(current, init[..i])) {
          assert walk[i] in RunTargets(RunEnd(current, walk[..i])) && walk[..i] == init[..i];
        }
      }
      RunPathIsComplete(current, init);
      assert walk[|walk| - 1] in RunTargets(RunEnd(current, init));
    } else if |walk| == 1 {
      assert walk[0] in RunTargets(RunEnd(current, walk[..0]));
    }
  }

  /** A stage row moved step by step along a walk. */
  function Walked(s: StageRecord, walk: seq<StageStatus>, now: int): StageRecord {
    if walk == [] then s else StageMoved(Walked(s, walk[..|walk| - 1], now), walk[|walk| - 1], now)
  }

  // ----- withdrawing a run

  datatype Withdrawal = Withdrawn | AlreadyWithdrawn | NotWithdrawable | LeaseLost

  datatype Execution = Execution(run: RunRecord, stages: seq<StageRecord>, audit: seq<Withdrawal>)

  function CanceledStage(s: StageRecord, now: int): StageRecord {
    if StageTerminal(s.status) then s else StageMoved(s, StageStatus.Canceled, now)
  }

  function CanceledStages(stages: seq<StageRecord>, now: int): (r: seq<StageRecord>)
    ensures |r| == |stages|
    ensures forall i :: 0 <= i < |r| ==> r[i] == CanceledStage(stages[i], now)
  {
    if stages == [] then []
    else CanceledStages(stages[..|stages| - 1], now) + [CanceledStage(stages[|stages| - 1], now)]
  }

  function WithdrawalOf(e: Execution, leaseFree: bool): Withdrawal {
    if e.run.status.Canceled? then AlreadyWithdrawn
    else if RunTerminal(e.run.status) then NotWithdrawable
    else if !leaseFree then LeaseLost
    else Withdrawn
  }

  function AfterWithdrawal(e: Execution, leaseFree: bool, now: int): Execution {
    match WithdrawalOf(e, leaseFree)
    case AlreadyWithdrawn => e.(audit := e.audit + [AlreadyWithdrawn])
    case NotWithdrawable => e
    case LeaseLost => e
    case Withdrawn =>
      Execution(RunMoved(e.run, RunStatus.Canceled, now), CanceledStages(e.stages, now), e.audit + [Withdrawn])
  }

  /** The cancellation is one table move for every stage run that is not terminal. */
  lemma {:induction false} CancelIsOneMove(s: StageStatus)
    ensures !StageTerminal(s) ==> StagePath(s, StageStatus.Canceled) == Ok([StageStatus.Canceled])
  {
    TerminalStatuses(RunStatus.Pending, s);
  }

  /**
   Any run that is not terminal can be withdrawn whatever its stages; afterwards nothing of it can move, finished
   stages are as they were, and a second withdrawal adds one audit row and changes nothing else.  A run that ended
   otherwise, or whose lease another owner holds, is left exactly as it was.
   */
  lemma {:induction false} WithdrawalEndsTheRun(e: Execution, now: int, later: int, leaseFree: bool)
    ensures WithdrawalOf(e, leaseFree) == Withdrawn <==> !RunTerminal(e.run.status) && leaseFree
    ensures WithdrawalOf(e, leaseFree) == Withdrawn ==>
              RunPath(e.run.status, RunStatus.Canceled).Ok?
              && var w := AfterWithdrawal(e, leaseFree, now);
                 && w.run.status.Canceled? && w.run.finishedAt == Some(now) && w.run.revision == e.run.revision + 1
                 && (forall i :: 0 <= i < |w.stages| ==> StageTerminal(w.stages[i].status))
                 && |w.stages| == |e.stages|
                 && (forall i :: 0 <= i < |e.stages| ==>
                       if StageTerminal(e.stages[i].status) then w.stages[i] == e.stages[i]
                       else StagePath(e.stages[i].status, StageStatus.Canceled) == Ok([StageStatus.Canceled])
                            && w.stages[i] == StageMoved(e.stages[i], StageStatus.Canceled, now))
                 && w.audit == e.audit + [Withdrawn]
                 && forall free :: AfterWithdrawal(w, free, later) == w.(audit := w.audit + [AlreadyWithdrawn])
    ensures WithdrawalOf(e, leaseFree) != Withdrawn ==>
              var w := AfterWithdrawal(e, leaseFree, now);
              w.run == e.run && w.stages == e.stages
              && w.audit == e.audit + if e.run.status.Canceled? then [AlreadyWithdrawn] else []
    ensures WithdrawalOf(e, leaseFree) == AlreadyWithdrawn <==> e.run.status.Canceled?
    ensures WithdrawalOf(e, leaseFree) == NotWithdrawable <==>
              e.run.status.Succeeded? || e.run.status.Failed? || e.run.status.Superseded?
  {
    TerminalStatuses(e.run.status, StageStatus.Canceled);
    forall i | 0 <= i < |e.stages| && !StageTerminal(e.stages[i].status)
      ensures StagePath(e.stages[i].status, StageStatus.Canceled) == Ok([StageStatus.Canceled])
    {
      CancelIsOneMove(e.stages[i].status);
    }
  }

  // ----- the objects the calls mutate

  class StageRun {
    var stage: Stage
    var status: StageStatus
    var attempt: nat
    var revision: nat
    var finishedAt: Option<int>

    ghost function View(): StageRecord
      reads this
    {
      StageRecord(stage, status, attempt, revision, finishedAt)
    }

    constructor (stage: Stage)
      ensures View() == FreshStage(stage)
    {
      this.stage, status, attempt, revision, finishedAt := stage, StageStatus.Pending, 1, 1, None;
    }

    method Apply(target: StageStatus, now: int) returns (r: Result<(), Refusal>)
      modifies this
      ensures r.Ok? <==> old(Accepts(View(), ApplyStatus(target, now)))
      ensures View() == old(StageStep(View(), ApplyStatus(target, now)))
    {
      if target !in StageTargets(status) {
        return Err(InvalidStatusTransition);
      }
      status := target;
      revision := revision + 1;
      if StageTerminal(target) {
        finishedAt := Some(now);
      }
      r := Ok(());
    }

    method Retry(number: int) returns (r: Result<(), Refusal>)
      modifies this
      ensures r.Ok? <==> old(Accepts(View(), BeginRetry(number)))
      ensures View() == old(StageStep(View(), BeginRetry(number)))
    {
      if !Retryable(status) {
        return Err(InvalidStatusTransition);
      }
      if number != attempt + 1 {
        return Err(InvalidStatusTransition);
      }
      attempt := number;
      r := Ok(());
    }

    /** The store's move of a stage row along the walk the table allows. */
    method Advance(target: StageStatus, now: int) returns (r: Result<(), Refusal>)
      modifies this
      ensures r.Ok? <==> old(StagePath(status, target)).Ok?
      ensures r.Err? ==> View() == old(View())
      ensures r.Ok? ==> status == target && View() == old(Walked(View(), StagePath(status, target).value, now))
    {
      var path := StagePath(status, target);
      if path.Err? {
        return Err(path.error);
      }
      StagePathIsLegal(status, target);
      var walk := path.value;
      var i := 0;
      while i < |walk|
        invariant 0 <= i <= |walk|
        invariant View() == old(Walked(View(), walk[..i], now))
        invariant status == StageEnd(old(status), walk[..i])
      {
        assert walk[..i + 1][..i] == walk[..i];
        status := walk[i];
        revision := revision + 1;
        if StageTerminal(status) {
          finishedAt := Some(now);
        }
        i := i + 1;
      }
      assert walk[..|walk|] == walk;
      r := Ok(());
    }
  }

  class ChangeRun {
    var status: RunStatus
    var revision: nat
    var updatedAt: int
    var finishedAt: Option<int>
    var stages: seq<StageRecord>
    var audit: seq<Withdrawal>

    ghost function View(): Execution
      reads this
    {
      Execution(RunRecord(status, revision, updatedAt, finishedAt), stages, audit)
    }

    constructor (now: int)
      ensures View() == Execution(FreshRun(now), [], [])
    {
      status, revision, updatedAt, finishedAt, stages, audit := RunStatus.Pending, 1, now, None, [], [];
    }

    method Apply(target: RunStatus, now: int) returns (r: Result<(), Refusal>)
      modifies this
      ensures r.Ok? <==> target in RunTargets(old(status))
      ensures View() == old(View().(run := RunStep(View().run, RunCall(target, now))))
    {
      if target !in RunTargets(status) {
        return Err(InvalidStatusTransition);
      }
      status := target;
      revision := revision + 1;
      updatedAt := now;
      if RunTerminal(target) {
        finishedAt := Some(updatedAt);
      }
      r := Ok(());
    }

    method CancelStages(now: int)
      modifies this
      ensures View() == old(View().(stages := CanceledStages(stages, now)))
    {
      var i := 0;
      while i < |stages|
        invariant 0 <= i <= |stages| == |old(stages)|
        invariant forall k :: 0 <= k < |stages| ==>
                    stages[k] == if k < i then CanceledStage(old(stages)[k], now) else old(stages)[k]
        invariant View() == old(View()).(stages := stages)
      {
        var row := stages[i];
        if !StageTerminal(row.status) {
          stages := stages[i := StageMoved(row, StageStatus.Canceled, now)];
        }
        i := i + 1;
      }
      assert stages == old(CanceledStages(stages, now));
    }

    method Withdraw(leaseFree: bool, now: int) returns (outcome: Withdrawal)
      modifies this
      ensures outcome == old(WithdrawalOf(View(), leaseFree))
      ensures View() == old(AfterWithdrawal(View(), leaseFree, now))
    {
      if status.Canceled? {
        audit := audit + [AlreadyWithdrawn];
        return AlreadyWithdrawn;
      }
      if RunTerminal(status) {
        return NotWithdrawable;
      }
      if !leaseFree {
        return LeaseLost;
      }
      TerminalStatuses(status, StageStatus.Canceled);
      CancelStages(now);
      var moved := Apply(RunStatus.Canceled, now);
      audit := audit + [Withdrawn];
      return Withdrawn;
    }
  }
}
