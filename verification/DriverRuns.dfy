/**
 What holds in every state the driver can reach, and runs in which what its documentation promises does not.
 */
module DriverRuns {
  import opened Base
  import opened StageResults
  import opened L = Lifecycle
  import opened Flow
  import opened Driver
  import ReadModels

  ghost predicate Reachable(sys: System) {
    exists revision, rework, limits, iterations, now, steps ::
      RunOf(FreshRunOf(revision, rework, limits, iterations, now), steps) == sys
  }

  lemma {:induction false} FreshRunInv(revision: string, rework: nat, limits: Limits, iterations: Option<nat>, now: int)
    ensures Inv(FreshRunOf(revision, rework, limits, iterations, now))
  {
    var sys := FreshRunOf(revision, rework, limits, iterations, now);
    assert OpenAt(sys.run.stages, Specification, 0);
  }

  lemma {:induction false} ReachableInv(sys: System)
    requires Reachable(sys)
    ensures Inv(sys)
  {
    var revision, rework, limits, iterations, now, steps :|
      RunOf(FreshRunOf(revision, rework, limits, iterations, now), steps) == sys;
    FreshRunInv(revision, rework, limits, iterations, now);
    RunKeeps(FreshRunOf(revision, rework, limits, iterations, now), steps);
  }

  /**
   A run that succeeded went through the whole route, left no stage open, and is clean: no attempt on file reports
   an open blocker or missing evidence, and neither does any read model.
   */
  lemma {:induction false} SucceededRunIsComplete(sys: System)
    requires Reachable(sys) && sys.run.record.status.Succeeded?
    ensures forall s: Stage :: Done(sys.run.stages, s)
    ensures forall i :: 0 <= i < |sys.run.stages| ==> StageTerminal(sys.run.stages[i].status)
    ensures ReadModels.Violations(History(sys.results)) == [] && ReadModels.CleanOnScreen(History(sys.results))
  {
    ReachableInv(sys);
    var stages := sys.run.stages;
    forall s: Stage ensures Done(stages, s) {
      DoneBelow(stages, Release);
      DoneBelow(stages, ReviewVerification);
      DoneBelow(stages, Construction);
      DoneBelow(stages, Planning);
    }
    NextStageIsFirst(stages);
    forall i | 0 <= i < |stages| ensures StageTerminal(stages[i].status) {
      assert OpenAt(stages, stages[i].stage, i) ==> HasOpen(stages, stages[i].stage);
    }
    AllClean(History(sys.results));
    ReadModels.CompletionIsCleanOnScreen(History(sys.results));
  }

  lemma {:induction false} DoneBelow(stages: seq<StageRecord>, s: Stage)
    requires Chained(stages) && Done(stages, s)
    ensures forall p :: Successor(p) == Some(s) ==> Done(stages, p)
  {
    var j :| 0 <= j < |stages| && stages[j].stage == s && stages[j].status.Succeeded?;
  }

  /** No stage is entered before its predecessor succeeded. */
  lemma {:induction false} NoStageIsSkipped(sys: System, i: nat, p: Stage)
    requires Reachable(sys) && i < |sys.run.stages| && Successor(p) == Some(sys.run.stages[i].stage)
    ensures Done(sys.run.stages, p)
  {
    ReachableInv(sys);
  }

  /** The budget counters are the sums over the decisions taken, and rework stays within its limit. */
  lemma {:induction false} BudgetIsConserved(sys: System)
    requires Reachable(sys)
    ensures sys.run.usedRework == Reworks(sys.log) <= sys.run.maxRework
    ensures sys.run.spend == Spent(sys.log)
  {
    ReachableInv(sys);
  }

  // ----- what a final result decides for good

  /** Results on file are unique per operation and attempt. */
  ghost predicate OneEach(results: seq<Recorded>) {
    forall a, b :: 0 <= a < b < |results| ==>
      results[a].op != results[b].op || results[a].result.attempt != results[b].result.attempt
  }

  lemma {:induction false} HoldsEvery(results: seq<Recorded>, op: nat, a: nat)
    requires OneEach(results)
    ensures forall x :: x in results && x.op == op && x.result.attempt == a ==> Holds(results, op, a) == Some(x.result)
  {
    if results != [] {
      var init, last := results[..|results| - 1], results[|results| - 1];
      HoldsEvery(init, op, a);
      forall x | x in results && x.op == op && x.result.attempt == a ensures Holds(results, op, a) == Some(x.result) {
        var k :| 0 <= k < |results| && results[k] == x;
        if k < |init| {
          assert init[k] == x && x in init;
        }
      }
    }
  }

  lemma {:induction false} WithoutExactly(results: seq<Recorded>, op: nat, a: nat)
    ensures forall x :: x in Without(results, op, a) <==> x in results && !(x.op == op && x.result.attempt == a)
    ensures OneEach(results) ==> OneEach(Without(results, op, a))
  {
    if results != [] {
      var init, last := results[..|results| - 1], results[|results| - 1];
      WithoutExactly(init, op, a);
      assert results == init + [last];
      if OneEach(results) {
        OneEachSnoc(Without(init, op, a), last);
      }
    }
  }

  lemma {:induction false} OneEachSnoc(results: seq<Recorded>, x: Recorded)
    ensures OneEach(results) && (forall y :: y in results ==> y.op != x.op || y.result.attempt != x.result.attempt)
            ==> OneEach(results + [x])
  {
  }

  /** Recording keeps results unique and never touches a final one. */
  lemma {:induction false} FinalsStay(results: seq<Recorded>, op: nat, r: StageResult)
    requires OneEach(results) && Record(results, op, r).Some?
    ensures OneEach(Record(results, op, r).value)
    ensures forall x :: x in results && !x.result.status.Waiting? ==> x in Record(results, op, r).value
  {
    HoldsEvery(results, op, r.attempt);
    WithoutExactly(results, op, r.attempt);
    OneEachSnoc(results, Recorded(op, r));
    OneEachSnoc(Without(results, op, r.attempt), Recorded(op, r));
  }

  lemma {:induction false} StepKeepsFinals(sys: System, step: Step)
    requires Inv(sys) && OneEach(sys.results)
    ensures OneEach(Next(sys, step).results)
    ensures forall x :: x in sys.results && !x.result.status.Waiting? ==> x in Next(sys, step).results
  {
    if step.Advance? && Persisted(sys, step.result, step.policy, step.now) {
      PersistedMoves(sys, step.result, step.policy, step.revision, step.now);
      FinalsStay(sys.results, Active(sys.run.stages, step.result.stage).value, step.result);
    }
  }

  lemma {:induction false} RunKeepsFinals(sys: System, steps: seq<Step>)
    requires Inv(sys) && OneEach(sys.results)
    ensures OneEach(RunOf(sys, steps).results)
    ensures forall x :: x in sys.results && !x.result.status.Waiting? ==> x in RunOf(sys, steps).results
  {
    if steps != [] {
      RunKeepsFinals(sys, steps[..|steps| - 1]);
      RunKeeps(sys, steps[..|steps| - 1]);
      StepKeepsFinals(RunOf(sys, steps[..|steps| - 1]), steps[|steps| - 1]);
    }
  }

  lemma {:induction false} ReachableOneEach(sys: System)
    requires Reachable(sys)
    ensures OneEach(sys.results)
  {
    var revision, rework, limits, iterations, now, steps :|
      RunOf(FreshRunOf(revision, rework, limits, iterations, now), steps) == sys;
    FreshRunInv(revision, rework, limits, iterations, now);
    RunKeepsFinals(FreshRunOf(revision, rework, limits, iterations, now), steps);
  }

  /**
   One final result with an open blocker or missing required evidence bars success for good: it stays on file, and no
   later steps, whatever they rework, reach success.
   */
  lemma {:induction false} ViolationBarsSuccess(sys: System, steps: seq<Step>, x: Recorded)
    requires Reachable(sys) && x in sys.results
    requires !x.result.status.Waiting? && ReadModels.ResultViolations(x.result) != []
    ensures x in RunOf(sys, steps).results && !RunOf(sys, steps).run.record.status.Succeeded?
  {
    ReachableInv(sys);
    ReachableOneEach(sys);
    RunKeepsFinals(sys, steps);
    RunKeeps(sys, steps);
  }

  /** A first attempt of the first stage that reports an open blocker and asks for a rework round. */
  function Blocking(id: string): StageResult {
    StageResult(Specification, 1, StageStatus.Failed, Rework(1), [], [Finding(id, Blocker, FindingStatus.Open)], [], [],
                None)
  }

  lemma {:induction false} BlockingViolates(id: string)
    ensures ReadModels.ResultViolations(Blocking(id)) == [ReadModels.BlockerOpen(id, Specification)]
  {
    var fs := Blocking(id).findings;
    assert fs[..0] == [];
    assert ReadModels.FindingViolations(Specification, fs)
           == ReadModels.FindingViolations(Specification, fs[..0]) + [ReadModels.BlockerOpen(id, Specification)];
  }

  /** The first result of a run is persisted, whatever the policies decide on it. */
  lemma {:induction false} FirstIsRecorded(sys: System, r: StageResult, p: Policy, revision: string, now: int)
    requires Inv(sys) && sys.results == [] && sys.run.stages == [FreshStage(Specification)]
    requires sys.run.record.status.Pending?
    requires r.stage.Specification? && r.attempt == 1 && r.status.Failed? && r.action.Rework?
    ensures Recorded(0, r) in AdvanceStep(sys, r, p, revision, now).results
  {
    assert OpenAt(sys.run.stages, Specification, 0);
    NextStageIsFirst(sys.run.stages);
    RefusedExactly(sys.run, r, p, [], now);
    PersistedMoves(sys, r, p, revision, now);
  }

  /** The shortest run to such a result, whatever the policies decide on it. */
  lemma {:induction false} BlockerRun(first: string, second: string, rework: nat, id: string, p: Policy, now: int)
    ensures var start := FreshRunOf(first, rework, Unlimited, None, now);
            var sys := Next(start, Advance(Blocking(id), p, second, now));
            Reachable(sys) && Recorded(0, Blocking(id)) in sys.results
    ensures ReadModels.ResultViolations(Blocking(id)) == [ReadModels.BlockerOpen(id, Specification)]
  {
    FreshIsReachable(first, rework, now);
    ReachableNext(FreshRunOf(first, rework, Unlimited, None, now), Advance(Blocking(id), p, second, now));
    FreshRunInv(first, rework, Unlimited, None, now);
    FirstIsRecorded(FreshRunOf(first, rework, Unlimited, None, now), Blocking(id), p, second, now);
    BlockingViolates(id);
  }

  lemma {:induction false} FreshIsReachable(revision: string, rework: nat, now: int)
    ensures Reachable(FreshRunOf(revision, rework, Unlimited, None, now))
  {
    assert RunOf(FreshRunOf(revision, rework, Unlimited, None, now), [])
           == FreshRunOf(revision, rework, Unlimited, None, now);
  }

  // ----- whether there is a stage to execute

  /** A waiting or blocked run has its stage run at hand, and a running one too unless a decision reused a row. */
  lemma {:induction false} AlwaysAStageToExecute(sys: System)
    requires Reachable(sys) && !RunTerminal(sys.run.record.status)
    ensures sys.run.record.status.Waiting? ==> CurrentIs(sys.run, StageStatus.Waiting)
    ensures sys.run.record.status.Blocked? ==> CurrentIs(sys.run, StageStatus.Blocked)
    ensures NeverReused(sys) ==> NextStage(sys.run.stages).Some?
  {
    ReachableInv(sys);
  }

  /** Some stage run other than `i` is open. */
  ghost predicate AnyOther(stages: seq<StageRecord>, i: nat) {
    exists k :: 0 <= k < |stages| && k != i && IsOpen(stages[k])
  }

  ghost predicate Lost(sys: System) {
    !RunTerminal(sys.run.record.status) && NextStage(sys.run.stages).None?
  }

  lemma {:induction false} NoneOpen(stages: seq<StageRecord>)
    ensures NextStage(stages).None? <==> forall k :: 0 <= k < |stages| ==> !IsOpen(stages[k])
  {
    NextStageIsFirst(stages);
    if k :| 0 <= k < |stages| && IsOpen(stages[k]) {
      assert OpenAt(stages, stages[k].stage, k);
    } else {
      assert forall st: Stage, k: nat :: !OpenAt(stages, st, k);
    }
  }

  /**
   A decision leaves a run that can still move without a stage exactly if it completes the executed stage run, the
   stage run it opens has a row already, and nothing else is open.
   */
  lemma {:induction false} LosesItsStageExactly(sys: System, r: StageResult, p: Policy, revision: string, now: int)
    requires Reachable(sys) && Persisted(sys, r, p, now)
    ensures var d := DecisionOf(sys, r, p, now);
            Lost(AdvanceStep(sys, r, p, revision, now))
            <==> && d.nextStage.Some? && d.stageStatus.Succeeded?
                 && HasRow(sys.run, sys.pins, d.nextStage.value, revision)
                 && !AnyOther(sys.run.stages, Active(sys.run.stages, r.stage).value)
  {
    PersistedMoves(sys, r, p, revision, now);
    LostExactly(sys, AdvanceStep(sys, r, p, revision, now), r, DecisionOf(sys, r, p, now), revision);
  }

  lemma {:induction false} LostExactly(sys: System, sys': System, r: StageResult, d: Decision, revision: string)
    requires Moves(sys, sys', r, d, revision)
    ensures Lost(sys')
            <==> && d.nextStage.Some? && d.stageStatus.Succeeded?
                 && HasRow(sys.run, sys.pins, d.nextStage.value, revision)
                 && !AnyOther(sys.run.stages, Active(sys.run.stages, r.stage).value)
  {
    var s, s' := sys.run.stages, sys'.run.stages;
    var i := Active(s, r.stage).value;
    NoneOpen(s');
    TerminalStatuses(d.runStatus, d.stageStatus);
    assert s'[i].status == d.stageStatus;
    if AnyOther(s, i) {
      var k :| 0 <= k < |s| && k != i && IsOpen(s[k]);
      assert s'[k] == s[k];
    } else {
      assert forall k :: 0 <= k < |s| && k != i ==> s'[k] == s[k];
      if |s'| > |s| {
        assert s'[|s|] == FreshStage(d.nextStage.value);
      }
    }
  }

  /** A run without a stage to execute takes no further result. */
  lemma {:induction false} LostForGood(sys: System, r: StageResult, p: Policy, revision: string, now: int)
    requires Lost(sys)
    ensures AdvanceStep(sys, r, p, revision, now) == sys
  {
  }

  // ----- where the driver only replays

  /** The attempt to execute already has a result on file that no later one may replace. */
  ghost predicate Stuck(sys: System) {
    && NextStage(sys.run.stages).Some?
    && var stage := NextStage(sys.run.stages).value;
       HasOpen(sys.run.stages, stage)
       && var h := Holds(sys.results, Active(sys.run.stages, stage).value, AttemptNumber(sys.run.stages, stage));
          h.Some? && !h.value.status.Waiting?
  }

  /** Once stuck, no result moves the run: only a withdrawal can. */
  lemma {:induction false} StuckForGood(sys: System, r: StageResult, p: Policy, revision: string, now: int)
    requires Stuck(sys)
    ensures AdvanceStep(sys, r, p, revision, now) == sys
  {
  }

  /** The driver is stuck exactly when the stage run to execute waits on a merge that was left to a human. */
  lemma {:induction false} StuckExactly(sys: System)
    requires Reachable(sys) && NextStage(sys.run.stages).Some?
    ensures HasOpen(sys.run.stages, NextStage(sys.run.stages).value)
    ensures var i := Active(sys.run.stages, NextStage(sys.run.stages).value).value;
            var h := Holds(sys.results, i, Current(sys.run).attempt);
            Stuck(sys) <==> Current(sys.run).status.Waiting? && h.Some?
                            && h.value.action.Merge? && !h.value.status.Waiting?
  {
    ReachableInv(sys);
    NextStageIsFirst(sys.run.stages);
    var stage := NextStage(sys.run.stages).value;
    var i := Active(sys.run.stages, stage).value;
    var attempt := AttemptNumber(sys.run.stages, stage);
    TerminalStatuses(RunStatus.Pending, sys.run.stages[i].status);
    HoldsIsOnFile(sys.results, i, attempt);
    assert WaitsOnFile(sys, i);
  }

  /** And every merge left to a human puts it there. */
  lemma {:induction false} DeferredMergeSticks(sys: System, r: StageResult, p: Policy, revision: string, now: int)
    requires Reachable(sys) && Persisted(sys, r, p, now) && MergeDeferred(sys.run, r, p, now)
    ensures Stuck(AdvanceStep(sys, r, p, revision, now))
  {
    RefusedExactly(sys.run, r, p, History(sys.results), now);
    HonouredExactly(sys.run, r, p, History(sys.results), now);
    PersistedMoves(sys, r, p, revision, now);
    WaitingMergeSticks(sys, AdvanceStep(sys, r, p, revision, now), r, DecisionOf(sys, r, p, now), revision);
  }

  lemma {:induction false} WaitingMergeSticks(sys: System, sys': System, r: StageResult, d: Decision, revision: string)
    requires Moves(sys, sys', r, d, revision) && d.stageStatus.Waiting? && !r.status.Waiting?
    ensures Stuck(sys')
  {
    var i := Active(sys.run.stages, r.stage).value;
    ParkedAfter(sys.run, sys'.run, i, r, d, StoredKind(sys, d, revision));
    RecordEffect(sys.results, i, r, i, r.attempt);
  }

  // ----- whether the next advance executes the stage the decision named

  ghost predicate OtherOpen(stages: seq<StageRecord>, stage: Stage, i: nat) {
    exists k: nat :: k != i && OpenAt(stages, stage, k)
  }

  /** The named stage has something to execute: a row that stays or is open, or a new one. */
  ghost predicate Executable(sys: System, i: nat, d: Decision, target: Stage, revision: string) {
    || (target == d.stage && d.stageStatus.Failed?)
    || OtherOpen(sys.run.stages, target, i)
    || !HasRow(sys.run, sys.pins, target, revision)
  }

  /**
   The stage a decision names is the one the next advance executes exactly if that stage has something to execute
   and a forward decision leaves no other open stage run of the executed stage.
   */
  lemma {:induction false} NamedStageIsNext(sys: System, r: StageResult, p: Policy, revision: string, now: int)
    requires Reachable(sys) && Persisted(sys, r, p, now) && DecisionOf(sys, r, p, now).nextStage.Some?
    ensures var d := DecisionOf(sys, r, p, now);
            var i := Active(sys.run.stages, r.stage).value;
            var forward := r.action.ExecuteStage? || r.action.Merge?;
            NextStage(AdvanceStep(sys, r, p, revision, now).run.stages) == d.nextStage
            <==> Executable(sys, i, d, d.nextStage.value, revision)
                 && !(forward && OtherOpen(sys.run.stages, r.stage, i))
  {
    PersistedMoves(sys, r, p, revision, now);
    NamedIsNext(sys, AdvanceStep(sys, r, p, revision, now), r, DecisionOf(sys, r, p, now), revision);
  }

  lemma {:induction false} TargetOpen(sys: System, sys': System, r: StageResult, d: Decision, revision: string)
    requires Moves(sys, sys', r, d, revision) && d.nextStage.Some?
    ensures HasOpen(sys'.run.stages, d.nextStage.value)
            <==> Executable(sys, Active(sys.run.stages, r.stage).value, d, d.nextStage.value, revision)
  {
    var s, s' := sys.run.stages, sys'.run.stages;
    var i, target := Active(s, r.stage).value, d.nextStage.value;
    assert s'[i].status == d.stageStatus && s'[i].stage == d.stage;
    TerminalStatuses(RunStatus.Pending, d.stageStatus);
    if target == d.stage && d.stageStatus.Failed? {
      assert OpenAt(s', target, i);
    } else if OtherOpen(s, target, i) {
      var k: nat :| k != i && OpenAt(s, target, k);
      assert OpenAt(s', target, k);
    } else {
      assert target != d.stage ==> !HasOpen(s, target);
      if !HasRow(sys.run, sys.pins, target, revision) {
        assert OpenAt(s', target, |s|);
      } else if HasOpen(s', target) {
        assert OpenAt(s, target, Active(s', target).value);
      }
    }
  }

  /** Besides the named stage, nothing before the executed one is open after a step. */
  lemma {:induction false} NothingEarlier(
    sys: System, sys': System, r: StageResult, d: Decision, revision: string, st: Stage)
    requires Moves(sys, sys', r, d, revision) && HasOpen(sys'.run.stages, st) && Some(st) != d.nextStage
    ensures Position(r.stage) <= Position(st)
  {
    NextStageIsFirst(sys.run.stages);
    assert OpenAt(sys.run.stages, st, Active(sys'.run.stages, st).value);
  }

  lemma {:induction false} NamedIsNext(sys: System, sys': System, r: StageResult, d: Decision, revision: string)
    requires Moves(sys, sys', r, d, revision) && d.nextStage.Some?
    ensures var i := Active(sys.run.stages, r.stage).value;
            NextStage(sys'.run.stages) == d.nextStage
            <==> Executable(sys, i, d, d.nextStage.value, revision)
                 && !((r.action.ExecuteStage? || r.action.Merge?) && OtherOpen(sys.run.stages, r.stage, i))
  {
    TargetOpen(sys, sys', r, d, revision);
    NamedIsEarliest(sys, sys', r, d, revision);
    if r.action.ExecuteStage? || r.action.Merge? {
      ForwardOpen(sys, sys', r, d, revision);
    }
  }

  /** The named stage is next exactly if it is open, and after a forward decision the executed stage is not. */
  lemma {:induction false} NamedIsEarliest(sys: System, sys': System, r: StageResult, d: Decision, revision: string)
    requires Moves(sys, sys', r, d, revision) && d.nextStage.Some?
    ensures NextStage(sys'.run.stages) == d.nextStage
            <==> HasOpen(sys'.run.stages, d.nextStage.value)
                 && !((r.action.ExecuteStage? || r.action.Merge?) && HasOpen(sys'.run.stages, r.stage))
  {
    var s' := sys'.run.stages;
    NextStageIsFirst(s');
    NamedPosition(sys, sys', r, d, revision);
    if NextStage(s').Some? && NextStage(s') != d.nextStage {
      NothingEarlier(sys, sys', r, d, revision, NextStage(s').value);
    }
  }

  /** A forward decision names the stage after the executed one, any other an earlier stage or the executed one. */
  lemma {:induction false} NamedPosition(sys: System, sys': System, r: StageResult, d: Decision, revision: string)
    requires Moves(sys, sys', r, d, revision) && d.nextStage.Some?
    ensures Position(r.stage) < Position(d.nextStage.value) <==> r.action.ExecuteStage? || r.action.Merge?
  {
  }

  /** After a forward decision the executed stage is open exactly through its other stage runs. */
  lemma {:induction false} ForwardOpen(sys: System, sys': System, r: StageResult, d: Decision, revision: string)
    requires Moves(sys, sys', r, d, revision) && d.nextStage.Some? && (r.action.ExecuteStage? || r.action.Merge?)
    ensures HasOpen(sys'.run.stages, r.stage)
            <==> OtherOpen(sys.run.stages, r.stage, Active(sys.run.stages, r.stage).value)
  {
    var s, s' := sys.run.stages, sys'.run.stages;
    var i := Active(s, r.stage).value;
    NamedPosition(sys, sys', r, d, revision);
    forall k: nat ensures OpenAt(s', r.stage, k) <==> k != i && OpenAt(s, r.stage, k) {
      ForwardRow(sys, sys', r, d, revision, k);
    }
  }

  lemma {:induction false} ForwardRow(
    sys: System, sys': System, r: StageResult, d: Decision, revision: string, k: nat)
    requires Moves(sys, sys', r, d, revision) && d.nextStage.Some? && Position(r.stage) < Position(d.nextStage.value)
    ensures OpenAt(sys'.run.stages, r.stage, k)
            <==> k != Active(sys.run.stages, r.stage).value && OpenAt(sys.run.stages, r.stage, k)
  {
    var i := Active(sys.run.stages, r.stage).value;
    assert !IsOpen(sys'.run.stages[i]);
  }

  /**
   A rework round inside a stage leaves its failed row open; a second open row of the stage stands beside it exactly
   if one did before or the round has a revision of its own.
   */
  lemma {:induction false} ReworkLeavesItOpen(sys: System, r: StageResult, p: Policy, revision: string, now: int)
    requires Reachable(sys) && Persisted(sys, r, p, now) && ReworkTarget(r.stage) == r.stage
    requires DecisionOf(sys, r, p, now).action.Rework?
    ensures var i := Active(sys.run.stages, r.stage).value;
            var stages := AdvanceStep(sys, r, p, revision, now).run.stages;
            && OpenAt(stages, r.stage, i)
            && (OtherOpen(stages, r.stage, i)
                <==> OtherOpen(sys.run.stages, r.stage, i) || !HasRow(sys.run, sys.pins, r.stage, revision))
  {
    PersistedMoves(sys, r, p, revision, now);
    TwoOpen(sys, AdvanceStep(sys, r, p, revision, now), r, DecisionOf(sys, r, p, now), revision);
  }

  lemma {:induction false} TwoOpen(sys: System, sys': System, r: StageResult, d: Decision, revision: string)
    requires Moves(sys, sys', r, d, revision) && d.action.Rework? && ReworkTarget(r.stage) == r.stage
    ensures var i := Active(sys.run.stages, r.stage).value;
            && OpenAt(sys'.run.stages, r.stage, i)
            && (OtherOpen(sys'.run.stages, r.stage, i)
                <==> OtherOpen(sys.run.stages, r.stage, i) || !HasRow(sys.run, sys.pins, r.stage, revision))
  {
    var s, s' := sys.run.stages, sys'.run.stages;
    var i := Active(s, r.stage).value;
    if k: nat :| k != i && OpenAt(s, r.stage, k) {
      assert OpenAt(s', r.stage, k);
    } else if !HasRow(sys.run, sys.pins, r.stage, revision) {
      assert OpenAt(s', r.stage, |s|);
    } else if k: nat :| k != i && OpenAt(s', r.stage, k) {
      assert OpenAt(s, r.stage, k);
    }
  }

  // ----- when an advance is written

  /** The rows on file can follow every decision: the tables have a walk to the new statuses. */
  lemma {:induction false} DecisionIsPersistable(sys: System, r: StageResult, p: Policy, now: int)
    requires Reachable(sys) && Persisted(sys, r, p, now)
    ensures var d := DecisionOf(sys, r, p, now);
            && StagePath(sys.run.stages[Active(sys.run.stages, r.stage).value].status, d.stageStatus).Ok?
            && RunPath(sys.run.record.status, d.runStatus).Ok?
  {
    var d := DecisionOf(sys, r, p, now);
    var row := sys.run.stages[Active(sys.run.stages, r.stage).value];
    PersistedMoves(sys, r, p, "", now);
    RunFollows(sys.run.record.status, d.runStatus);
    RowFollows(row, d.stageStatus, row.attempt, now);
  }

  lemma {:induction false} RunFollows(from: RunStatus, to: RunStatus)
    requires !RunTerminal(from) && !to.Pending? && !to.Canceled? && !to.Superseded?
    ensures RunPath(from, to).Ok?
  {
    TerminalStatuses(from, StageStatus.Pending);
  }

  /**
   A result for the stage and attempt in hand is written exactly if it fits the flow table, the driver is not stuck
   and it does not repeat the wait it should resolve.
   */
  lemma {:induction false} AdvanceWritesExactly(sys: System, r: StageResult, p: Policy, now: int)
    requires Reachable(sys) && !RunTerminal(sys.run.record.status) && Answers(sys.run, r)
    ensures HasOpen(sys.run.stages, r.stage)
    ensures Persisted(sys, r, p, now)
            <==> && Allowed(r.stage, r.action) && r.status == ExpectedStatus(r.action)
                 && (r.action.ExecuteStage? ==> Successor(r.stage) == Some(r.action.next))
                 && !Stuck(sys) && !(r.status.Waiting? && Current(sys.run).status.Waiting?)
  {
    ReachableInv(sys);
    NextStageIsFirst(sys.run.stages);
    RefusedExactly(sys.run, r, p, History(sys.results), now);
    var i := Active(sys.run.stages, r.stage).value;
    TerminalStatuses(RunStatus.Pending, sys.run.stages[i].status);
    HoldsIsOnFile(sys.results, i, r.attempt);
    assert WaitsOnFile(sys, i);
  }

  // ----- one revision for every round

  ghost predicate AllPinned(sys: System, revision: string) {
    forall k :: 0 <= k < |sys.pins| ==> sys.pins[k] == revision
  }

  ghost predicate PinsOnly(steps: seq<Step>, revision: string) {
    forall k :: 0 <= k < |steps| && steps[k].Advance? ==> steps[k].revision == revision
  }

  lemma {:induction false} AdvancePins(sys: System, r: StageResult, p: Policy, revision: string, now: int)
    requires AllPinned(sys, revision)
    ensures AllPinned(AdvanceStep(sys, r, p, revision, now), revision)
  {
  }

  lemma {:induction false} RunPins(start: System, steps: seq<Step>, revision: string)
    requires AllPinned(start, revision) && PinsOnly(steps, revision)
    ensures AllPinned(RunOf(start, steps), revision)
  {
    if steps != [] {
      var init, last := steps[..|steps| - 1], steps[|steps| - 1];
      RunPins(start, init, revision);
      if last.Advance? {
        AdvancePins(RunOf(start, init), last.result, last.policy, revision, last.now);
      }
    }
  }

  /** Every stage run beyond the first stage stands on a succeeded one of it. */
  lemma {:induction false} ChainReachesDown(stages: seq<StageRecord>, k: nat)
    requires Chained(stages) && k < |stages| && !stages[k].stage.Specification?
    ensures Done(stages, Specification)
  {
    var s := stages[k].stage;
    if s.Planning? {
      assert Successor(Specification) == Some(stages[k].stage);
    } else {
      var below := if s.Construction? then Planning else if s.ReviewVerification? then Construction
                   else ReviewVerification;
      assert Successor(below) == Some(stages[k].stage);
      DoneBelow(stages, below);
      if !below.Planning? {
        var lower := if below.Construction? then Planning else Construction;
        assert Successor(lower) == Some(below);
        DoneBelow(stages, lower);
        if lower.Construction? {
          DoneBelow(stages, Planning);
        }
      }
    }
  }

  /**
   A run whose stage runs all pin one revision, as the default resolver has it, is lost after its first phase round.
   */
  lemma {:induction false} PhaseRoundLosesTheRun(
    revision: string, rework: nat, limits: Limits, iterations: Option<nat>, start: int, steps: seq<Step>,
    r: StageResult, p: Policy, now: int)
    requires PinsOnly(steps, revision)
    requires var sys := RunOf(FreshRunOf(revision, rework, limits, iterations, start), steps);
             Persisted(sys, r, p, now) && r.action.PhaseRound?
    ensures var sys := RunOf(FreshRunOf(revision, rework, limits, iterations, start), steps);
            Lost(AdvanceStep(sys, r, p, revision, now))
  {
    var first := FreshRunOf(revision, rework, limits, iterations, start);
    var sys := RunOf(first, steps);
    FreshRunInv(revision, rework, limits, iterations, start);
    RunKeeps(first, steps);
    RunPins(first, steps, revision);
    RefusedExactly(sys.run, r, p, History(sys.results), now);
    HonouredExactly(sys.run, r, p, History(sys.results), now);
    PersistedMoves(sys, r, p, revision, now);
    RoundIsLost(sys, AdvanceStep(sys, r, p, revision, now), r, DecisionOf(sys, r, p, now), revision);
  }

  lemma {:induction false} RoundIsLost(sys: System, sys': System, r: StageResult, d: Decision, revision: string)
    requires Inv(sys) && AllPinned(sys, revision) && Moves(sys, sys', r, d, revision) && d.action.PhaseRound?
    ensures Lost(sys')
  {
    var stages := sys.run.stages;
    var i := Active(stages, r.stage).value;
    assert d.nextStage == Some(Specification) && stages[i].stage == Specification && sys.pins[i] == revision;
    assert HasRow(sys.run, sys.pins, Specification, revision);
    if k :| 0 <= k < |stages| && k != i && IsOpen(stages[k]) {
      if !stages[k].stage.Specification? {
        ChainReachesDown(stages, k);
        var j :| 0 <= j < |stages| && stages[j].stage == Specification && stages[j].status.Succeeded?;
        OnePerStage(sys, revision, i, j);
      } else {
        OnePerStage(sys, revision, i, k);
      }
    }
    LostExactly(sys, sys', r, d, revision);
  }

  lemma {:induction false} OnePerStage(sys: System, revision: string, a: nat, b: nat)
    requires Keyed(sys) && AllPinned(sys, revision) && a < |sys.pins| && b < |sys.pins|
    requires sys.run.stages[a].stage == sys.run.stages[b].stage
    ensures a == b
  {
  }

  // ----- runs

  /** What an advance asks for, the gates it reports, and the merge policy's verdict on it. */
  datatype Ask = Ask(action: Action, gates: seq<GateResult>, merge: MergeVerdict)

  /** No gates, and every merge left to a human. */
  function Plain(action: Action): Ask { Ask(action, [], ManualMerge) }

  /** A first attempt that reports nothing else. */
  function Asking(stage: Stage, ask: Ask): StageResult {
    StageResult(stage, 1, ExpectedStatus(ask.action), ask.action, [], [], ask.gates, [], None)
  }

  /** Nothing stops an advance. */
  function Permitting(merge: MergeVerdict): Policy { Policy(false, false, false, merge) }

  /** `stage` is fresh in the last row, and everything before it is closed and earlier on the route. */
  ghost predicate StraightRows(stages: seq<StageRecord>, stage: Stage) {
    && stages != [] && stages[|stages| - 1] == FreshStage(stage)
    && forall k :: 0 <= k < |stages| - 1 ==> !IsOpen(stages[k]) && Position(stages[k].stage) < Position(stage)
  }

  /** A run on its straight way to `stage`. */
  ghost predicate Straight(sys: System, stage: Stage) {
    && Inv(sys) && StraightRows(sys.run.stages, stage)
    && (sys.run.record.status.Pending? || sys.run.record.status.Running?)
    && sys.run.limits == Unlimited && sys.run.maxIterations.None? && sys.run.usedRework < sys.run.maxRework
  }

  lemma {:induction false} OnlyLastOpen(stages: seq<StageRecord>, stage: Stage)
    requires StraightRows(stages, stage)
    ensures NextStage(stages) == Some(stage) && Active(stages, stage) == Some(|stages| - 1)
    ensures AttemptNumber(stages, stage) == 1 && !OtherOpen(stages, stage, |stages| - 1)
    ensures !AnyOther(stages, |stages| - 1)
    ensures forall st: Stage :: st != stage ==> !HasOpen(stages, st)
  {
    var n := |stages| - 1;
    NextStageIsFirst(stages);
    assert OpenAt(stages, stage, n);
    assert forall st: Stage, k: nat :: OpenAt(stages, st, k) ==> k == n;
  }

  lemma {:induction false} StraightFacts(sys: System, stage: Stage)
    requires Straight(sys, stage)
    ensures Holds(sys.results, |sys.run.stages| - 1, 1).None?
    ensures forall next: Stage, v: string :: Position(stage) < Position(next) ==> !HasRow(sys.run, sys.pins, next, v)
  {
    HoldsIsOnFile(sys.results, |sys.run.stages| - 1, 1);
  }

  /** What an advance on the straight way may ask for. */
  predicate Askable(run: Run, stage: Stage, ask: Ask) {
    && Allowed(stage, ask.action) && !ask.action.Stop? && !ask.action.ReleaseNow? && !ask.merge.MergeBlocked?
    && (ask.action.ExecuteStage? ==> Successor(stage) == Some(ask.action.next))
    && (ask.action.Rework? ==> ask.action.round <= run.maxRework)
  }

  lemma {:induction false} StraightPersists(sys: System, stage: Stage, ask: Ask, now: int)
    requires Straight(sys, stage) && Askable(sys.run, stage, ask)
    ensures Persisted(sys, Asking(stage, ask), Permitting(ask.merge), now)
    ensures Acceptable(sys.run, Asking(stage, ask))
  {
    StraightFacts(sys, stage);
    OnlyLastOpen(sys.run.stages, stage);
    RefusedExactly(sys.run, Asking(stage, ask), Permitting(ask.merge), History(sys.results), now);
  }

  /** On the straight way every such action is carried out, except a merge that is left to a human. */
  lemma {:induction false} StraightDecides(sys: System, stage: Stage, ask: Ask, now: int)
    requires Straight(sys, stage) && Askable(sys.run, stage, ask)
    requires Persisted(sys, Asking(stage, ask), Permitting(ask.merge), now)
    requires Acceptable(sys.run, Asking(stage, ask))
    ensures Decides(DecisionOf(sys, Asking(stage, ask), Permitting(ask.merge), now), ask)
  {
    HonouredExactly(sys.run, Asking(stage, ask), Permitting(ask.merge), History(sys.results), now);
  }

  predicate Decides(d: Decision, ask: Ask) {
    if ask.action.Merge? && ask.merge.ManualMerge? then d.action == WaitForInput && d.stageStatus.Waiting?
    else d.action == ask.action
  }

  lemma {:induction false} ReachableNext(sys: System, step: Step)
    requires Reachable(sys)
    ensures Reachable(Next(sys, step))
  {
    var revision, rework, limits, iterations, now, steps :|
      RunOf(FreshRunOf(revision, rework, limits, iterations, now), steps) == sys;
    var more := steps + [step];
    assert more[..|more| - 1] == steps;
    assert RunOf(FreshRunOf(revision, rework, limits, iterations, now), more) == Next(sys, step);
  }

  lemma {:induction false} FreshIsStraight(revision: string, rework: nat, now: int)
    requires rework >= 1
    ensures Straight(FreshRunOf(revision, rework, Unlimited, None, now), Specification)
    ensures Reachable(FreshRunOf(revision, rework, Unlimited, None, now))
  {
    FreshRunInv(revision, rework, Unlimited, None, now);
    FreshIsReachable(revision, rework, now);
  }

  function StepOf(stage: Stage, ask: Ask, revision: string, now: int): Step {
    Advance(Asking(stage, ask), Permitting(ask.merge), revision, now)
  }

  /** The advance of a straight run. */
  ghost function After(sys: System, stage: Stage, ask: Ask, revision: string, now: int): System {
    AdvanceStep(sys, Asking(stage, ask), Permitting(ask.merge), revision, now)
  }

  lemma {:induction false} AfterMoves(sys: System, stage: Stage, ask: Ask, revision: string, now: int)
    returns (d: Decision)
    requires Straight(sys, stage) && Askable(sys.run, stage, ask)
    ensures Moves(sys, After(sys, stage, ask, revision, now), Asking(stage, ask), d, revision)
    ensures Inv(After(sys, stage, ask, revision, now)) && Decides(d, ask)
  {
    var r, p := Asking(stage, ask), Permitting(ask.merge);
    StraightPersists(sys, stage, ask, now);
    StraightDecides(sys, stage, ask, now);
    AdvanceMoves(sys, r, p, revision, now);
    d := DecisionOf(sys, r, p, now);
  }

  lemma {:induction false} AdvanceMoves(sys: System, r: StageResult, p: Policy, revision: string, now: int)
    requires Inv(sys) && Persisted(sys, r, p, now)
    ensures Moves(sys, AdvanceStep(sys, r, p, revision, now), r, DecisionOf(sys, r, p, now), revision)
    ensures Inv(AdvanceStep(sys, r, p, revision, now))
  {
    PersistedMoves(sys, r, p, revision, now);
    AdvanceKeeps(sys, r, p, revision, now);
  }

  /** The action that takes a run from `stage` to `next`. */
  predicate Forward(stage: Stage, next: Stage, ask: Ask) {
    && Successor(stage) == Some(next)
    && if stage.ReviewVerification? then ask.action.Merge? && ask.merge.MergeAuthorized?
       else ask.action == ExecuteStage(next) && !ask.merge.MergeBlocked?
  }

  lemma {:induction false} StraightOn(sys: System, stage: Stage, next: Stage, ask: Ask, revision: string, now: int)
    returns (sys': System)
    requires Straight(sys, stage) && Forward(stage, next, ask)
    ensures sys' == After(sys, stage, ask, revision, now)
    ensures Straight(sys', next) && sys'.pins == sys.pins + [revision] && sys'.run.maxRework == sys.run.maxRework
  {
    var d := AfterMoves(sys, stage, ask, revision, now);
    sys' := After(sys, stage, ask, revision, now);
    StraightFollows(sys, sys', stage, next, ask, d, revision);
  }

  lemma {:induction false} StraightFollows(
    sys: System, sys': System, stage: Stage, next: Stage, ask: Ask, d: Decision, revision: string)
    requires Straight(sys, stage) && Forward(stage, next, ask) && Decides(d, ask)
    requires Moves(sys, sys', Asking(stage, ask), d, revision) && Inv(sys')
    ensures Straight(sys', next) && sys'.pins == sys.pins + [revision] && sys'.run.maxRework == sys.run.maxRework
  {
    OnlyLastOpen(sys.run.stages, stage);
    StraightFacts(sys, stage);
    assert Position(stage) < Position(next);
    StraightStep(sys, sys', stage, next, ask, d, revision);
  }

  lemma {:induction false} StraightStep(
    sys: System, sys': System, stage: Stage, next: Stage, ask: Ask, d: Decision, revision: string)
    requires Straight(sys, stage) && Forward(stage, next, ask) && d.action == ask.action
    requires Moves(sys, sys', Asking(stage, ask), d, revision) && Inv(sys')
    requires Active(sys.run.stages, stage) == Some(|sys.run.stages| - 1) && !HasOpen(sys.run.stages, next)
    requires !HasRow(sys.run, sys.pins, next, revision)
    ensures Straight(sys', next) && sys'.pins == sys.pins + [revision] && sys'.run.maxRework == sys.run.maxRework
  {
    var s, s' := sys.run.stages, sys'.run.stages;
    var n := |s| - 1;
    assert StoredKind(sys, d, revision) == Chains(next, true);
    assert s' == s[n := s'[n]] + [FreshStage(next)];
    assert s'[n].stage == stage && s'[n].status.Succeeded?;
    forall k | 0 <= k < |s'| - 1 ensures !IsOpen(s'[k]) && Position(s'[k].stage) < Position(next) {
      if k < n {
        assert s'[k] == s[k];
      }
    }
  }

  /** Straight to `stage`, by steps of the driver, with one revision for every stage run. */
  ghost predicate OnWay(sys: System, stage: Stage, revision: string, rework: nat) {
    Straight(sys, stage) && Reachable(sys) && AllPinned(sys, revision) && sys.run.maxRework == rework
  }

  /** A run from the start through to a fresh review. */
  lemma {:induction false} ReviewIsReached(revision: string, rework: nat, now: int) returns (sys: System)
    requires rework >= 1
    ensures OnWay(sys, ReviewVerification, revision, rework)
  {
    sys := FreshRunOf(revision, rework, Unlimited, None, now);
    FreshIsStraight(revision, rework, now);
    sys := StepOnWay(sys, Specification, Planning, revision, rework, now);
    sys := StepOnWay(sys, Planning, Construction, revision, rework, now);
    sys := StepOnWay(sys, Construction, ReviewVerification, revision, rework, now);
  }

  lemma {:induction false} PinnedMore(sys: System, sys': System, revision: string)
    requires AllPinned(sys, revision) && sys'.pins == sys.pins + [revision]
    ensures AllPinned(sys', revision)
  {
  }

  lemma {:induction false} StepOnWay(sys: System, stage: Stage, next: Stage, revision: string, rework: nat, now: int)
    returns (sys': System)
    requires OnWay(sys, stage, revision, rework) && Successor(stage) == Some(next) && !stage.ReviewVerification?
    ensures OnWay(sys', next, revision, rework)
  {
    var ask := Plain(ExecuteStage(next));
    ReachableNext(sys, StepOf(stage, ask, revision, now));
    sys' := StraightOn(sys, stage, next, ask, revision, now);
    PinnedMore(sys, sys', revision);
  }

  lemma {:induction false} ConstructionStands(sys: System, revision: string)
    requires Straight(sys, ReviewVerification) && AllPinned(sys, revision)
    ensures HasRow(sys.run, sys.pins, Construction, revision)
  {
    var n := |sys.run.stages| - 1;
    assert Successor(Construction) == Some(sys.run.stages[n].stage);
    var stages := sys.run.stages;
    var j :| 0 <= j < |stages| && stages[j].stage == Construction && stages[j].status.Succeeded?;
    assert sys.pins[j] == revision;
  }

  /** A merge left to a human at the end of that run: the driver is stuck. */
  lemma {:induction false} ManualMergeRun(revision: string, rework: nat, now: int) returns (before: System)
    requires rework >= 1
    ensures OnWay(before, ReviewVerification, revision, rework)
    ensures var sys := After(before, ReviewVerification, Plain(Merge), revision, now);
            Reachable(sys) && sys.run.record.status.Waiting? && Stuck(sys)
  {
    before := ReviewIsReached(revision, rework, now);
    var d := AfterMoves(before, ReviewVerification, Plain(Merge), revision, now);
    ReachableNext(before, StepOf(ReviewVerification, Plain(Merge), revision, now));
    WaitingMergeSticks(before, After(before, ReviewVerification, Plain(Merge), revision, now),
                       Asking(ReviewVerification, Plain(Merge)), d, revision);
  }

  /** A rework of the review at the same revision: the decision names construction, the next advance is review again. */
  lemma {:induction false} ReviewReworkRun(revision: string, rework: nat, now: int) returns (before: System)
    requires rework >= 1
    ensures OnWay(before, ReviewVerification, revision, rework)
    ensures var sys := After(before, ReviewVerification, Plain(Rework(1)), revision, now);
            && Reachable(sys) && sys.log != [] && sys.log[|sys.log| - 1].decision.nextStage == Some(Construction)
            && NextStage(sys.run.stages) == Some(ReviewVerification)
  {
    before := ReviewIsReached(revision, rework, now);
    ConstructionStands(before, revision);
    var d := AfterMoves(before, ReviewVerification, Plain(Rework(1)), revision, now);
    ReachableNext(before, StepOf(ReviewVerification, Plain(Rework(1)), revision, now));
    ReviewAgain(before, After(before, ReviewVerification, Plain(Rework(1)), revision, now), d, revision);
  }

  lemma {:induction false} ReviewAgain(sys: System, sys': System, d: Decision, revision: string)
    requires Straight(sys, ReviewVerification) && HasRow(sys.run, sys.pins, Construction, revision)
    requires Moves(sys, sys', Asking(ReviewVerification, Plain(Rework(1))), d, revision) && d.action.Rework?
    ensures d.nextStage == Some(Construction) && NextStage(sys'.run.stages) == Some(ReviewVerification)
    ensures sys'.log != [] && sys'.log[|sys'.log| - 1].decision == d
  {
    var s, s' := sys.run.stages, sys'.run.stages;
    var n := |s| - 1;
    OnlyLastOpen(s, ReviewVerification);
    assert s' == s[n := s'[n]];
    assert OpenAt(s', ReviewVerification, n);
    assert forall st: Stage, k: nat :: OpenAt(s', st, k) ==> k == n;
    NextStageIsFirst(s');
  }

  /** A rework round of the first stage at a revision of its own, then an advance: the decision names planning. */
  lemma {:induction false} ReworkRun(first: string, second: string, third: string, rework: nat, now: int)
    requires rework >= 2 && first != second
    ensures var start := FreshRunOf(first, rework, Unlimited, None, now);
            var reworked := After(start, Specification, Plain(Rework(1)), second, now);
            var sys := After(reworked, Specification, Plain(ExecuteStage(Planning)), third, now);
            && Reachable(sys) && sys.log != [] && sys.log[|sys.log| - 1].decision.nextStage == Some(Planning)
            && NextStage(sys.run.stages) == Some(Specification)
  {
    var p := Permitting(ManualMerge);
    var start := FreshRunOf(first, rework, Unlimited, None, now);
    FreshIsStraight(first, rework, now);
    var d := AfterMoves(start, Specification, Plain(Rework(1)), second, now);
    var reworked := After(start, Specification, Plain(Rework(1)), second, now);
    ReachableNext(start, StepOf(Specification, Plain(Rework(1)), second, now));
    TwoRows(start, reworked, d, first, second);
    var r := Asking(Specification, Plain(ExecuteStage(Planning)));
    ReachableNext(reworked, Advance(r, p, third, now));
    TwoRowsForward(reworked, third, now);
  }

  /** The failed row and the fresh one beside it. */
  ghost predicate Reworked(sys: System) {
    && Inv(sys) && |sys.run.stages| == 2 && sys.run.record.status.Running?
    && sys.run.stages[0].stage == Specification && sys.run.stages[0].status.Failed?
    && sys.run.stages[1] == FreshStage(Specification)
    && sys.run.limits == Unlimited && sys.run.maxIterations.None?
  }

  lemma {:induction false} TwoRows(start: System, sys: System, d: Decision, first: string, second: string)
    requires Inv(sys) && first != second && start.pins == [first] && start.run.stages == [FreshStage(Specification)]
    requires start.run.limits == Unlimited && start.run.maxIterations.None?
    requires Moves(start, sys, Asking(Specification, Plain(Rework(1))), d, second) && d.action == Rework(1)
    ensures Reworked(sys)
  {
    assert Active(start.run.stages, Specification) == Some(0);
    assert !HasRow(start.run, start.pins, Specification, second);
    assert sys.run.stages == start.run.stages[0 := sys.run.stages[0]] + [FreshStage(Specification)];
  }

  lemma {:induction false} TwoRowsForward(sys: System, revision: string, now: int)
    requires Reworked(sys)
    ensures var sys' := After(sys, Specification, Plain(ExecuteStage(Planning)), revision, now);
            && sys'.log != [] && sys'.log[|sys'.log| - 1].decision.nextStage == Some(Planning)
            && NextStage(sys'.run.stages) == Some(Specification)
  {
    var r, p := Asking(Specification, Plain(ExecuteStage(Planning))), Permitting(ManualMerge);
    TwoRowsPersist(sys, r, p, now);
    TwoRowsDecide(sys, r, p, now);
    PersistedMoves(sys, r, p, revision, now);
    FailedRowIsNext(sys, After(sys, Specification, Plain(ExecuteStage(Planning)), revision, now),
                    r, DecisionOf(sys, r, p, now), revision);
  }

  /** A first attempt of the first stage that asks for planning. */
  predicate AsksPlanning(r: StageResult) {
    r.stage.Specification? && r.attempt == 1 && r.status.Succeeded? && r.action == ExecuteStage(Planning)
  }

  lemma {:induction false} TwoRowsPersist(sys: System, r: StageResult, p: Policy, now: int)
    requires Reworked(sys) && AsksPlanning(r)
    ensures Persisted(sys, r, p, now) && Acceptable(sys.run, r)
  {
    ReworkedActive(sys);
    HoldsIsOnFile(sys.results, 1, 1);
    RefusedExactly(sys.run, r, p, History(sys.results), now);
  }

  lemma {:induction false} TwoRowsDecide(sys: System, r: StageResult, p: Policy, now: int)
    requires Reworked(sys) && AsksPlanning(r) && Persisted(sys, r, p, now) && Acceptable(sys.run, r)
    requires p == Permitting(ManualMerge) && r.usage.None? && r.escalations == []
    ensures DecisionOf(sys, r, p, now).action == ExecuteStage(Planning)
  {
    HonouredExactly(sys.run, r, p, History(sys.results), now);
  }

  lemma {:induction false} ReworkedActive(sys: System)
    requires Reworked(sys)
    ensures Active(sys.run.stages, Specification) == Some(1) && NextStage(sys.run.stages) == Some(Specification)
    ensures AttemptNumber(sys.run.stages, Specification) == 1 && sys.run.stages[1].status.Pending?
  {
    assert OpenAt(sys.run.stages, Specification, 1) && OpenAt(sys.run.stages, Specification, 0);
  }

  lemma {:induction false} FailedRowIsNext(sys: System, sys': System, r: StageResult, d: Decision, revision: string)
    requires Reworked(sys) && Moves(sys, sys', r, d, revision)
    requires r.stage.Specification? && d.action == ExecuteStage(Planning)
    ensures sys'.log != [] && sys'.log[|sys'.log| - 1].decision.nextStage == Some(Planning)
    ensures NextStage(sys'.run.stages) == Some(Specification)
  {
    ReworkedActive(sys);
    assert OpenAt(sys'.run.stages, Specification, 0);
  }

  /** A phase round of a fresh run at the same revision: the run is running and has no stage left. */
  lemma {:induction false} PhaseRoundRun(revision: string, rework: nat, now: int)
    requires rework >= 1
    ensures var start := FreshRunOf(revision, rework, Unlimited, None, now);
            var sys := After(start, Specification, Plain(PhaseRound), revision, now);
            Reachable(sys) && Lost(sys)
  {
    FreshIsStraight(revision, rework, now);
    FirstRoundIsLost(FreshRunOf(revision, rework, Unlimited, None, now), revision, now);
  }

  lemma {:induction false} FirstRoundIsLost(start: System, revision: string, now: int)
    requires OnWay(start, Specification, revision, start.run.maxRework)
    ensures var sys := After(start, Specification, Plain(PhaseRound), revision, now);
            Reachable(sys) && Lost(sys)
  {
    var d := AfterMoves(start, Specification, Plain(PhaseRound), revision, now);
    ReachableNext(start, StepOf(Specification, Plain(PhaseRound), revision, now));
    RoundIsLost(start, After(start, Specification, Plain(PhaseRound), revision, now),
                Asking(Specification, Plain(PhaseRound)), d, revision);
  }
}
