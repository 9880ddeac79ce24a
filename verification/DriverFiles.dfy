/** What an advance of the driver puts on file, row by row, and what the rows of every run look like. */
module DriverFiles {
  import opened Base
  import opened StageResults
  import opened L = Lifecycle
  import opened Flow
  import opened Driver
  import opened DriverRuns

  // ----- which attempt an advance is about

  /** The earliest stage on the route that has not ended, and its attempt: the next one after a failure or a block. */
  ghost predicate AtHand(stages: seq<StageRecord>, stage: Stage, attempt: nat) {
    && (exists i: nat :: NewestOpen(stages, stage, i)
                         && attempt == stages[i].attempt
                                       + if stages[i].status.Failed? || stages[i].status.Blocked? then 1 else 0)
    && forall k :: 0 <= k < |stages| && !Over(stages[k].status) ==> Position(stage) <= Position(stages[k].stage)
  }

  lemma {:induction false} OpenExactly(s: StageRecord)
    ensures IsOpen(s) <==> !Over(s.status)
  {
    TerminalStatuses(RunStatus.Pending, s.status);
  }

  /** The driver takes a result exactly if it is about the attempt at hand and has not canceled. */
  lemma {:induction false} AnswersExactly(run: Run, r: StageResult)
    ensures Answers(run, r) <==> AtHand(run.stages, r.stage, r.attempt) && ResultStatus(r.status)
    ensures ResultStatus(r.status) <==>
              r.status.Waiting? || r.status.Succeeded? || r.status.Failed? || r.status.Blocked?
  {
    var stages := run.stages;
    ActiveIsNewest(stages, r.stage);
    NextStageIsFirst(stages);
    forall k | 0 <= k < |stages| ensures IsOpen(stages[k]) <==> !Over(stages[k].status) {
      OpenExactly(stages[k]);
    }
    if NextStage(stages) == Some(r.stage) {
      forall k | 0 <= k < |stages| && !Over(stages[k].status) ensures Position(r.stage) <= Position(stages[k].stage) {
        assert OpenAt(stages, stages[k].stage, k);
      }
    }
    if AtHand(stages, r.stage, r.attempt) {
      var next := NextStage(stages).value;
      var k := Active(stages, next).value;
      assert Position(r.stage) <= Position(stages[k].stage);
      SamePosition(r.stage, next);
    }
  }

  lemma {:induction false} SamePosition(s: Stage, t: Stage)
    requires Position(s) == Position(t)
    ensures s == t
  {
  }

  /**
   Of a run that has not ended, a result is put on file exactly if it is about the attempt at hand, the flow table has
   it, the driver is not stuck, and it does not repeat the wait it should resolve.
   */
  lemma {:induction false} FiledExactly(sys: System, r: StageResult, p: Policy, now: int)
    requires Reachable(sys)
    ensures Persisted(sys, r, p, now) <==>
              && !RunTerminal(sys.run.record.status) && AtHand(sys.run.stages, r.stage, r.attempt)
              && InTable(r.stage, r.action, r.status) && !r.status.Canceled? && !Stuck(sys)
              && !(r.status.Waiting? && CurrentIs(sys.run, StageStatus.Waiting))
  {
    AnswersExactly(sys.run, r);
    TableExactly(r);
    if !RunTerminal(sys.run.record.status) && Answers(sys.run, r) {
      AdvanceWritesExactly(sys, r, p, now);
    }
  }

  // ----- what it puts on file

  /** Of the results, one is added, in the place of any earlier one of the same attempt. */
  lemma {:induction false} ResultsExactly(results: seq<Recorded>, op: nat, r: StageResult, x: Recorded)
    requires OneEach(results) && Record(results, op, r).Some?
    ensures x in Record(results, op, r).value <==>
              x == Recorded(op, r) || (x in results && !(x.op == op && x.result.attempt == r.attempt))
  {
    HoldsEvery(results, op, r.attempt);
    WithoutExactly(results, op, r.attempt);
  }

  /** A stage row after a decision: its status, a finish time exactly if that ends it, and the moves it took. */
  lemma {:induction false} RowExactly(row: StageRecord, st: StageStatus, attempt: nat, now: int)
    requires IsOpen(row) && row.finishedAt.None? && ResultStatus(st)
    ensures var w := RowAfter(row, st, attempt, now);
            && w.stage == row.stage && w.status == st
            && w.attempt == (if attempt > row.attempt then attempt else row.attempt)
            && w.finishedAt == (if st.Succeeded? then Some(now) else None)
            && w.revision == row.revision
                             + if st == row.status then 0 else if st in StageTargets(row.status) then 1 else 2
  {
    TerminalStatuses(RunStatus.Pending, row.status);
    var counted := row.(attempt := if attempt > row.attempt then attempt else row.attempt);
    WalkedOne(counted, st, now);
    WalkedTwo(counted, st, now);
  }

  lemma {:induction false} WalkedOne(s: StageRecord, st: StageStatus, now: int)
    ensures Walked(s, [st], now) == StageMoved(s, st, now)
  {
    assert [st][..0] == [];
    assert Walked(s, [], now) == s;
  }

  lemma {:induction false} WalkedTwo(s: StageRecord, st: StageStatus, now: int)
    ensures Walked(s, [StageStatus.InProgress, st], now)
            == StageMoved(StageMoved(s, StageStatus.InProgress, now), st, now)
  {
    var walk := [StageStatus.InProgress, st];
    assert walk[..1] == [StageStatus.InProgress];
    WalkedOne(s, StageStatus.InProgress, now);
  }

  /** The run row after a decision: one revision more, or as many as the run in memory had. */
  lemma {:induction false} RecordExactly(sys: System, r: StageResult, p: Policy, revision: string, now: int)
    requires Persisted(sys, r, p, now)
    ensures var before, after := sys.run.record, AdvanceStep(sys, r, p, revision, now).run.record;
            var reached := ApplyResult(sys.run, r, p, History(sys.results), now).run.record.revision;
            && after.status == DecisionOf(sys, r, p, now).runStatus && after.updatedAt == now
            && after.revision >= before.revision + 1 && after.revision >= reached
            && (after.revision == before.revision + 1 || after.revision == reached)
            && after.finishedAt == (if RunTerminal(after.status) then Some(now) else before.finishedAt)
  {
    ApplyShape(sys.run, r, p, History(sys.results), now);
  }

  /** A withdrawal cancels a run that has not ended, with every stage that has not, and touches nothing else. */
  lemma {:induction false} WithdrawnExactly(sys: System, now: int)
    ensures var sys' := Next(sys, Withdraw(now));
            var record := sys.run.record;
            if record.status.Succeeded? || record.status.Failed? || record.status.Canceled? || record.status.Superseded?
            then sys' == sys
            else && sys' == sys.(run := sys.run.(record := sys'.run.record, stages := sys'.run.stages))
                 && sys'.run.record == RunRecord(RunStatus.Canceled, record.revision + 1, now, Some(now))
                 && |sys'.run.stages| == |sys.run.stages|
                 && forall k :: 0 <= k < |sys.run.stages| ==>
                      var s := sys.run.stages[k];
                      sys'.run.stages[k]
                      == if Over(s.status) then s
                         else StageRecord(s.stage, StageStatus.Canceled, s.attempt, s.revision + 1, Some(now))
  {
    TerminalStatuses(sys.run.record.status, StageStatus.Canceled);
    TerminalStatuses(RunStatus.Canceled, StageStatus.Canceled);
    forall k | 0 <= k < |sys.run.stages| ensures IsOpen(sys.run.stages[k]) <==> !Over(sys.run.stages[k].status) {
      OpenExactly(sys.run.stages[k]);
    }
  }

  // ----- every run

  /** The times and counters of the rows agree with their statuses. */
  ghost predicate InStep(sys: System) {
    && (forall k :: 0 <= k < |sys.run.stages| ==> RowInStep(sys.run.stages[k]))
    && RecordInStep(sys.run.record) && sys.run.record.revision >= 1 + |sys.log|
  }

  predicate RecordInStep(r: RunRecord) {
    r.finishedAt == if RunTerminal(r.status) then Some(r.updatedAt) else None
  }

  predicate RowInStep(s: StageRecord) { (s.finishedAt.Some? <==> Over(s.status)) && s.attempt >= 1 && s.revision >= 1 }

  lemma {:induction false} AdvanceInStep(sys: System, r: StageResult, p: Policy, revision: string, now: int)
    requires InStep(sys) && Persisted(sys, r, p, now)
    ensures InStep(AdvanceStep(sys, r, p, revision, now))
  {
    var d, i := DecisionOf(sys, r, p, now), Active(sys.run.stages, r.stage).value;
    var sys' := AdvanceStep(sys, r, p, revision, now);
    PersistedMoves(sys, r, p, revision, now);
    RecordExactly(sys, r, p, revision, now);
    PersistedRow(sys, r, p, revision, now);
    forall k | 0 <= k < |sys'.run.stages| ensures RowInStep(sys'.run.stages[k]) {
      if k < |sys.run.stages| && k != i {
        assert sys'.run.stages[k] == sys.run.stages[k];
      } else if k == i {
        OpenExactly(sys.run.stages[i]);
        RowExactly(sys.run.stages[i], d.stageStatus, r.attempt, now);
      }
    }
  }

  lemma {:induction false} PersistedRow(sys: System, r: StageResult, p: Policy, revision: string, now: int)
    requires Persisted(sys, r, p, now)
    ensures var i := Active(sys.run.stages, r.stage).value;
            var d := DecisionOf(sys, r, p, now);
            var stages' := AdvanceStep(sys, r, p, revision, now).run.stages;
            i < |stages'| && stages'[i] == RowAfter(sys.run.stages[i], d.stageStatus, r.attempt, now)
            && ResultStatus(d.stageStatus)
  {
    ApplyShape(sys.run, r, p, History(sys.results), now);
  }

  lemma {:induction false} WithdrawInStep(sys: System, now: int)
    requires InStep(sys)
    ensures InStep(WithdrawStep(sys, now))
  {
    TerminalStatuses(sys.run.record.status, StageStatus.Canceled);
    TerminalStatuses(RunStatus.Canceled, StageStatus.Canceled);
    var stages' := WithdrawStep(sys, now).run.stages;
    forall k | 0 <= k < |stages'| ensures RowInStep(stages'[k]) {
      OpenExactly(sys.run.stages[k]);
    }
  }

  /** In every run: finished exactly when ended, at the last update; revisions at least count the decisions. */
  lemma {:induction false} RunsInStep(sys: System)
    requires Reachable(sys)
    ensures InStep(sys)
  {
    var revision, rework, limits, iterations, now, steps :|
      RunOf(FreshRunOf(revision, rework, limits, iterations, now), steps) == sys;
    StepsInStep(FreshRunOf(revision, rework, limits, iterations, now), steps);
  }

  lemma {:induction false} StepsInStep(start: System, steps: seq<Step>)
    requires InStep(start)
    ensures InStep(RunOf(start, steps))
  {
    if steps != [] {
      var before, step := RunOf(start, steps[..|steps| - 1]), steps[|steps| - 1];
      StepsInStep(start, steps[..|steps| - 1]);
      if step.Withdraw? {
        WithdrawInStep(before, step.now);
      } else if Persisted(before, step.result, step.policy, step.now) {
        AdvanceInStep(before, step.result, step.policy, step.revision, step.now);
      }
    }
  }
}
