/**
 The driver that advances a run one decision at a time: it picks the stage and the attempt, applies the result and
 records it, over every sequence of results, policy verdicts and withdrawals.
 */
module Driver {
  import opened Base
  import opened StageResults
  import opened L = Lifecycle
  import opened Flow
  import ReadModels

  /** A recorded stage result; `op` is the stage row whose operation it belongs to. */
  datatype Recorded = Recorded(op: nat, result: StageResult)

  /** A persisted decision; `reused` when the stage run it opened fell onto a row that was there already. */
  datatype Entry = Entry(result: StageResult, decision: Decision, reused: bool)

  /**
   What is on file: the run with its stage rows in the order of creation, the input revision each row is keyed by,
   the results, and every decision so far.
   */
  datatype System = System(run: Run, pins: seq<string>, results: seq<Recorded>, log: seq<Entry>)

  /** `revision` is what the resolver gives for a stage run that this advance opens. */
  datatype Step = Advance(result: StageResult, policy: Policy, revision: string, now: int) | Withdraw(now: int)

  // ----- the result store

  function Holds(results: seq<Recorded>, op: nat, attempt: nat): Option<StageResult> {
    if results == [] then None
    else
      var last := results[|results| - 1];
      if last.op == op && last.result.attempt == attempt then Some(last.result)
      else Holds(results[..|results| - 1], op, attempt)
  }

  function Without(results: seq<Recorded>, op: nat, attempt: nat): seq<Recorded> {
    if results == [] then []
    else
      var last := results[|results| - 1];
      Without(results[..|results| - 1], op, attempt)
      + if last.op == op && last.result.attempt == attempt then [] else [last]
  }

  /** `None` when the store already holds an authoritative result of the attempt. */
  function Record(results: seq<Recorded>, op: nat, r: StageResult): Option<seq<Recorded>> {
    match Holds(results, op, r.attempt)
    case None => Some(results + [Recorded(op, r)])
    case Some(held) =>
      if r.status.Waiting? || !held.status.Waiting? then None
      else Some(Without(results, op, r.attempt) + [Recorded(op, r)])
  }

  function History(results: seq<Recorded>): (h: seq<StageResult>)
    ensures |h| == |results| && forall i :: 0 <= i < |h| ==> h[i] == results[i].result
  {
    if results == [] then []
    else History(results[..|results| - 1]) + [results[|results| - 1].result]
  }

  // ----- the driver

  function FreshRunOf(revision: string, maxRework: nat, limits: Limits, maxIterations: Option<nat>, now: int): System {
    System(Run(FreshRun(now), [FreshStage(Specification)], maxRework, 0, limits, Spend(0, 0.0), maxIterations),
           [revision], [], [])
  }

  predicate ResultStatus(s: StageStatus) { s.Waiting? || s.Succeeded? || s.Failed? || s.Blocked? }

  /** The result answers the stage and attempt the driver executes. */
  predicate Answers(run: Run, r: StageResult) {
    && NextStage(run.stages) == Some(r.stage)
    && r.attempt == AttemptNumber(run.stages, r.stage)
    && ResultStatus(r.status)
  }

  /** The stage has a row for this revision: the same logical operation. */
  predicate HasRow(run: Run, pins: seq<string>, stage: Stage, revision: string) {
    exists k :: 0 <= k < |run.stages| && k < |pins| && run.stages[k].stage == stage && pins[k] == revision
  }

  /** The executed row after its decision: the attempt counted, the status walked through the table. */
  function RowAfter(row: StageRecord, st: StageStatus, attempt: nat, now: int): StageRecord {
    var counted := row.(attempt := if attempt > row.attempt then attempt else row.attempt);
    var path := StagePath(row.status, st);
    if path.Err? then counted else Walked(counted, path.value, now)
  }

  /** The run row: one status write, raised to the revision the run reached in memory. */
  function RecordAfter(record: RunRecord, st: RunStatus, reached: nat, now: int): RunRecord {
    RunRecord(st, if reached > record.revision + 1 then reached else record.revision + 1, now,
              if RunTerminal(st) then Some(now) else record.finishedAt)
  }

  /** The decision opens a stage run in memory. */
  predicate Opens(run: Run, o: Outcome) { |o.run.stages| > |run.stages| }

  /** Persist a decision: a row for the stage run it opened unless the operation has one, then the executed row. */
  function Persist(
    sys: System, op: nat, r: StageResult, o: Outcome, results: seq<Recorded>, revision: string, now: int): System
    requires op < |sys.run.stages| && o.decision.Ok? && (Opens(sys.run, o) ==> o.decision.value.nextStage.Some?)
  {
    var d := o.decision.value;
    var reused := Opens(sys.run, o) && HasRow(sys.run, sys.pins, d.nextStage.value, revision);
    var added := Opens(sys.run, o) && !reused;
    var rows := sys.run.stages[op := RowAfter(sys.run.stages[op], d.stageStatus, r.attempt, now)];
    System(o.run.(stages := rows + if added then [FreshStage(d.nextStage.value)] else [],
                  record := RecordAfter(sys.run.record, d.runStatus, o.run.record.revision, now)),
           sys.pins + if added then [revision] else [], results, sys.log + [Entry(r, d, reused)])
  }

  function AdvanceStep(sys: System, r: StageResult, p: Policy, revision: string, now: int): System {
    if RunTerminal(sys.run.record.status) || !Answers(sys.run, r) then sys
    else
      var op := Active(sys.run.stages, r.stage);
      var o := ApplyResult(sys.run, r, p, History(sys.results), now);
      if op.None? || o.decision.Err? || (Opens(sys.run, o) && o.decision.value.nextStage.None?) then sys
      else
        match Record(sys.results, op.value, r)
        case None => sys
        case Some(results) => Persist(sys, op.value, r, o, results, revision, now)
  }

  function WithdrawStep(sys: System, now: int): System {
    if RunTerminal(sys.run.record.status) then sys
    else sys.(run := sys.run.(record := RunMoved(sys.run.record, RunStatus.Canceled, now),
                              stages := CanceledStages(sys.run.stages, now)))
  }

  function Next(sys: System, step: Step): System {
    match step
    case Advance(r, p, revision, now) => AdvanceStep(sys, r, p, revision, now)
    case Withdraw(now) => WithdrawStep(sys, now)
  }

  function RunOf(start: System, steps: seq<Step>): System {
    if steps == [] then start else Next(RunOf(start, steps[..|steps| - 1]), steps[|steps| - 1])
  }

  // ----- what one accepted result does to the stage list

  datatype Kind = Parks | Blocks | Fails | Completes | Chains(target: Stage, added: bool)

  function Appended(target: Stage, added: bool): seq<StageRecord> {
    if added then [FreshStage(target)] else []
  }

  /** Going from `stage` to `target` takes a new stage run: another round, or no open one to go to. */
  predicate Fresh(run: Run, stage: Stage, target: Stage) {
    target == stage || !HasOpen(run.stages, target)
  }

  /** Stage run `i` moved to its new status, and the next one was added where the decision chains. */
  ghost predicate Shape(run: Run, run': Run, i: nat, r: StageResult, d: Decision, kind: Kind) {
    && i < |run.stages| && i < |run'.stages|
    && run'.stages[i].stage == run.stages[i].stage == r.stage && run'.stages[i].attempt == r.attempt
    && d.stage == r.stage && run'.stages[i].status == d.stageStatus && run'.record.status == d.runStatus
    && run'.spend == Added(run.spend, r) && run'.maxRework == run.maxRework
    && run'.limits == run.limits && run'.maxIterations == run.maxIterations
    && run'.stages == run.stages[i := run'.stages[i]]
       + (if kind.Chains? then Appended(kind.target, kind.added) else [])
    && (d.nextStage == if kind.Chains? then Some(kind.target) else None)
    && (d.action.Rework? <==> run'.usedRework == run.usedRework + 1)
    && (!d.action.Rework? ==> run'.usedRework == run.usedRework)
    && (d.action.Rework? || d.action.PhaseRound? || d.action.ExecuteStage? || d.action.Merge? ==> kind.Chains?)
    && match kind
       case Parks =>
         d.stageStatus.Waiting? && d.runStatus.Waiting? && (r.status.Waiting? || r.action.Merge?)
       case Blocks => d.stageStatus.Blocked? && d.runStatus.Blocked?
       case Fails => d.stageStatus.Failed? && d.runStatus.Failed?
       case Completes => d.stageStatus.Succeeded? && d.runStatus.Succeeded? && r.stage.Release?
       case Chains(target, added) =>
         && d.runStatus.Running?
         && (d.action.Rework? ==> d.stageStatus.Failed? && target == ReworkTarget(r.stage)
                                   && run.usedRework < run.maxRework)
         && (!d.action.Rework? ==> d.stageStatus.Succeeded?)
         && (d.action.PhaseRound? ==> target == r.stage)
         && (!d.action.Rework? && !d.action.PhaseRound? ==>
               Successor(r.stage) == Some(target) && (d.action.ExecuteStage? || d.action.Merge?))
         && (added ==> Fresh(run, r.stage, target))
  }

  /** The kind of an accepted decision in memory: it opens every stage run it needs. */
  ghost function KindOf(run: Run, d: Decision): Kind {
    if d.nextStage.Some? then Chains(d.nextStage.value, Fresh(run, d.stage, d.nextStage.value))
    else if d.stageStatus.Waiting? then Parks
    else if d.stageStatus.Blocked? then Blocks
    else if d.stageStatus.Failed? then Fails
    else Completes
  }

  /** The run handed to the handlers: stage run `i` entered, the run running, the usage counted. */
  ghost predicate Ready(run: Run, pre: Run, i: nat, r: StageResult) {
    && i < |run.stages| && run.stages[i].stage == r.stage
    && |pre.stages| == |run.stages| && pre.stages == run.stages[i := pre.stages[i]]
    && pre.stages[i].status.InProgress? && pre.stages[i].stage == r.stage && pre.stages[i].attempt == r.attempt
    && pre.record.status.Running? && pre.spend == Added(run.spend, r)
    && pre.maxRework == run.maxRework && pre.usedRework == run.usedRework
    && pre.limits == run.limits && pre.maxIterations == run.maxIterations
  }

  ghost predicate Shaped(run: Run, o: Outcome, i: nat, r: StageResult) {
    o.decision.Ok? ==>
      i < |run.stages| && i < |o.run.stages|
      && Shape(run, o.run, i, r, o.decision.value, KindOf(run, o.decision.value))
  }

  lemma {:induction false} SettleShape(
    run: Run, pre: Run, i: nat, r: StageResult, st: StageStatus, rt: RunStatus, a: Action, now: int)
    requires Ready(run, pre, i, r) && !a.Rework? && !a.PhaseRound? && !a.ExecuteStage? && !a.Merge?
    requires (st.Waiting? && rt.Waiting? && (r.status.Waiting? || r.action.Merge?)) || (st.Blocked? && rt.Blocked?)
          || (st.Failed? && rt.Failed?) || (st.Succeeded? && rt.Succeeded? && r.stage.Release?)
    ensures Shaped(run, Settle(pre, i, st, rt, a, now), i, r)
  {
    var o := Settle(pre, i, st, rt, a, now);
    assert o.run.stages == run.stages[i := o.run.stages[i]] + [];
  }

  /** Moving a stage run of another stage leaves what is open of this one. */
  lemma {:induction false} OtherStageOpen(stages: seq<StageRecord>, i: nat, s: StageRecord, target: Stage)
    requires i < |stages| && stages[i].stage != target && s.stage != target
    ensures HasOpen(stages[i := s], target) == HasOpen(stages, target)
  {
    var stages' := stages[i := s];
    assert forall k: nat :: OpenAt(stages', target, k) <==> OpenAt(stages, target, k);
  }

  lemma {:induction false} ChainShape(
    run: Run, pre: Run, i: nat, r: StageResult, st: StageStatus, target: Stage, again: bool, a: Action, now: int)
    requires Ready(run, pre.(usedRework := run.usedRework), i, r)
    requires pre.usedRework == run.usedRework + if a.Rework? then 1 else 0
    requires again <==> target == r.stage
    requires a.Rework? ==> st.Failed? && target == ReworkTarget(r.stage) && run.usedRework < run.maxRework
    requires !a.Rework? ==> st.Succeeded?
    requires a.PhaseRound? ==> target == r.stage
    requires a.ExecuteStage? || a.Merge? ==> Successor(r.stage) == Some(target)
    requires a.Rework? || a.PhaseRound? || a.ExecuteStage? || a.Merge?
    ensures Shaped(run, Chain(pre, i, st, target, again, a, now), i, r)
  {
    var o := Chain(pre, i, st, target, again, a, now);
    var moved := pre.stages[i := StageMoved(pre.stages[i], st, now)];
    assert moved == run.stages[i := moved[i]];
    assert moved + [] == moved;
    if target != r.stage {
      OtherStageOpen(run.stages, i, moved[i], target);
    }
  }

  lemma {:induction false} HandleShape(
    run: Run, pre: Run, i: nat, r: StageResult, p: Policy, h: seq<StageResult>, now: int)
    requires Ready(run, pre, i, r) && Allowed(r.stage, r.action) && r.status == ExpectedStatus(r.action)
    requires ResultStatus(r.status)
    ensures Shaped(run, Handle(pre, i, r, p, h, now), i, r)
  {
    SettleShape(run, pre, i, r, StageStatus.Blocked, RunStatus.Blocked, Stop(StopOutcome.Blocked), now);
    match r.action
    case ExecuteStage(next) =>
      if Successor(r.stage) == Some(next) {
        ChainShape(run, pre, i, r, StageStatus.Succeeded, next, false, r.action, now);
      }
    case WaitForInput | WaitForCi | RequestApproval =>
      SettleShape(run, pre, i, r, StageStatus.Waiting, RunStatus.Waiting, r.action, now);
    case Rework(round) =>
      if run.usedRework < run.maxRework {
        var target := ReworkTarget(r.stage);
        ChainShape(run, pre.(usedRework := pre.usedRework + 1), i, r, StageStatus.Failed, target, target == r.stage,
                   r.action, now);
      }
    case PhaseRound =>
      ChainShape(run, pre, i, r, StageStatus.Succeeded, r.stage, true, r.action, now);
    case Merge =>
      SettleShape(run, pre, i, r, StageStatus.Waiting, RunStatus.Waiting, WaitForInput, now);
      ChainShape(run, pre, i, r, StageStatus.Succeeded, Release, false, r.action, now);
    case ReleaseNow =>
      SettleShape(run, pre, i, r, StageStatus.Succeeded, RunStatus.Succeeded, r.action, now);
    case Stop(o) =>
      SettleShape(run, pre, i, r, StopStage(o), StopRun(o), r.action, now);
  }

  lemma {:induction false} ApplyShape(run: Run, r: StageResult, p: Policy, h: seq<StageResult>, now: int)
    requires Answers(run, r)
    ensures HasOpen(run.stages, r.stage)
    ensures Shaped(run, ApplyResult(run, r, p, h, now), Active(run.stages, r.stage).value, r)
  {
    NextStageIsFirst(run.stages);
    var i := Active(run.stages, r.stage).value;
    if ApplyResult(run, r, p, h, now).decision.Ok? {
      EnterInProgress(run.stages, r, now);
      var pre := Prepared(run, Enter(run.stages, r, now).value.0, r, now);
      HandleShape(run, pre, i, r, p, h, now);
    }
  }

  /** The next stage is the earliest on the route with an open stage run. */
  lemma {:induction false} NextStageIsFirst(stages: seq<StageRecord>)
    ensures NextStage(stages).Some? ==> HasOpen(stages, NextStage(stages).value)
    ensures forall s: Stage :: HasOpen(stages, s) ==>
              NextStage(stages).Some? && Position(NextStage(stages).value) <= Position(s)
  {
  }

  lemma {:induction false} HandleCompletesClean(
    run: Run, i: nat, r: StageResult, p: Policy, h: seq<StageResult>, now: int)
    requires i < |run.stages| && run.record.status.Running?
    requires Handle(run, i, r, p, h, now).decision.Ok?
    requires Handle(run, i, r, p, h, now).decision.value.runStatus.Succeeded?
    ensures ReadModels.Violations(h + [r]) == []
  {
  }

  /** A run completes only without a completion violation in what is on file and what arrives. */
  lemma {:induction false} CompletesClean(run: Run, r: StageResult, p: Policy, h: seq<StageResult>, now: int)
    requires ApplyResult(run, r, p, h, now).decision.Ok?
    requires ApplyResult(run, r, p, h, now).decision.value.runStatus.Succeeded?
    ensures ReadModels.Violations(h + [r]) == []
  {
    EnterInProgress(run.stages, r, now);
    var (stages, i) := Enter(run.stages, r, now).value;
    HandleCompletesClean(Prepared(run, stages, r, now), i, r, p, h, now);
  }

  // ----- what every step keeps of the run

  ghost predicate Done(stages: seq<StageRecord>, s: Stage) {
    exists j :: 0 <= j < |stages| && stages[j].stage == s && stages[j].status.Succeeded?
  }

  /** A stage run exists only after its predecessor on the route succeeded. */
  ghost predicate Chained(stages: seq<StageRecord>) {
    forall i, p :: 0 <= i < |stages| && Successor(p) == Some(stages[i].stage) ==> Done(stages, p)
  }

  ghost predicate OneRelease(stages: seq<StageRecord>) {
    forall i: nat, j: nat :: OpenAt(stages, Release, i) && OpenAt(stages, Release, j) ==> i == j
  }

  ghost predicate AtRest(stages: seq<StageRecord>) {
    forall i :: 0 <= i < |stages| ==> !stages[i].status.InProgress?
  }

  /** A run that succeeded has no stage left to execute. */
  ghost predicate Ended(run: Run) {
    run.record.status.Succeeded? ==> NextStage(run.stages).None? && Done(run.stages, Release)
  }

  /** The stage run the driver executes next. */
  ghost function Current(run: Run): StageRecord
    requires NextStage(run.stages).Some? && HasOpen(run.stages, NextStage(run.stages).value)
  {
    run.stages[Active(run.stages, NextStage(run.stages).value).value]
  }

  ghost predicate CurrentIs(run: Run, st: StageStatus) {
    && NextStage(run.stages).Some? && HasOpen(run.stages, NextStage(run.stages).value)
    && Current(run).status == st
  }

  ghost predicate Parked(run: Run) {
    && (run.record.status.Waiting? ==> CurrentIs(run, StageStatus.Waiting))
    && (run.record.status.Blocked? ==> CurrentIs(run, StageStatus.Blocked))
  }

  ghost predicate RunInv(run: Run) {
    Chained(run.stages) && OneRelease(run.stages) && AtRest(run.stages) && Ended(run) && Parked(run)
    && run.usedRework <= run.maxRework
  }

  /** The facts of a step the lemmas below build on. */
  ghost predicate Stepped(run: Run, run': Run, i: nat, r: StageResult, d: Decision, kind: Kind) {
    && NextStage(run.stages) == Some(r.stage) && Active(run.stages, r.stage) == Some(i)
    && Shape(run, run', i, r, d, kind)
  }

  lemma {:induction false} DoneStays(stages: seq<StageRecord>, stages': seq<StageRecord>, i: nat, s: Stage)
    requires i < |stages| <= |stages'| && IsOpen(stages[i])
    requires forall k :: 0 <= k < |stages| && k != i ==> stages'[k] == stages[k]
    requires Done(stages, s)
    ensures Done(stages', s)
  {
    var j :| 0 <= j < |stages| && stages[j].stage == s && stages[j].status.Succeeded?;
    assert stages'[j] == stages[j];
  }

  lemma {:induction false} ChainedKept(run: Run, run': Run, i: nat, r: StageResult, d: Decision, kind: Kind)
    requires Stepped(run, run', i, r, d, kind) && Chained(run.stages)
    ensures Chained(run'.stages)
  {
    var s, s' := run.stages, run'.stages;
    forall k, p | 0 <= k < |s'| && Successor(p) == Some(s'[k].stage) ensures Done(s', p) {
      if k < |s| {
        assert s'[k].stage == s[k].stage;
        DoneStays(s, s', i, p);
      } else if d.action.Rework? && r.stage.ReviewVerification? {
        assert Successor(Construction) == Some(s[i].stage) && Done(s, Construction);
        var j :| 0 <= j < |s| && s[j].stage == Construction && s[j].status.Succeeded?;
        assert Successor(p) == Some(s[j].stage);
        DoneStays(s, s', i, p);
      } else if kind.target == r.stage {
        assert Successor(p) == Some(s[i].stage);
        DoneStays(s, s', i, p);
      } else {
        assert s'[i].stage == p && s'[i].status.Succeeded?;
      }
    }
  }

  lemma {:induction false} OneReleaseKept(run: Run, run': Run, i: nat, r: StageResult, d: Decision, kind: Kind)
    requires Stepped(run, run', i, r, d, kind) && OneRelease(run.stages)
    requires Allowed(r.stage, r.action) && (d.action == r.action || !kind.Chains?)
    ensures OneRelease(run'.stages)
  {
    var s, s' := run.stages, run'.stages;
    var moved := s[i := s'[i]];
    forall a: nat, b: nat | OpenAt(s', Release, a) && OpenAt(s', Release, b) ensures a == b {
      assert a < |s| ==> OpenAt(s, Release, a) && OpenAt(moved, Release, a);
      assert b < |s| ==> OpenAt(s, Release, b) && OpenAt(moved, Release, b);
    }
  }

  /** Parking and blocking leave the same stage run to execute. */
  lemma {:induction false} ParkedAfter(run: Run, run': Run, i: nat, r: StageResult, d: Decision, kind: Kind)
    requires Stepped(run, run', i, r, d, kind) && (kind.Parks? || kind.Blocks?)
    ensures NextStage(run'.stages) == Some(r.stage) && Active(run'.stages, r.stage) == Some(i)
  {
    var s, s' := run.stages, run'.stages;
    TerminalStatuses(RunStatus.Pending, s'[i].status);
    assert s' == s[i := s'[i]];
    assert forall st: Stage, k: nat :: OpenAt(s', st, k) <==> OpenAt(s, st, k);
    NextStageIsFirst(s);
    NextStageIsFirst(s');
    assert OpenAt(s', r.stage, i);
    forall st: Stage | HasOpen(s', st) ensures HasOpen(s, st) {
      assert OpenAt(s, st, Active(s', st).value);
    }
    assert Position(NextStage(s').value) == Position(r.stage);
  }

  lemma {:induction false} EndedKept(run: Run, run': Run, i: nat, r: StageResult, d: Decision, kind: Kind)
    requires Stepped(run, run', i, r, d, kind) && OneRelease(run.stages)
    ensures Ended(run')
  {
    if kind.Completes? {
      var s, s' := run.stages, run'.stages;
      NextStageIsFirst(s);
      NextStageIsFirst(s');
      forall st: Stage | HasOpen(s', st) ensures false {
        var k := Active(s', st).value;
        assert OpenAt(s, st, k);
      }
      assert s'[i].stage == Release && s'[i].status.Succeeded?;
    }
  }

  lemma {:induction false} StepKeepsRun(run: Run, run': Run, i: nat, r: StageResult, d: Decision, kind: Kind)
    requires RunInv(run) && Stepped(run, run', i, r, d, kind)
    requires Allowed(r.stage, r.action) && (d.action == r.action || !kind.Chains?)
    ensures RunInv(run')
  {
    ChainedKept(run, run', i, r, d, kind);
    OneReleaseKept(run, run', i, r, d, kind);
    EndedKept(run, run', i, r, d, kind);
    if kind.Parks? || kind.Blocks? {
      ParkedAfter(run, run', i, r, d, kind);
    }
  }

  // ----- what every step keeps of the results on file

  lemma {:induction false} HoldsAppended(results: seq<Recorded>, x: Recorded, op: nat, a: nat)
    ensures Holds(results + [x], op, a)
            == if x.op == op && x.result.attempt == a then Some(x.result) else Holds(results, op, a)
  {
    assert (results + [x])[..|results|] == results;
  }

  lemma {:induction false} WithoutKeeps(results: seq<Recorded>, op: nat, a: nat, op': nat, a': nat)
    ensures op != op' || a != a' ==> Holds(Without(results, op, a), op', a') == Holds(results, op', a')
    ensures forall x :: x in Without(results, op, a) ==> x in results
  {
    if results != [] {
      var init, last := results[..|results| - 1], results[|results| - 1];
      WithoutKeeps(init, op, a, op', a');
      HoldsAppended(Without(init, op, a), last, op', a');
      assert results == init + [last];
      assert Without(init, op, a) + [] == Without(init, op, a);
    }
  }

  lemma {:induction false} HoldsIsOnFile(results: seq<Recorded>, op: nat, a: nat)
    ensures var h := Holds(results, op, a);
            h.Some? ==> Recorded(op, h.value) in results && h.value.attempt == a
  {
    if results != [] {
      HoldsIsOnFile(results[..|results| - 1], op, a);
    }
  }

  lemma {:induction false} RecordEffect(results: seq<Recorded>, op: nat, r: StageResult, op': nat, a': nat)
    requires Record(results, op, r).Some?
    ensures var results' := Record(results, op, r).value;
            && (forall x :: x in results' ==> x in results || x == Recorded(op, r))
            && Holds(results', op', a') == if op' == op && a' == r.attempt then Some(r) else Holds(results, op', a')
  {
    HoldsAppended(results, Recorded(op, r), op', a');
    HoldsAppended(Without(results, op, r.attempt), Recorded(op, r), op', a');
    WithoutKeeps(results, op, r.attempt, op', a');
  }

  /** A recorded attempt was entered: its stage run left `pending` and reached that attempt number. */
  ghost predicate Filed(sys: System) {
    forall x :: x in sys.results ==>
      x.op < |sys.run.stages| && x.result.attempt <= sys.run.stages[x.op].attempt
      && !sys.run.stages[x.op].status.Pending?
  }

  /** The result a waiting stage run waits on is on file: a checkpoint, or a merge left to a human. */
  ghost predicate WaitsOnFile(sys: System, i: nat)
    requires i < |sys.run.stages|
  {
    sys.run.stages[i].status.Waiting? ==>
      var h := Holds(sys.results, i, sys.run.stages[i].attempt);
      h.Some? && (h.value.status.Waiting? || h.value.action.Merge?)
  }

  ghost predicate WaitsFiled(sys: System) {
    forall i :: 0 <= i < |sys.run.stages| ==> WaitsOnFile(sys, i)
  }

  ghost predicate CleanOnFile(sys: System) {
    sys.run.record.status.Succeeded? ==>
      forall x :: x in sys.results ==> ReadModels.ResultViolations(x.result) == []
  }

  function Reworks(log: seq<Entry>): nat {
    if log == [] then 0 else Reworks(log[..|log| - 1]) + if log[|log| - 1].decision.action.Rework? then 1 else 0
  }

  function Spent(log: seq<Entry>): Spend {
    if log == [] then Spend(0, 0.0) else Added(Spent(log[..|log| - 1]), log[|log| - 1].result)
  }

  ghost predicate Accounted(sys: System) {
    sys.run.usedRework == Reworks(sys.log) && sys.run.spend == Spent(sys.log)
  }

  /** One row per operation: no two rows share stage and revision. */
  ghost predicate Keyed(sys: System) {
    && |sys.pins| == |sys.run.stages|
    && forall a, b :: 0 <= a < b < |sys.pins| ==>
         sys.run.stages[a].stage != sys.run.stages[b].stage || sys.pins[a] != sys.pins[b]
  }

  ghost predicate NeverReused(sys: System) {
    forall k :: 0 <= k < |sys.log| ==> !sys.log[k].reused
  }

  /** A run that can still move has a stage to execute, as long as no decision fell onto an existing row. */
  ghost predicate Going(sys: System) {
    !RunTerminal(sys.run.record.status) && NeverReused(sys) ==> NextStage(sys.run.stages).Some?
  }

  ghost predicate Inv(sys: System) {
    && RunInv(sys.run) && Filed(sys) && WaitsFiled(sys) && CleanOnFile(sys) && Accounted(sys)
    && Keyed(sys) && Going(sys)
  }

  /** Results without violations, one by one. */
  lemma {:induction false} NoneViolates(h: seq<StageResult>)
    requires ReadModels.Violations(h) == []
    ensures forall r :: r in h ==> ReadModels.ResultViolations(r) == []
  {
    if h != [] {
      NoneViolates(h[..|h| - 1]);
    }
  }

  lemma {:induction false} AllClean(h: seq<StageResult>)
    requires forall r :: r in h ==> ReadModels.ResultViolations(r) == []
    ensures ReadModels.Violations(h) == []
  {
    if h != [] {
      AllClean(h[..|h| - 1]);
      assert h[|h| - 1] in h;
    }
  }

  /** An advance that was persisted. */
  ghost predicate Persisted(sys: System, r: StageResult, p: Policy, now: int) {
    && !RunTerminal(sys.run.record.status) && Answers(sys.run, r) && HasOpen(sys.run.stages, r.stage)
    && ApplyResult(sys.run, r, p, History(sys.results), now).decision.Ok?
    && Record(sys.results, Active(sys.run.stages, r.stage).value, r).Some?
  }

  ghost function DecisionOf(sys: System, r: StageResult, p: Policy, now: int): Decision
    requires Persisted(sys, r, p, now)
  {
    ApplyResult(sys.run, r, p, History(sys.results), now).decision.value
  }

  /** The decision needs a stage run whose operation has a row already. */
  predicate Reuses(sys: System, d: Decision, revision: string) {
    && d.nextStage.Some? && Fresh(sys.run, d.stage, d.nextStage.value)
    && HasRow(sys.run, sys.pins, d.nextStage.value, revision)
  }

  /** The kind of a decision on file: it adds a row for every stage run it opens, unless the operation has one. */
  ghost function StoredKind(sys: System, d: Decision, revision: string): Kind {
    var kind := KindOf(sys.run, d);
    if Reuses(sys, d, revision) then Chains(kind.target, false) else kind
  }

  /** From `sys` to `sys'` by one persisted decision. */
  ghost predicate Moves(sys: System, sys': System, r: StageResult, d: Decision, revision: string) {
    && HasOpen(sys.run.stages, r.stage) && Allowed(r.stage, r.action)
    && r.attempt == AttemptNumber(sys.run.stages, r.stage)
    && (d.nextStage.Some? ==> d.action == r.action)
    && var i := Active(sys.run.stages, r.stage).value;
       var kind := StoredKind(sys, d, revision);
       && Stepped(sys.run, sys'.run, i, r, d, kind)
       && Record(sys.results, i, r) == Some(sys'.results)
       && sys'.log == sys.log + [Entry(r, d, Reuses(sys, d, revision))]
       && sys'.pins == sys.pins + if kind.Chains? && kind.added then [revision] else []
  }

  lemma {:induction false} WalkedEnds(s: StageRecord, walk: seq<StageStatus>, now: int)
    ensures var w := Walked(s, walk, now);
            w.stage == s.stage && w.attempt == s.attempt && w.status == StageEnd(s.status, walk)
  {
    if walk != [] {
      WalkedEnds(s, walk[..|walk| - 1], now);
    }
  }

  /** The row follows the decision: the table has a walk to the new status. */
  lemma {:induction false} RowFollows(row: StageRecord, st: StageStatus, attempt: nat, now: int)
    requires IsOpen(row) && ResultStatus(st) && attempt >= row.attempt
    ensures StagePath(row.status, st).Ok?
    ensures var w := RowAfter(row, st, attempt, now);
            w.stage == row.stage && w.attempt == attempt && w.status == st
  {
    TerminalStatuses(RunStatus.Pending, row.status);
    StagePathIsLegal(row.status, st);
    var counted := row.(attempt := attempt);
    WalkedEnds(counted, StagePath(row.status, st).value, now);
  }

  lemma {:induction false} PersistShape(
    sys: System, i: nat, r: StageResult, o: Outcome, results: seq<Recorded>, revision: string, now: int)
    requires o.decision.Ok? && Active(sys.run.stages, r.stage) == Some(i) && r.attempt >= sys.run.stages[i].attempt
    requires Shape(sys.run, o.run, i, r, o.decision.value, KindOf(sys.run, o.decision.value))
    ensures Opens(sys.run, o) ==> o.decision.value.nextStage.Some?
    ensures var sys' := Persist(sys, i, r, o, results, revision, now);
            var d := o.decision.value;
            var kind := StoredKind(sys, d, revision);
            && Shape(sys.run, sys'.run, i, r, d, kind)
            && sys'.log == sys.log + [Entry(r, d, Reuses(sys, d, revision))]
            && sys'.pins == sys.pins + (if kind.Chains? && kind.added then [revision] else [])
  {
    var d := o.decision.value;
    var memory := KindOf(sys.run, d);
    assert Opens(sys.run, o) <==> memory.Chains? && memory.added;
    RowFollows(sys.run.stages[i], d.stageStatus, r.attempt, now);
    var sys' := Persist(sys, i, r, o, results, revision, now);
    assert sys'.run.stages[i] == RowAfter(sys.run.stages[i], d.stageStatus, r.attempt, now);
  }

  lemma {:induction false} PersistedMoves(sys: System, r: StageResult, p: Policy, revision: string, now: int)
    requires Persisted(sys, r, p, now)
    ensures Moves(sys, AdvanceStep(sys, r, p, revision, now), r, DecisionOf(sys, r, p, now), revision)
  {
    var h := History(sys.results);
    var o := ApplyResult(sys.run, r, p, h, now);
    var i := Active(sys.run.stages, r.stage).value;
    ApplyShape(sys.run, r, p, h, now);
    ChainHonours(sys.run, r, p, h, now);
    PersistShape(sys, i, r, o, Record(sys.results, i, r).value, revision, now);
    assert AdvanceStep(sys, r, p, revision, now)
        == Persist(sys, i, r, o, Record(sys.results, i, r).value, revision, now);
  }

  /** A decision that names a next stage carries out the action it was asked for. */
  lemma {:induction false} ChainHonours(run: Run, r: StageResult, p: Policy, h: seq<StageResult>, now: int)
    requires ApplyResult(run, r, p, h, now).decision.Ok?
    ensures Allowed(r.stage, r.action)
    ensures var d := ApplyResult(run, r, p, h, now).decision.value;
            d.nextStage.Some? ==> d.action == r.action
  {
    EnterInProgress(run.stages, r, now);
  }

  lemma {:induction false} FiledKept(sys: System, sys': System, i: nat, r: StageResult, d: Decision, kind: Kind)
    requires Filed(sys) && WaitsFiled(sys) && Stepped(sys.run, sys'.run, i, r, d, kind)
    requires Record(sys.results, i, r) == Some(sys'.results)
    requires r.attempt == AttemptNumber(sys.run.stages, r.stage)
    ensures Filed(sys') && WaitsFiled(sys')
  {
    RecordEffect(sys.results, i, r, 0, 0);
    forall k | 0 <= k < |sys'.run.stages| ensures WaitsOnFile(sys', k) {
      WaitsKept(sys, sys', i, r, d, kind, k);
    }
  }

  lemma {:induction false} WaitsKept(
    sys: System, sys': System, i: nat, r: StageResult, d: Decision, kind: Kind, k: nat)
    requires WaitsFiled(sys) && Stepped(sys.run, sys'.run, i, r, d, kind) && k < |sys'.run.stages|
    requires Record(sys.results, i, r) == Some(sys'.results)
    requires r.attempt == AttemptNumber(sys.run.stages, r.stage)
    ensures WaitsOnFile(sys', k)
  {
    RecordEffect(sys.results, i, r, k, sys'.run.stages[k].attempt);
    if k < |sys.run.stages| && k != i {
      assert sys'.run.stages[k] == sys.run.stages[k] && WaitsOnFile(sys, k);
    }
  }

  lemma {:induction false} CleanStays(results: seq<Recorded>, op: nat, r: StageResult)
    requires ReadModels.Violations(History(results) + [r]) == [] && Record(results, op, r).Some?
    ensures forall x :: x in Record(results, op, r).value ==> ReadModels.ResultViolations(x.result) == []
  {
    var h := History(results);
    NoneViolates(h + [r]);
    RecordEffect(results, op, r, 0, 0);
    forall x | x in Record(results, op, r).value ensures ReadModels.ResultViolations(x.result) == [] {
      if x in results {
        var k :| 0 <= k < |results| && results[k] == x;
        assert (h + [r])[k] == x.result;
      } else {
        assert (h + [r])[|h|] == x.result;
      }
    }
  }

  lemma {:induction false} CleanKept(sys: System, r: StageResult, p: Policy, revision: string, now: int)
    requires Persisted(sys, r, p, now)
    ensures CleanOnFile(AdvanceStep(sys, r, p, revision, now))
  {
    PersistedMoves(sys, r, p, revision, now);
    if DecisionOf(sys, r, p, now).runStatus.Succeeded? {
      CompletesClean(sys.run, r, p, History(sys.results), now);
      CleanStays(sys.results, Active(sys.run.stages, r.stage).value, r);
    }
  }

  lemma {:induction false} KeyedKept(sys: System, sys': System, r: StageResult, d: Decision, revision: string)
    requires Keyed(sys) && Moves(sys, sys', r, d, revision)
    ensures Keyed(sys')
  {
    var n := |sys.pins|;
    forall a, b | 0 <= a < b < |sys'.pins|
      ensures sys'.run.stages[a].stage != sys'.run.stages[b].stage || sys'.pins[a] != sys'.pins[b]
    {
      assert sys'.run.stages[a].stage == sys.run.stages[a].stage && sys'.pins[a] == sys.pins[a];
      if b < n {
        assert sys'.run.stages[b].stage == sys.run.stages[b].stage && sys'.pins[b] == sys.pins[b];
      }
    }
  }

  /** A step that finds its row new, or needs none, leaves a stage to execute or ends the run. */
  lemma {:induction false} OpenAfter(sys: System, sys': System, r: StageResult, d: Decision, revision: string)
    requires Moves(sys, sys', r, d, revision) && !Reuses(sys, d, revision)
    ensures d.nextStage.Some? ==> HasOpen(sys'.run.stages, d.nextStage.value)
    ensures !RunTerminal(sys'.run.record.status) ==> NextStage(sys'.run.stages).Some?
  {
    var s, s' := sys.run.stages, sys'.run.stages;
    var i := Active(s, r.stage).value;
    var kind := StoredKind(sys, d, revision);
    NextStageIsFirst(s');
    if kind.Chains? {
      if kind.added {
        assert OpenAt(s', kind.target, |s|);
      } else {
        assert OpenAt(s', kind.target, Active(s, kind.target).value);
      }
    } else if kind.Parks? || kind.Blocks? {
      ParkedAfter(sys.run, sys'.run, i, r, d, kind);
    }
  }

  lemma {:induction false} GoingKept(sys: System, sys': System, r: StageResult, d: Decision, revision: string)
    requires Moves(sys, sys', r, d, revision)
    ensures Going(sys')
  {
    if NeverReused(sys') {
      assert !sys'.log[|sys.log|].reused;
      OpenAfter(sys, sys', r, d, revision);
    }
  }

  lemma {:induction false} PersistKeeps(sys: System, sys': System, r: StageResult, d: Decision, revision: string)
    requires Inv(sys) && Moves(sys, sys', r, d, revision) && CleanOnFile(sys')
    ensures Inv(sys')
  {
    var i := Active(sys.run.stages, r.stage).value;
    var kind := StoredKind(sys, d, revision);
    StepKeepsRun(sys.run, sys'.run, i, r, d, kind);
    FiledKept(sys, sys', i, r, d, kind);
    KeyedKept(sys, sys', r, d, revision);
    GoingKept(sys, sys', r, d, revision);
    assert sys'.log[..|sys.log|] == sys.log;
  }

  lemma {:induction false} AdvanceKeeps(sys: System, r: StageResult, p: Policy, revision: string, now: int)
    requires Inv(sys)
    ensures Inv(AdvanceStep(sys, r, p, revision, now))
  {
    if Persisted(sys, r, p, now) {
      PersistedMoves(sys, r, p, revision, now);
      CleanKept(sys, r, p, revision, now);
      PersistKeeps(sys, AdvanceStep(sys, r, p, revision, now), r, DecisionOf(sys, r, p, now), revision);
    }
  }

  lemma {:induction false} ChainedCanceled(s: seq<StageRecord>, now: int)
    requires Chained(s)
    ensures Chained(CanceledStages(s, now))
  {
    var s' := CanceledStages(s, now);
    forall k, p | 0 <= k < |s'| && Successor(p) == Some(s'[k].stage) ensures Done(s', p) {
      assert s'[k].stage == s[k].stage;
      var j :| 0 <= j < |s| && s[j].stage == p && s[j].status.Succeeded?;
      assert s'[j] == s[j];
    }
  }

  lemma {:induction false} CanceledFacts(s: seq<StageRecord>, now: int)
    ensures var s' := CanceledStages(s, now);
            && NextStage(s').None?
            && forall k :: 0 <= k < |s'| ==>
                 !IsOpen(s'[k]) && s'[k].stage == s[k].stage && s'[k].attempt == s[k].attempt
                 && (s[k].status.Succeeded? ==> s'[k] == s[k])
  {
    var s' := CanceledStages(s, now);
    assert forall k :: 0 <= k < |s'| ==> !IsOpen(s'[k]);
    assert forall st: Stage, k: nat :: !OpenAt(s', st, k);
  }

  lemma {:induction false} RunCanceled(run: Run, now: int)
    requires RunInv(run)
    ensures RunInv(run.(record := RunMoved(run.record, RunStatus.Canceled, now),
                        stages := CanceledStages(run.stages, now)))
  {
    CanceledFacts(run.stages, now);
    ChainedCanceled(run.stages, now);
  }

  lemma {:induction false} WithdrawKeeps(sys: System, now: int)
    requires Inv(sys)
    ensures Inv(WithdrawStep(sys, now))
  {
    if !RunTerminal(sys.run.record.status) {
      var sys' := WithdrawStep(sys, now);
      RunCanceled(sys.run, now);
      CanceledFacts(sys.run.stages, now);
      assert Filed(sys') && WaitsFiled(sys');
    }
  }

  lemma {:induction false} RunKeeps(start: System, steps: seq<Step>)
    requires Inv(start)
    ensures Inv(RunOf(start, steps))
  {
    if steps != [] {
      var before, step := RunOf(start, steps[..|steps| - 1]), steps[|steps| - 1];
      RunKeeps(start, steps[..|steps| - 1]);
      if step.Advance? {
        AdvanceKeeps(before, step.result, step.policy, step.revision, step.now);
      } else {
        WithdrawKeeps(before, step.now);
      }
    }
  }
}
