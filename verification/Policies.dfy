/** The gate, risk and merge policies whose verdicts the flow acts on, computed from what is observed of a stage. */
module Policies {
  import opened Base
  import opened StageResults
  import opened L = Lifecycle
  import opened Flow
  import OrderedDict
  import ReadModels
  import A = Approvals

  datatype Route = Quick | Standard | Architecture | Foundation

  datatype Risk = R0 | R1 | R2 | R3 | R4

  datatype Source = Human | Rule | Agent

  /** A decision on a gate; `sha` is the revision it authorizes. */
  datatype Approval = Approval(gate: A.Gate, outcome: A.Outcome, source: Source, sha: Option<string>)

  datatype Executor = ByHuman | ByFinalizer | ByAgent

  datatype MergeFacts = MergeFacts(
    executor: Executor, expected: Option<string>, head: Option<string>, approvals: seq<Approval>)

  datatype RiskFacts = RiskFacts(
    protectedBoundary: bool, newPath: bool, irreversible: bool, regulated: bool,
    documentation: bool, selfModification: bool)

  /** What is known when a result is applied. */
  datatype Facts = Facts(
    route: Route, declared: Risk, observed: RiskFacts, input: Option<string>,
    approvals: seq<Approval>, merge: Option<MergeFacts>)

  // ----- risk

  function Rank(r: Risk): nat {
    match r
    case R0 => 0
    case R1 => 1
    case R2 => 2
    case R3 => 3
    case R4 => 4
  }

  function Max(a: Risk, b: Risk): Risk { if Rank(a) < Rank(b) then b else a }

  function Classify(f: RiskFacts): Risk {
    if f.selfModification then R4
    else if f.irreversible || f.regulated then R3
    else if f.protectedBoundary || f.newPath then R2
    else if f.documentation then R0
    else R1
  }

  function Floor(route: Route): Risk {
    match route
    case Quick => R0
    case Standard => R0
    case Architecture => R2
    case Foundation => R3
  }

  function Ceiling(route: Route): Risk { if route.Quick? then R1 else R4 }

  function Effective(f: Facts): Risk { Max(Max(f.declared, Classify(f.observed)), Floor(f.route)) }

  predicate Raised(r: Risk) { Rank(r) >= 2 }

  predicate RouteAllows(route: Route, r: Risk) { Rank(Floor(route)) <= Rank(r) <= Rank(Ceiling(route)) }

  /** No input lowers the class, and it is one of the three; the band then refuses exactly raised classes on `quick`. */
  lemma {:induction false} EffectiveIsMaximum(f: Facts)
    ensures var r := Effective(f);
            && Rank(r) >= Rank(f.declared) && Rank(r) >= Rank(Classify(f.observed)) && Rank(r) >= Rank(Floor(f.route))
            && (r == f.declared || r == Classify(f.observed) || r == Floor(f.route))
            && (!RouteAllows(f.route, r) <==> f.route.Quick? && Raised(r))
  {
  }

  /** What puts a run into each class, fact by fact. */
  lemma {:induction false} ClassExactly(f: Facts)
    ensures var r, o := Effective(f), f.observed;
            && (r == R4 <==> f.declared == R4 || o.selfModification)
            && (r in {R3, R4} <==>
                  || f.declared in {R3, R4} || f.route == Foundation
                  || o.selfModification || o.irreversible || o.regulated)
            && (Raised(r) <==> r in {R2, R3, R4})
            && (Raised(r) <==>
                  || f.declared in {R2, R3, R4} || f.route in {Route.Architecture, Foundation}
                  || o.selfModification || o.irreversible || o.regulated || o.protectedBoundary || o.newPath)
            && (r == R0 <==> !Raised(r) && f.declared == R0 && o.documentation)
  {
  }

  // ----- gates

  function RequiredGates(route: Route, stage: Stage): set<A.Gate> {
    match stage
    case Specification =>
      if route.Quick? then {A.Gate.Specification} else {A.Gate.Specification, A.Gate.Ui}
    case Planning => {A.Gate.Planning}
    case Construction => {A.Gate.Code}
    case ReviewVerification => {A.Gate.Review, A.Gate.Verification}
    case Release => {A.Gate.Release}
  }

  function HumanGates(r: Risk): set<A.Gate> {
    var base := {A.Gate.Specification, A.Gate.Ui, A.Gate.Review};
    match r
    case R0 => base
    case R1 => base
    case R2 => base + {A.Gate.Planning}
    case R3 | R4 =>
      {A.Gate.Specification, A.Gate.Planning, A.Gate.Code, A.Gate.Ui, A.Gate.Review,
       A.Gate.Verification, A.Gate.Release}
  }

  function RequiredHumanGates(route: Route, stage: Stage, r: Risk): set<A.Gate> {
    HumanGates(r) * RequiredGates(route, stage)
  }

  /** The last result of the gate passed or was skipped. */
  predicate Satisfied(gates: seq<GateResult>, gate: A.Gate) {
    var last := OrderedDict.Latest(ReadModels.GatePairs(gates), gate);
    last.Some? && (last.value.status.Passed? || last.value.status.Skipped?)
  }

  predicate AllSatisfied(route: Route, stage: Stage, gates: seq<GateResult>) {
    forall g :: g in RequiredGates(route, stage) ==> Satisfied(gates, g)
  }

  /** The last report on the gate is a pass or a skip. */
  ghost predicate LastPassed(gates: seq<GateResult>, g: A.Gate) {
    exists k: nat :: IsLastOn(gates, g, k)
                     && (gates[k].status == GateStatus.Passed || gates[k].status == GateStatus.Skipped)
  }

  ghost predicate IsLastOn(gates: seq<GateResult>, g: A.Gate, k: nat) {
    k < |gates| && gates[k].gate == g && forall j :: k < j < |gates| ==> gates[j].gate != g
  }

  /** The last report on the gate at this revision is a pass or a skip. */
  ghost predicate LastPassedAt(gates: seq<GateResult>, g: A.Gate, sha: string) {
    exists k: nat :: IsLastAt(gates, g, sha, k)
                     && (gates[k].status == GateStatus.Passed || gates[k].status == GateStatus.Skipped)
  }

  ghost predicate IsLastAt(gates: seq<GateResult>, g: A.Gate, sha: string, k: nat) {
    && k < |gates| && gates[k].gate == g && gates[k].sha == Some(sha)
    && forall j :: k < j < |gates| ==> gates[j].gate != g || gates[j].sha != Some(sha)
  }

  /** The gates that a stage needs, off and on the quick route. */
  ghost predicate GatesPassed(quick: bool, stage: Stage, gates: seq<GateResult>) {
    match stage
    case Specification => LastPassed(gates, A.Gate.Specification) && (!quick ==> LastPassed(gates, A.Gate.Ui))
    case Planning => LastPassed(gates, A.Gate.Planning)
    case Construction => LastPassed(gates, A.Gate.Code)
    case ReviewVerification => LastPassed(gates, A.Gate.Review) && LastPassed(gates, A.Gate.Verification)
    case Release => LastPassed(gates, A.Gate.Release)
  }

  lemma {:induction false} SatisfiedExactly(gates: seq<GateResult>, g: A.Gate)
    ensures Satisfied(gates, g) <==> LastPassed(gates, g)
  {
    if gates != [] {
      var n := |gates| - 1;
      var init := gates[..n];
      assert gates == init + [gates[n]];
      SatisfiedSnoc(init, gates[n], g);
      if gates[n].gate == g {
        assert IsLastOn(gates, g, n);
      } else {
        SatisfiedExactly(init, g);
        assert forall k: nat :: IsLastOn(gates, g, k) <==> IsLastOn(init, g, k);
      }
    }
  }

  lemma {:induction false} SatisfiedAtExactly(gates: seq<GateResult>, g: A.Gate, sha: string)
    ensures Satisfied(AtRevision(gates, sha), g) <==> LastPassedAt(gates, g, sha)
  {
    if gates != [] {
      var init, last := gates[..|gates| - 1], gates[|gates| - 1];
      assert gates == init + [last];
      SatisfiedAtExactly(init, g, sha);
      SatisfiedAtSnoc(init, last, g, sha);
      LastPassedAtSnoc(init, last, g, sha);
    }
  }

  lemma {:induction false} SatisfiedAtSnoc(gates: seq<GateResult>, r: GateResult, g: A.Gate, sha: string)
    ensures Satisfied(AtRevision(gates + [r], sha), g) <==>
              if r.gate == g && r.sha == Some(sha) then r.status.Passed? || r.status.Skipped?
              else Satisfied(AtRevision(gates, sha), g)
  {
    assert (gates + [r])[..|gates|] == gates;
    if r.sha == Some(sha) {
      SatisfiedSnoc(AtRevision(gates, sha), r, g);
    } else {
      assert AtRevision(gates + [r], sha) == AtRevision(gates, sha);
    }
  }

  lemma {:induction false} LastPassedAtSnoc(gates: seq<GateResult>, r: GateResult, g: A.Gate, sha: string)
    ensures LastPassedAt(gates + [r], g, sha) <==>
              if r.gate == g && r.sha == Some(sha) then r.status.Passed? || r.status.Skipped?
              else LastPassedAt(gates, g, sha)
  {
    var all, n := gates + [r], |gates|;
    if r.gate == g && r.sha == Some(sha) {
      assert IsLastAt(all, g, sha, n);
    } else {
      forall k: nat ensures IsLastAt(all, g, sha, k) <==> IsLastAt(gates, g, sha, k) {
        assert k < n ==> all[k] == gates[k];
        assert all[n] == r;
        assert forall j :: 0 <= j < n ==> all[j] == gates[j];
      }
    }
  }

  lemma {:induction false} SatisfiedSnoc(gates: seq<GateResult>, r: GateResult, g: A.Gate)
    ensures Satisfied(gates + [r], g) <==>
              if r.gate == g then r.status.Passed? || r.status.Skipped? else Satisfied(gates, g)
  {
    assert (gates + [r])[..|gates|] == gates;
    var pairs := ReadModels.GatePairs(gates);
    assert ReadModels.GatePairs(gates + [r]) == pairs + [(r.gate, r)];
    assert (pairs + [(r.gate, r)])[..|pairs|] == pairs;
  }

  lemma {:induction false} GatesExactly(route: Route, stage: Stage, gates: seq<GateResult>)
    ensures AllSatisfied(route, stage, gates) <==> GatesPassed(route == Quick, stage, gates)
  {
    forall g: A.Gate ensures Satisfied(gates, g) <==> LastPassed(gates, g) {
      SatisfiedExactly(gates, g);
    }
    RequiredExactly(route, stage);
  }

  lemma {:induction false} RequiredExactly(route: Route, stage: Stage)
    ensures forall g :: g in RequiredGates(route, stage) <==>
              match stage
              case Specification => g == A.Gate.Specification || (g == A.Gate.Ui && route != Quick)
              case Planning => g == A.Gate.Planning
              case Construction => g == A.Gate.Code
              case ReviewVerification => g == A.Gate.Review || g == A.Gate.Verification
              case Release => g == A.Gate.Release
  {
  }

  function AtRevision(gates: seq<GateResult>, sha: string): seq<GateResult> {
    if gates == [] then []
    else AtRevision(gates[..|gates| - 1], sha)
         + if gates[|gates| - 1].sha == Some(sha) then [gates[|gates| - 1]] else []
  }

  // ----- control points: the gates a human confirms at a stage

  function ControlGates(stage: Stage): set<A.Gate> {
    match stage
    case Specification => {A.Gate.Specification, A.Gate.Ui}
    case Planning => {A.Gate.Planning}
    case ReviewVerification => {A.Gate.Review}
    case Construction | Release => {}
  }

  predicate Approves(a: Approval, gate: A.Gate, sha: Option<string>) {
    a.source.Human? && a.outcome.Approved? && a.gate == gate && a.sha == sha
  }

  predicate Approved(approvals: seq<Approval>, gate: A.Gate, sha: Option<string>) {
    exists i :: 0 <= i < |approvals| && Approves(approvals[i], gate, sha)
  }

  predicate ControlPointsClosed(route: Route, stage: Stage, r: Risk, approvals: seq<Approval>, sha: Option<string>) {
    forall g :: g in ControlGates(stage) && g in RequiredHumanGates(route, stage, r) ==> Approved(approvals, g, sha)
  }

  /** A human approved the gate at this revision. */
  ghost predicate HumanApproved(approvals: seq<Approval>, gate: A.Gate, sha: Option<string>) {
    exists i :: 0 <= i < |approvals| && approvals[i] == Approval(gate, A.Outcome.Approved, Human, sha)
  }

  /** What a human has to approve before a stage is left, by the class of the run. */
  ghost predicate HumansApproved(
    quick: bool, raised: bool, stage: Stage, approvals: seq<Approval>, sha: Option<string>)
  {
    match stage
    case Specification =>
      HumanApproved(approvals, A.Gate.Specification, sha) && (!quick ==> HumanApproved(approvals, A.Gate.Ui, sha))
    case Planning => raised ==> HumanApproved(approvals, A.Gate.Planning, sha)
    case ReviewVerification => HumanApproved(approvals, A.Gate.Review, sha)
    case Construction | Release => true
  }

  lemma {:induction false} ControlPointsExactly(
    route: Route, stage: Stage, r: Risk, approvals: seq<Approval>, sha: Option<string>)
    ensures ControlPointsClosed(route, stage, r, approvals, sha)
            <==> HumansApproved(route == Quick, Raised(r), stage, approvals, sha)
  {
    forall g: A.Gate ensures Approved(approvals, g, sha) <==> HumanApproved(approvals, g, sha) {
    }
    HumanRequiredExactly(route, stage, r);
  }

  lemma {:induction false} HumanRequiredExactly(route: Route, stage: Stage, r: Risk)
    ensures forall g :: g in RequiredHumanGates(route, stage, r) <==>
              match stage
              case Specification => g == A.Gate.Specification || (g == A.Gate.Ui && route != Quick)
              case Planning => g == A.Gate.Planning && r in {R2, R3, R4}
              case Construction => g == A.Gate.Code && r in {R3, R4}
              case ReviewVerification => g == A.Gate.Review || (g == A.Gate.Verification && r in {R3, R4})
              case Release => g == A.Gate.Release && r in {R3, R4}
  {
  }

  /** `sha` is what the first passed one of these gates names, or the input revision where none names any. */
  ghost predicate BoundTo(input: Option<string>, gates: seq<GateResult>, confirming: set<A.Gate>, sha: Option<string>) {
    if exists k: nat :: FirstPassed(gates, confirming, k)
    then exists k: nat :: FirstPassed(gates, confirming, k)
                          && sha == if gates[k].sha == None || gates[k].sha == Some("") then input else gates[k].sha
    else sha == input
  }

  ghost predicate FirstPassed(gates: seq<GateResult>, confirming: set<A.Gate>, k: nat) {
    && k < |gates| && gates[k].gate in confirming && gates[k].status == GateStatus.Passed
    && forall j :: 0 <= j < k ==> gates[j].gate !in confirming || gates[j].status != GateStatus.Passed
  }

  lemma {:induction false} ControlShaExactly(f: Facts, stage: Stage, gates: seq<GateResult>)
    ensures BoundTo(f.input, gates, RequiredHumanGates(f.route, stage, Effective(f)), ControlSha(f, stage, gates))
  {
    var confirming := RequiredHumanGates(f.route, stage, Effective(f));
    if gates != [] {
      var tail := gates[1..];
      ControlShaExactly(f, stage, tail);
      if gates[0].gate in confirming && gates[0].status.Passed? {
        assert FirstPassed(gates, confirming, 0);
      } else {
        FirstPassedTail(gates, confirming);
      }
    }
  }

  lemma {:induction false} FirstPassedTail(gates: seq<GateResult>, confirming: set<A.Gate>)
    requires gates != [] && !(gates[0].gate in confirming && gates[0].status.Passed?)
    ensures forall k: nat :: FirstPassed(gates[1..], confirming, k) ==> FirstPassed(gates, confirming, k + 1)
    ensures forall k: nat :: FirstPassed(gates, confirming, k) ==> k > 0 && FirstPassed(gates[1..], confirming, k - 1)
  {
    var tail := gates[1..];
    forall k: nat | FirstPassed(tail, confirming, k) ensures FirstPassed(gates, confirming, k + 1) {
      forall j | 0 <= j < k + 1 ensures gates[j].gate !in confirming || gates[j].status != GateStatus.Passed {
        assert j > 0 ==> gates[j] == tail[j - 1];
      }
    }
    forall k: nat | FirstPassed(gates, confirming, k) ensures k > 0 && FirstPassed(tail, confirming, k - 1) {
      assert tail[k - 1] == gates[k];
    }
  }

  /** The revision the control points bind to: the one a passed human gate names, else the input revision. */
  function ControlSha(f: Facts, stage: Stage, gates: seq<GateResult>): Option<string> {
    if gates == [] then f.input
    else if gates[0].gate in RequiredHumanGates(f.route, stage, Effective(f)) && gates[0].status.Passed? then
      if gates[0].sha.Some? && gates[0].sha.value != "" then gates[0].sha else f.input
    else ControlSha(f, stage, gates[1..])
  }

  predicate ObligationsMet(f: Facts, result: StageResult) {
    var r := Effective(f);
    Raised(r) ==>
      RouteAllows(f.route, r)
      && ControlPointsClosed(f.route, result.stage, r, f.approvals, ControlSha(f, result.stage, result.gates))
  }

  // ----- merge

  /** The classes the finalizer may merge without a human: none. */
  const AutoMerge: set<Risk> := {}

  /** The last human decision on the review gate that is bound to `sha`. */
  function LatestHuman(approvals: seq<Approval>, sha: string): Option<Approval> {
    if approvals == [] then None
    else
      var last := approvals[|approvals| - 1];
      if last.source.Human? && last.gate == A.Gate.Review && last.sha == Some(sha) then Some(last)
      else LatestHuman(approvals[..|approvals| - 1], sha)
  }

  function EvaluateMerge(m: MergeFacts, route: Route, stage: Stage, r: Risk, gates: seq<GateResult>): MergeVerdict {
    if m.executor.ByAgent? then MergeBlocked
    else if m.expected.None? || m.head.None? then MergeBlocked
    else if m.expected != m.head then MergeBlocked
    else
      var sha := m.expected.value;
      if !AllSatisfied(route, stage, AtRevision(gates, sha)) then MergeBlocked
      else if Raised(r) && !ControlPointsClosed(route, stage, r, m.approvals, Some(sha)) then MergeBlocked
      else
        var latest := LatestHuman(m.approvals, sha);
        if latest.None? || !latest.value.outcome.Approved? then ManualMerge
        else if m.executor.ByHuman? then MergeAuthorized
        else if r in AutoMerge then MergeAuthorized
        else ManualMerge
  }

  function MergeVerdictOf(f: Facts, result: StageResult): MergeVerdict {
    if f.merge.None? then ManualMerge
    else EvaluateMerge(f.merge.value, f.route, result.stage, Effective(f), result.gates)
  }

  function Verdicts(f: Facts, result: StageResult): Policy {
    Policy(!AllSatisfied(f.route, result.stage, result.gates), !ObligationsMet(f, result),
           !RouteAllows(f.route, Effective(f)), MergeVerdictOf(f, result))
  }

  /** A human confirmed the merge of exactly this revision, whose gates passed. */
  ghost predicate HumanConfirmed(f: Facts, result: StageResult) {
    && f.merge.Some? && f.merge.value.executor.ByHuman?
    && f.merge.value.expected.Some? && f.merge.value.head == f.merge.value.expected
    && var sha := f.merge.value.expected.value;
       && LastPassedAt(result.gates, A.Gate.Review, sha) && LastPassedAt(result.gates, A.Gate.Verification, sha)
       && exists i: nat :: LastOnReview(f.merge.value.approvals, sha, i) && f.merge.value.approvals[i].outcome.Approved?
  }

  ghost predicate OnReview(a: Approval, sha: string) {
    a.source.Human? && a.gate == A.Gate.Review && a.sha == Some(sha)
  }

  /** Decision `i` is the last one a human took on the review gate at `sha`. */
  ghost predicate LastOnReview(approvals: seq<Approval>, sha: string, i: nat) {
    && i < |approvals| && OnReview(approvals[i], sha)
    && forall j :: i < j < |approvals| ==> !OnReview(approvals[j], sha)
  }

  lemma {:induction false} LatestHumanIsLast(approvals: seq<Approval>, sha: string)
    ensures forall i: nat :: LastOnReview(approvals, sha, i) ==> LatestHuman(approvals, sha) == Some(approvals[i])
    ensures LatestHuman(approvals, sha).Some? ==> exists i: nat :: LastOnReview(approvals, sha, i)
  {
    if approvals != [] {
      var n := |approvals| - 1;
      var init := approvals[..n];
      LatestHumanIsLast(init, sha);
      if OnReview(approvals[n], sha) {
        assert LastOnReview(approvals, sha, n);
      } else {
        forall i: nat | LastOnReview(approvals, sha, i) ensures LatestHuman(approvals, sha) == Some(approvals[i]) {
          assert LastOnReview(init, sha, i);
        }
        if LatestHuman(approvals, sha).Some? {
          var i: nat :| LastOnReview(init, sha, i);
          assert LastOnReview(approvals, sha, i);
        }
      }
    }
  }

  /** The gates of the review stage at a revision. */
  lemma {:induction false} ReviewGatesExactly(route: Route, gates: seq<GateResult>, sha: string)
    ensures AllSatisfied(route, ReviewVerification, AtRevision(gates, sha))
            <==> LastPassedAt(gates, A.Gate.Review, sha) && LastPassedAt(gates, A.Gate.Verification, sha)
  {
    GatesExactly(route, ReviewVerification, AtRevision(gates, sha));
    SatisfiedExactly(AtRevision(gates, sha), A.Gate.Review);
    SatisfiedExactly(AtRevision(gates, sha), A.Gate.Verification);
    SatisfiedAtExactly(gates, A.Gate.Review, sha);
    SatisfiedAtExactly(gates, A.Gate.Verification, sha);
  }

  /** A merge is authorized exactly if a human confirmed it, whatever the risk class. */
  lemma {:induction false} MergeAuthorizedExactly(f: Facts, result: StageResult)
    requires result.stage.ReviewVerification?
    ensures MergeVerdictOf(f, result).MergeAuthorized? <==> HumanConfirmed(f, result)
  {
    if f.merge.Some? && f.merge.value.expected.Some? {
      var approvals, sha := f.merge.value.approvals, f.merge.value.expected.value;
      LatestHumanIsLast(approvals, sha);
      ReviewGatesExactly(f.route, result.gates, sha);
      if i: nat :| LastOnReview(approvals, sha, i) && approvals[i].outcome.Approved? {
        assert Approves(approvals[i], A.Gate.Review, Some(sha));
      }
    }
  }

  /**
   A merge is blocked exactly if an agent executes it, its revision is unknown or moved, a gate of the review is not
   passed there, or the class is raised and no human approved the review there.  What is neither blocked nor
   authorized is left to a human.
   */
  lemma {:induction false} MergeBlockedExactly(f: Facts, result: StageResult)
    requires result.stage.ReviewVerification? && f.merge.Some?
    ensures var m := f.merge.value;
            MergeVerdictOf(f, result).MergeBlocked? <==>
              || m.executor == ByAgent || m.expected.None? || m.head != m.expected
              || !LastPassedAt(result.gates, A.Gate.Review, m.expected.value)
              || !LastPassedAt(result.gates, A.Gate.Verification, m.expected.value)
              || (Raised(Effective(f)) && !HumanApproved(m.approvals, A.Gate.Review, m.expected))
  {
    var m := f.merge.value;
    if m.expected.Some? {
      ReviewGatesExactly(f.route, result.gates, m.expected.value);
      ControlPointsExactly(f.route, result.stage, Effective(f), m.approvals, m.expected);
    }
  }

  /** The verdicts a result gets, from what was observed. */
  lemma {:induction false} VerdictsExactly(f: Facts, result: StageResult)
    ensures var p := Verdicts(f, result);
            var quick, raised := f.route == Quick, Raised(Effective(f));
            && (p.gates <==> !GatesPassed(quick, result.stage, result.gates))
            && (p.band <==> quick && raised)
            && (p.obligations <==>
                  && raised
                  && (quick || !HumansApproved(quick, raised, result.stage, f.approvals,
                                               ControlSha(f, result.stage, result.gates))))
            && p.merge == MergeVerdictOf(f, result) && (f.merge.None? ==> p.merge == ManualMerge)
  {
    GatesExactly(f.route, result.stage, result.gates);
    EffectiveIsMaximum(f);
    ControlPointsExactly(f.route, result.stage, Effective(f), f.approvals, ControlSha(f, result.stage, result.gates));
  }
}

/** What the policies guarantee over whole runs of the driver. */
module PolicyRuns {
  import opened Base
  import opened StageResults
  import opened L = Lifecycle
  import opened Flow
  import opened Driver
  import opened DriverRuns
  import opened Policies
  import ReadModels
  import A = Approvals

  ghost predicate HasStage(sys: System, stage: Stage) {
    exists k :: 0 <= k < |sys.run.stages| && sys.run.stages[k].stage == stage
  }

  /** The step takes the run from the stage before `target` to `target`, and nothing stops it. */
  ghost predicate StepsInto(sys: System, step: Step, target: Stage) {
    && step.Advance? && Persisted(sys, step.result, step.policy, step.now)
    && Successor(step.result.stage) == Some(target) && Allowed(step.result.stage, step.result.action)
    && (step.result.action == ExecuteStage(target) || step.result.action.Merge?)
    && Clear(sys.run, step.result, step.policy, History(sys.results), step.now)
  }

  /** A step that brings a new stage into the run steps into it. */
  lemma {:induction false} NewStageSteppedInto(sys: System, step: Step, target: Stage)
    requires Inv(sys) && !HasStage(sys, target) && HasStage(Next(sys, step), target) && !target.Specification?
    ensures StepsInto(sys, step, target)
  {
    if step.Withdraw? {
      CanceledFacts(sys.run.stages, step.now);
    } else {
      var r, p, now := step.result, step.policy, step.now;
      if Persisted(sys, r, p, now) {
        PersistedMoves(sys, r, p, step.revision, now);
        ForwardMove(sys, Next(sys, step), r, DecisionOf(sys, r, p, now), step.revision, target);
        RefusedExactly(sys.run, r, p, History(sys.results), now);
        HonouredExactly(sys.run, r, p, History(sys.results), now);
      }
    }
  }

  lemma {:induction false} ForwardMove(
    sys: System, sys': System, r: StageResult, d: Decision, revision: string, target: Stage)
    requires Inv(sys) && Moves(sys, sys', r, d, revision) && !HasStage(sys, target) && HasStage(sys', target)
    ensures d.nextStage == Some(target) && d.action == r.action && Successor(r.stage) == Some(target)
    ensures r.action.ExecuteStage? || r.action.Merge?
  {
    var s, s' := sys.run.stages, sys'.run.stages;
    var i := Active(s, r.stage).value;
    assert s[i].stage == r.stage;
    if r.stage.ReviewVerification? {
      assert Successor(Construction) == Some(s[i].stage);
      assert Done(s, Construction) && HasStage(sys, Construction);
    }
    assert forall k :: 0 <= k < |s| ==> s'[k].stage == s[k].stage;
    var k :| 0 <= k < |s'| && s'[k].stage == target;
    assert k == |s| && s'[k] == FreshStage(d.nextStage.value);
  }

  /** Every stage of a run was stepped into. */
  lemma {:induction false} EveryStageSteppedInto(start: System, steps: seq<Step>, target: Stage) returns (i: nat)
    requires Inv(start) && !HasStage(start, target) && HasStage(RunOf(start, steps), target) && !target.Specification?
    ensures i < |steps| && StepsInto(RunOf(start, steps[..i]), steps[i], target)
  {
    var n := |steps| - 1;
    var before := RunOf(start, steps[..n]);
    RunKeeps(start, steps[..n]);
    if HasStage(before, target) {
      i := EveryStageSteppedInto(start, steps[..n], target);
      assert steps[..n][..i] == steps[..i];
    } else {
      i := n;
      NewStageSteppedInto(before, steps[n], target);
    }
  }

  /** Each advance acts on the verdicts of what was observed for it. */
  ghost predicate Observed(steps: seq<Step>, facts: seq<Facts>) {
    && |facts| == |steps|
    && forall i :: 0 <= i < |steps| && steps[i].Advance? ==>
                     steps[i].policy == Verdicts(facts[i], steps[i].result)
  }

  /** A run as it is created: one fresh specification stage. */
  ghost predicate Created(start: System) {
    exists revision, rework, limits, iterations, now :: start == FreshRunOf(revision, rework, limits, iterations, now)
  }

  lemma {:induction false} CreatedInv(start: System)
    requires Created(start)
    ensures Inv(start) && forall target: Stage :: HasStage(start, target) ==> target.Specification?
  {
    var revision, rework, limits, iterations, now :| start == FreshRunOf(revision, rework, limits, iterations, now);
    FreshRunInv(revision, rework, limits, iterations, now);
  }

  /**
   No machine merges: a run reaches its release stage only by a merge that a human confirmed for exactly that revision,
   with its review and verification gates passed there.
   */
  lemma {:induction false} ReleaseNeedsHuman(start: System, steps: seq<Step>, facts: seq<Facts>) returns (i: nat)
    requires Created(start) && Observed(steps, facts) && HasStage(RunOf(start, steps), Release)
    ensures i < |steps| && steps[i].Advance? && steps[i].result.action.Merge?
    ensures HumanConfirmed(facts[i], steps[i].result)
  {
    CreatedInv(start);
    i := EveryStageSteppedInto(start, steps, Release);
    MergeAuthorizedExactly(facts[i], steps[i].result);
  }

  /** A succeeded run in particular. */
  lemma {:induction false} SuccessNeedsHuman(start: System, steps: seq<Step>, facts: seq<Facts>) returns (i: nat)
    requires Created(start) && Observed(steps, facts) && RunOf(start, steps).run.record.status.Succeeded?
    ensures i < |steps| && steps[i].Advance? && steps[i].result.action.Merge?
    ensures HumanConfirmed(facts[i], steps[i].result)
  {
    CreatedInv(start);
    RunKeeps(start, steps);
    var stages := RunOf(start, steps).run.stages;
    var j :| 0 <= j < |stages| && stages[j].stage == Release && stages[j].status.Succeeded?;
    i := ReleaseNeedsHuman(start, steps, facts);
  }

  /** Every run, of any class, enters a stage only with the gates of the stage before passed. */
  lemma {:induction false} StagesNeedGates(start: System, steps: seq<Step>, facts: seq<Facts>, target: Stage)
    returns (i: nat)
    requires Created(start) && Observed(steps, facts) && HasStage(RunOf(start, steps), target)
    requires target.Planning? || target.Construction? || target.ReviewVerification?
    ensures i < |steps| && StepsInto(RunOf(start, steps[..i]), steps[i], target)
    ensures steps[i].result.action == ExecuteStage(target)
    ensures GatesPassed(facts[i].route == Quick, steps[i].result.stage, steps[i].result.gates)
    ensures !steps[i].policy.obligations
  {
    CreatedInv(start);
    i := EveryStageSteppedInto(start, steps, target);
    StepNeedsGates(RunOf(start, steps[..i]), steps[i], facts[i], target);
  }

  lemma {:induction false} StepNeedsGates(sys: System, step: Step, f: Facts, target: Stage)
    requires StepsInto(sys, step, target) && step.policy == Verdicts(f, step.result) && !target.Release?
    ensures step.result.action == ExecuteStage(target) && !step.policy.obligations
    ensures GatesPassed(f.route == Quick, step.result.stage, step.result.gates)
  {
    VerdictsExactly(f, step.result);
  }

  /**
   A run of a raised class never takes the quick route past its first stage; it enters planning only after a human
   approved the specification and the interface, and construction only after a human approved the plan, each at the
   revision that the passed gates of that result name.
   */
  lemma {:induction false} RaisedClassNeedsHuman(start: System, steps: seq<Step>, facts: seq<Facts>, target: Stage)
    returns (i: nat, sha: Option<string>)
    requires Created(start) && Observed(steps, facts) && HasStage(RunOf(start, steps), target)
    requires target.Planning? || target.Construction? || target.ReviewVerification?
    requires forall k :: 0 <= k < |facts| ==> Raised(Effective(facts[k]))
    ensures i < |steps| && steps[i].Advance? && steps[i].result.action == ExecuteStage(target)
    ensures var f, r := facts[i], steps[i].result;
            && f.route != Quick && GatesPassed(false, r.stage, r.gates)
            && (target.Planning? ==>
                  BoundTo(f.input, r.gates, {A.Gate.Specification, A.Gate.Ui}, sha)
                  && HumanApproved(f.approvals, A.Gate.Specification, sha)
                  && HumanApproved(f.approvals, A.Gate.Ui, sha))
            && (target.Construction? ==>
                  BoundTo(f.input, r.gates, {A.Gate.Planning}, sha)
                  && HumanApproved(f.approvals, A.Gate.Planning, sha))
  {
    i := StagesNeedGates(start, steps, facts, target);
    var f, r := facts[i], steps[i].result;
    sha := ControlSha(f, r.stage, r.gates);
    VerdictsExactly(f, r);
    ControlShaExactly(f, r.stage, r.gates);
    ConfirmingGates(f, r.stage);
  }

  lemma {:induction false} ConfirmingGates(f: Facts, stage: Stage)
    requires f.route != Quick && Raised(Effective(f))
    ensures stage.Specification? ==>
              RequiredHumanGates(f.route, stage, Effective(f)) == {A.Gate.Specification, A.Gate.Ui}
    ensures stage.Planning? ==> RequiredHumanGates(f.route, stage, Effective(f)) == {A.Gate.Planning}
  {
    HumanRequiredExactly(f.route, stage, Effective(f));
  }

  /** A raised class on the short route never leaves its first stage. */
  lemma {:induction false} ShortRouteIsClosed(start: System, steps: seq<Step>, facts: seq<Facts>)
    requires Created(start) && Observed(steps, facts)
    requires forall k :: 0 <= k < |facts| ==> facts[k].route.Quick? && Raised(Effective(facts[k]))
    ensures forall k :: 0 <= k < |RunOf(start, steps).run.stages| ==>
              RunOf(start, steps).run.stages[k].stage.Specification?
    ensures !RunOf(start, steps).run.record.status.Succeeded?
  {
    CreatedInv(start);
    RunKeeps(start, steps);
    var sys := RunOf(start, steps);
    if HasStage(sys, Planning) {
      var i, sha := RaisedClassNeedsHuman(start, steps, facts, Planning);
    }
    OnlySpecification(sys);
  }

  lemma {:induction false} OnlySpecification(sys: System)
    requires Inv(sys) && !HasStage(sys, Planning)
    ensures forall k :: 0 <= k < |sys.run.stages| ==> sys.run.stages[k].stage.Specification?
    ensures !sys.run.record.status.Succeeded?
  {
    var stages := sys.run.stages;
    forall k | 0 <= k < |stages| && !stages[k].stage.Specification? ensures HasStage(sys, Planning) {
      PlanningBelow(stages, k);
    }
  }

  /** A stage run beyond the first stage is planning or stands on it. */
  lemma {:induction false} PlanningBelow(stages: seq<StageRecord>, k: nat)
    requires Chained(stages) && k < |stages| && !stages[k].stage.Specification?
    ensures exists j :: 0 <= j < |stages| && stages[j].stage == Planning
  {
    var s := stages[k].stage;
    if !s.Planning? {
      var below := if s.Construction? then Planning else if s.ReviewVerification? then Construction
                   else ReviewVerification;
      assert Successor(below) == Some(stages[k].stage);
      if !below.Planning? {
        DoneBelow(stages, below);
        if below.ReviewVerification? {
          assert Done(stages, Construction);
          DoneBelow(stages, Construction);
        }
      }
      assert Done(stages, Planning);
    }
  }

  // ----- a run that meets all of it

  function Pass(gate: A.Gate, sha: string): GateResult { GateResult(gate, GateStatus.Passed, Some(sha)) }

  function Passing(stage: Stage, sha: string): seq<GateResult> {
    match stage
    case Specification => [Pass(A.Gate.Specification, sha), Pass(A.Gate.Ui, sha)]
    case Planning => [Pass(A.Gate.Planning, sha)]
    case Construction => [Pass(A.Gate.Code, sha)]
    case ReviewVerification => [Pass(A.Gate.Review, sha), Pass(A.Gate.Verification, sha)]
    case Release => [Pass(A.Gate.Release, sha)]
  }

  function Confirm(gate: A.Gate, sha: string): Approval { Approval(gate, A.Outcome.Approved, Human, Some(sha)) }

  function Confirmations(sha: string): seq<Approval> {
    [Confirm(A.Gate.Specification, sha), Confirm(A.Gate.Ui, sha),
     Confirm(A.Gate.Planning, sha), Confirm(A.Gate.Review, sha)]
  }

  /** A raised class on the standard route, everything confirmed by a human at one revision. */
  function Confirming(sha: string): Facts {
    Facts(Standard, R2, RiskFacts(false, false, false, false, false, false), Some(sha), Confirmations(sha),
          Some(MergeFacts(ByHuman, Some(sha), Some(sha), Confirmations(sha))))
  }

  lemma {:induction false} AllAtRevision(gates: seq<GateResult>, sha: string)
    requires forall k :: 0 <= k < |gates| ==> gates[k].sha == Some(sha)
    ensures AtRevision(gates, sha) == gates
  {
    if gates != [] {
      AllAtRevision(gates[..|gates| - 1], sha);
    }
  }

  lemma {:induction false} PassingOne(a: GateResult)
    requires a.status.Passed?
    ensures ReadModels.GatePairs([a]) == [(a.gate, a)] && Satisfied([a], a.gate)
  {
    assert [a][..0] == [];
  }

  lemma {:induction false} PassingTwo(a: GateResult, b: GateResult)
    requires a.gate != b.gate && a.status.Passed? && b.status.Passed?
    ensures Satisfied([a, b], a.gate) && Satisfied([a, b], b.gate)
  {
    PassingOne(a);
    assert [a, b][..1] == [a];
    var pairs := ReadModels.GatePairs([a, b]);
    assert pairs == [(a.gate, a), (b.gate, b)];
    assert pairs[..1] == [(a.gate, a)];
  }

  lemma {:induction false} PassingBoth(stage: Stage, a: A.Gate, b: A.Gate, sha: string)
    requires RequiredGates(Standard, stage) == {a, b} && a != b
    ensures AllSatisfied(Standard, stage, [Pass(a, sha), Pass(b, sha)])
  {
    PassingTwo(Pass(a, sha), Pass(b, sha));
  }

  lemma {:induction false} PassingOnly(stage: Stage, a: A.Gate, sha: string)
    requires RequiredGates(Standard, stage) == {a}
    ensures AllSatisfied(Standard, stage, [Pass(a, sha)])
  {
    PassingOne(Pass(a, sha));
  }

  lemma {:induction false} PassingGates(stage: Stage, sha: string)
    ensures AllSatisfied(Standard, stage, Passing(stage, sha))
  {
    match stage
    case Specification => PassingBoth(stage, A.Gate.Specification, A.Gate.Ui, sha);
    case Planning => PassingOnly(stage, A.Gate.Planning, sha);
    case Construction => PassingOnly(stage, A.Gate.Code, sha);
    case ReviewVerification => PassingBoth(stage, A.Gate.Review, A.Gate.Verification, sha);
    case Release => PassingOnly(stage, A.Gate.Release, sha);
  }

  lemma {:induction false} ConfirmedPoints(stage: Stage, sha: string)
    ensures ControlPointsClosed(Standard, stage, R2, Confirmations(sha), Some(sha))
  {
    var all := Confirmations(sha);
    assert Approves(all[0], A.Gate.Specification, Some(sha)) && Approves(all[1], A.Gate.Ui, Some(sha));
    assert Approves(all[2], A.Gate.Planning, Some(sha)) && Approves(all[3], A.Gate.Review, Some(sha));
  }

  lemma {:induction false} BoundToRevision(stage: Stage, sha: string)
    requires sha != ""
    ensures ControlSha(Confirming(sha), stage, Passing(stage, sha)) == Some(sha)
  {
    var f, gates := Confirming(sha), Passing(stage, sha);
    assert ControlSha(f, stage, []) == Some(sha);
    assert |gates| == 1 ==> gates[1..] == [];
    assert stage.Specification? ==> A.Gate.Specification in RequiredHumanGates(Standard, stage, R2);
    assert stage.ReviewVerification? ==> A.Gate.Review in RequiredHumanGates(Standard, stage, R2);
  }

  lemma {:induction false} LastDecides(approvals: seq<Approval>, last: Approval, sha: string)
    requires OnReview(last, sha)
    ensures LatestHuman(approvals + [last], sha) == Some(last)
  {
  }

  lemma {:induction false} PassingMerge(stage: Stage, sha: string)
    ensures EvaluateMerge(Confirming(sha).merge.value, Standard, stage, R2, Passing(stage, sha)) == MergeAuthorized
  {
    PassingGates(stage, sha);
    AllAtRevision(Passing(stage, sha), sha);
    ConfirmedPoints(stage, sha);
    ReviewConfirmed(sha);
    HumanMerges(Confirmations(sha), stage, Passing(stage, sha), sha);
  }

  lemma {:induction false} ReviewConfirmed(sha: string)
    ensures LatestHuman(Confirmations(sha), sha) == Some(Confirm(A.Gate.Review, sha))
  {
    var first :=
      [Confirm(A.Gate.Specification, sha), Confirm(A.Gate.Ui, sha), Confirm(A.Gate.Planning, sha)];
    assert Confirmations(sha) == first + [Confirm(A.Gate.Review, sha)];
    LastDecides(first, Confirm(A.Gate.Review, sha), sha);
  }

  lemma {:induction false} HumanMerges(all: seq<Approval>, stage: Stage, gates: seq<GateResult>, sha: string)
    requires AllSatisfied(Standard, stage, AtRevision(gates, sha))
    requires ControlPointsClosed(Standard, stage, R2, all, Some(sha))
    requires LatestHuman(all, sha).Some? && LatestHuman(all, sha).value.outcome.Approved?
    ensures EvaluateMerge(MergeFacts(ByHuman, Some(sha), Some(sha), all), Standard, stage, R2, gates) == MergeAuthorized
  {
  }

  lemma {:induction false} PassingVerdicts(stage: Stage, action: Action, sha: string)
    requires sha != ""
    ensures Verdicts(Confirming(sha), Asking(stage, Ask(action, Passing(stage, sha), MergeAuthorized)))
            == Permitting(MergeAuthorized)
    ensures Raised(Effective(Confirming(sha)))
  {
    assert Effective(Confirming(sha)) == R2;
    PassingMerge(stage, sha);
    PassingGates(stage, sha);
    ConfirmedPoints(stage, sha);
    BoundToRevision(stage, sha);
  }

  /** The steps lead straight to `stage` on verdicts of raised facts. */
  ghost predicate Way(start: System, steps: seq<Step>, facts: seq<Facts>, stage: Stage) {
    && Created(start) && Observed(steps, facts) && Straight(RunOf(start, steps), stage)
    && forall k :: 0 <= k < |facts| ==> Raised(Effective(facts[k]))
  }

  lemma {:induction false} WayOn(
    start: System, steps: seq<Step>, facts: seq<Facts>, stage: Stage, next: Stage, action: Action,
    sha: string, now: int)
    returns (steps': seq<Step>, facts': seq<Facts>)
    requires Way(start, steps, facts, stage) && sha != "" && Forward(stage, next, Ask(action, [], MergeAuthorized))
    ensures Way(start, steps', facts', next)
  {
    var ask := Ask(action, Passing(stage, sha), MergeAuthorized);
    PassingVerdicts(stage, action, sha);
    var sys' := StraightOn(RunOf(start, steps), stage, next, ask, sha, now);
    steps', facts' := steps + [StepOf(stage, ask, sha, now)], facts + [Confirming(sha)];
    RunOneMore(start, steps, StepOf(stage, ask, sha, now));
    ObservedOneMore(steps, facts, StepOf(stage, ask, sha, now), Confirming(sha));
  }

  lemma {:induction false} RunOneMore(start: System, steps: seq<Step>, step: Step)
    ensures RunOf(start, steps + [step]) == Next(RunOf(start, steps), step)
  {
    assert (steps + [step])[..|steps|] == steps;
  }

  lemma {:induction false} ObservedOneMore(steps: seq<Step>, facts: seq<Facts>, step: Step, f: Facts)
    requires Observed(steps, facts) && step.Advance? && step.policy == Verdicts(f, step.result) && Raised(Effective(f))
    requires forall k :: 0 <= k < |facts| ==> Raised(Effective(facts[k]))
    ensures Observed(steps + [step], facts + [f])
    ensures forall k :: 0 <= k < |facts + [f]| ==> Raised(Effective((facts + [f])[k]))
  {
  }

  /** A run of a raised class from its creation to the release stage: what the theorems above ask for can be met. */
  lemma {:induction false} ConfirmedRun(sha: string, now: int)
    returns (start: System, steps: seq<Step>, facts: seq<Facts>)
    requires sha != ""
    ensures Created(start) && Observed(steps, facts) && HasStage(RunOf(start, steps), Release)
    ensures forall k :: 0 <= k < |facts| ==> Raised(Effective(facts[k]))
  {
    start, steps, facts := FreshRunOf(sha, 1, Unlimited, None, now), [], [];
    FreshIsStraight(sha, 1, now);
    steps, facts := WayOn(start, steps, facts, Specification, Planning, ExecuteStage(Planning), sha, now);
    steps, facts := WayOn(start, steps, facts, Planning, Construction, ExecuteStage(Construction), sha, now);
    steps, facts := WayOn(start, steps, facts, Construction,
                          ReviewVerification, ExecuteStage(ReviewVerification), sha, now);
    steps, facts := WayOn(start, steps, facts, ReviewVerification, Release, Merge, sha, now);
    StraightHasStage(RunOf(start, steps), Release);
  }

  lemma {:induction false} StraightHasStage(sys: System, stage: Stage)
    requires Straight(sys, stage)
    ensures HasStage(sys, stage)
  {
    assert sys.run.stages[|sys.run.stages| - 1].stage == stage;
  }
}
