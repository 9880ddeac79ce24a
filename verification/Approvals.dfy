/**
 Decisions about a change on the server: the approval endpoint, the rework order that
 records a rejection, and the command-line decision.  A request is one transaction: it
 commits as a whole or leaves nothing behind.
 */
module Approvals {
  import opened Base
  import Text

  datatype Gate = Specification | Planning | Code | Ui | Review | Verification | Release

  datatype Phase =
    Initiative | Requirements | Architecture | Interface | Plan | Execution | Demonstration | Delivery | Done

  datatype Outcome = Approved | Rejected | Waived

  datatype Role = Operator | Service

  function GateOfPhase(p: Phase): Option<Gate> {
    match p
    case Initiative => None
    case Requirements => Some(Specification)
    case Architecture => Some(Specification)
    case Interface => Some(Ui)
    case Plan => Some(Planning)
    case Execution => Some(Code)
    case Demonstration => Some(Verification)
    case Delivery => Some(Release)
    case Done => None
  }

  function PhaseOfGate(g: Gate): Phase {
    match g
    case Specification => Requirements
    case Ui => Interface
    case Planning => Plan
    case Code => Execution
    case Review => Demonstration
    case Verification => Demonstration
    case Release => Delivery
  }

  /** The two tables are inverse to each other on every gate but `review`, whose phase answers to `verification`. */
  lemma {:induction false} PhaseTablesInverse(g: Gate)
    ensures GateOfPhase(PhaseOfGate(g)) == Some(g) <==> g != Review
    ensures forall p :: GateOfPhase(p) == Some(g) ==> PhaseOfGate(g) == p || p == Architecture
  {
  }

  datatype Request = Request(
    gate: Gate, outcome: Outcome, subject: Option<string>, comment: Option<string>,
    expected: Option<int>, phase: Option<Phase>)

  /** What body validation accepts: a revision unless waived, and never an empty one. */
  predicate WellFormed(r: Request) {
    && (r.subject.Some? ==> r.subject.value != "")
    && (r.outcome != Waived ==> r.subject.Some?)
  }

  /** The phase gate as it stands at the moment of the request. */
  datatype GateView = GateView(available: bool, current: Option<string>)

  /** Which code path wrote a decision; bookkeeping of the model, not a column. */
  datatype Writer = ByApproval | ByRework | ByCli

  datatype Row = Row(
    change: string, gate: Gate, outcome: Outcome, sha: Option<string>, comment: Option<string>,
    phase: Phase, key: Option<string>, writer: Writer)

  datatype AuditOutcome = Created | Repeated

  datatype AuditRow = AuditRow(change: string, outcome: AuditOutcome, key: Option<string>)

  datatype Store = Store(
    revisions: map<string, int>,   // state_revision of every known change
    rows: seq<Row>,                // decisions, in the order they were written
    audit: seq<AuditRow>,          // audit rows of the approval action
    orders: set<string>)           // ids of the rework orders on record

  datatype Response = Recorded(row: Row) | Replayed(row: Row) | Refused(status: nat)

  function ReasonGiven(comment: Option<string>): bool {
    comment.Some? && !Text.Blank(Text.IsSpace, comment.value)
  }

  /** Position of the first decision under a key. */
  function FindKey(rows: seq<Row>, key: string): (at: Option<nat>)
    ensures at.Some? ==> at.value < |rows| && rows[at.value].key == Some(key)
    ensures at.None? ==> NoKey(rows, key)
  {
    if rows == [] then None
    else
      var earlier := FindKey(rows[..|rows| - 1], key);
      if earlier.Some? then earlier
      else if rows[|rows| - 1].key == Some(key) then Some(|rows| - 1)
      else None
  }

  predicate NoKey(rows: seq<Row>, key: string) {
    forall i :: 0 <= i < |rows| ==> rows[i].key != Some(key)
  }

  function StatedPhase(req: Request): Phase {
    if req.phase.Some? then req.phase.value else PhaseOfGate(req.gate)
  }

  /** The gate preconditions: the status they refuse with, or `None`. */
  function GateRefusal(req: Request, gate: GateView): Option<nat> {
    if req.phase.Some? && GateOfPhase(req.phase.value) != Some(req.gate) then Some(422)
    else match req.outcome
      case Rejected => None
      case Waived => if ReasonGiven(req.comment) then None else Some(422)
      case Approved =>
        if !gate.available then Some(409)
        else if gate.current.Some? && req.subject != gate.current then Some(409)
        else None
  }

  function NewRow(change: string, req: Request, key: Option<string>): Row {
    Row(change, req.gate, req.outcome, req.subject, req.comment, StatedPhase(req), key, ByApproval)
  }

  function Answer(s: Store, role: Role, change: string, req: Request, key: Option<string>, gate: GateView): Response {
    if role != Operator then Refused(403)
    else if !WellFormed(req) then Refused(422)
    else if change !in s.revisions then Refused(404)
    else if key.Some? && FindKey(s.rows, key.value).Some? then Replayed(s.rows[FindKey(s.rows, key.value).value])
    else if req.expected.Some? && req.expected.value != s.revisions[change] then Refused(409)
    else if GateRefusal(req, gate).Some? then Refused(GateRefusal(req, gate).value)
    else Recorded(NewRow(change, req, key))
  }

  function After(s: Store, change: string, key: Option<string>, r: Response): Store
    requires r.Recorded? ==> change in s.revisions
  {
    match r
    case Refused(_) => s
    case Replayed(_) => s.(audit := s.audit + [AuditRow(change, Repeated, key)])
    case Recorded(row) =>
      s.(rows := s.rows + [row],
         revisions := s.revisions[change := s.revisions[change] + 1],
         audit := s.audit + [AuditRow(change, Created, key)])
  }

  function Post(s: Store, role: Role, change: string, req: Request, key: Option<string>, gate: GateView): Store {
    After(s, change, key, Answer(s, role, change, req, key, gate))
  }

  function Intake(s: Store, change: string): Store {
    if change in s.revisions then s else s.(revisions := s.revisions[change := 1])
  }

  /** Who issued a rework order: a request of the API with its key, or the command line. */
  datatype Origin = FromApi(key: Option<string>) | FromCommandLine

  /** The order is new and belongs to a known change. */
  predicate OpensOrder(s: Store, change: string, order: string) {
    change in s.revisions && order !in s.orders
  }

  /** A new order stores a decision where its phase has a gate and its key is unused. */
  predicate OrderDecides(s: Store, change: string, phase: Phase, order: string) {
    OpensOrder(s, change, order) && GateOfPhase(phase).Some? && FindKey(s.rows, "rework:" + order).None?
  }

  /**
   A rework order: a new one stores a rejected decision under its own key and does not touch the revision of the
   change.  The API audits it as a recorded approval whether or not it stored a decision; the command line never does.
   */
  function SendBack(s: Store, change: string, phase: Phase, order: string, head: Option<string>, note: string,
                    origin: Origin): Store
  {
    if !OpensOrder(s, change, order) then s
    else
      s.(orders := s.orders + {order},
         rows := if !OrderDecides(s, change, phase, order) then s.rows
                 else s.rows + [Row(change, GateOfPhase(phase).value, Rejected, head, Some(note), phase,
                                    Some("rework:" + order), ByRework)],
         audit := if origin.FromApi? then s.audit + [AuditRow(change, Created, origin.key)] else s.audit)
  }

  /** The decision of `factory change approve`: the same gate preconditions, no revision check and no bump. */
  function CliDecide(s: Store, change: string, phase: Phase, outcome: Outcome, subject: Option<string>,
                     comment: Option<string>, gate: GateView): Store
  {
    var sha := if subject.Some? && subject.value != "" then subject else gate.current;
    if change !in s.revisions || GateOfPhase(phase).None? then s
    else if outcome == Waived && !ReasonGiven(comment) then s
    else if outcome == Approved && (!gate.available || (gate.current.Some? && sha != gate.current)) then s
    else if sha.None? && outcome != Waived then s
    else s.(rows := s.rows + [Row(change, GateOfPhase(phase).value, outcome, sha, comment, phase, None, ByCli)],
            audit := s.audit + [AuditRow(change, Created, None)])
  }

  // ----- the card

  /** `decisions_count` of the change card. */
  function DecisionCount(rows: seq<Row>, change: string): nat {
    if rows == [] then 0
    else DecisionCount(rows[..|rows| - 1], change) + if rows[|rows| - 1].change == change then 1 else 0
  }

  /** The decisions of the change that the approval endpoint wrote. */
  function ApprovalCount(rows: seq<Row>, change: string): nat {
    if rows == [] then 0
    else
      var last := rows[|rows| - 1];
      ApprovalCount(rows[..|rows| - 1], change) + if last.change == change && last.writer == ByApproval then 1 else 0
  }

  /** What the console expects the revision to be, from the card alone. */
  function DerivedRevision(decisionsCount: nat): int { 1 + decisionsCount }

  lemma {:induction false} CountsOfAppend(rows: seq<Row>, row: Row, change: string)
    ensures DecisionCount(rows + [row], change) == DecisionCount(rows, change) + if row.change == change then 1 else 0
    ensures ApprovalCount(rows + [row], change)
            == ApprovalCount(rows, change) + if row.change == change && row.writer == ByApproval then 1 else 0
  {
    assert (rows + [row])[..|rows|] == rows;
  }

  lemma {:induction false} ApprovalsAmongDecisions(rows: seq<Row>, change: string)
    ensures ApprovalCount(rows, change) <= DecisionCount(rows, change)
    ensures ApprovalCount(rows, change) == DecisionCount(rows, change)
            <==> forall i :: 0 <= i < |rows| && rows[i].change == change ==> rows[i].writer == ByApproval
  {
    if rows != [] {
      ApprovalsAmongDecisions(rows[..|rows| - 1], change);
    }
  }

  // ----- what a request leads to, and what a decision says

  /** The phases that are approved on a gate of their own. */
  const ApprovedOn: set<(Phase, Gate)> :=
    {(Requirements, Specification), (Architecture, Specification), (Interface, Ui), (Plan, Planning),
     (Execution, Code), (Demonstration, Verification), (Delivery, Release)}

  /** The decision is the request's own, word for word; one without a phase is about the phase of its gate. */
  predicate Says(row: Row, change: string, req: Request, key: Option<string>) {
    && row.change == change && row.gate == req.gate && row.outcome == req.outcome && row.sha == req.subject
    && row.comment == req.comment && row.key == key && row.writer == ByApproval
    && if req.phase.Some? then Some(row.phase) == req.phase
       else row.phase != Architecture
            && ((row.phase, row.gate) in ApprovedOn || (row.phase == Demonstration && row.gate == Review))
  }

  /** A text with something to read in it. */
  predicate Worded(text: Option<string>) {
    text.Some? && exists i :: 0 <= i < |text.value| && text.value[i] !in " \t\n\r" && text.value[i] as int !in {11, 12}
  }

  lemma {:induction false} WordedExactly(text: Option<string>)
    ensures ReasonGiven(text) <==> Worded(text)
  {
    if text.Some? {
      assert forall c: char :: Text.IsSpace(c) <==> c in " \t\n\r" || c as int in {11, 12};
      assert Text.Blank(Text.IsSpace, text.value) <==>
               forall i :: 0 <= i < |text.value| ==> Text.IsSpace(text.value[i]);
    }
  }

  /** The gate lets a decision with this outcome, revision and comment through. */
  predicate Passes(outcome: Outcome, sha: Option<string>, comment: Option<string>, gate: GateView) {
    match outcome
    case Approved => gate.available && (gate.current == None || gate.current == sha)
    case Rejected => true
    case Waived => Worded(comment)
  }

  /** The body of the request is in order. */
  predicate InOrder(req: Request) {
    req.subject != Some("") && (req.subject == None ==> req.outcome == Waived)
  }

  predicate Unused(rows: seq<Row>, key: Option<string>) {
    key.Some? ==> forall i :: 0 <= i < |rows| ==> rows[i].key != key
  }

  predicate Unraced(s: Store, change: string, req: Request)
    requires change in s.revisions
  {
    req.expected == None || req.expected == Some(s.revisions[change])
  }

  /** When a decision is recorded, what it says, and what else the request writes. */
  lemma {:induction false} RecordedExactly(
    s: Store, role: Role, change: string, req: Request, key: Option<string>, gate: GateView)
    ensures Answer(s, role, change, req, key, gate).Recorded? <==>
              && role == Operator && InOrder(req) && change in s.revisions && Unused(s.rows, key)
              && Unraced(s, change, req) && (req.phase.Some? ==> (req.phase.value, req.gate) in ApprovedOn)
              && Passes(req.outcome, req.subject, req.comment, gate)
    ensures var r := Answer(s, role, change, req, key, gate);
            r.Recorded? ==>
              && Says(r.row, change, req, key)
              && Post(s, role, change, req, key, gate)
                 == Store(s.revisions[change := s.revisions[change] + 1], s.rows + [r.row],
                          s.audit + [AuditRow(change, Created, key)], s.orders)
  {
    WordedExactly(req.comment);
  }

  lemma {:induction false} FindKeyIsFirst(rows: seq<Row>, key: string)
    requires FindKey(rows, key).Some?
    ensures forall j :: 0 <= j < FindKey(rows, key).value ==> rows[j].key != Some(key)
  {
    var init := rows[..|rows| - 1];
    if FindKey(init, key).Some? {
      FindKeyIsFirst(init, key);
      assert forall j :: 0 <= j < FindKey(init, key).value ==> rows[j] == init[j];
    } else {
      assert NoKey(init, key);
      assert forall j :: 0 <= j < |init| ==> rows[j] == init[j];
    }
  }

  /** When a stored decision is returned instead, and when and how a request is refused; a refusal writes nothing. */
  lemma {:induction false} AnsweredExactly(
    s: Store, role: Role, change: string, req: Request, key: Option<string>, gate: GateView)
    ensures var r := Answer(s, role, change, req, key, gate);
            var arrives := role == Operator && InOrder(req);
            && (r.Replayed? <==> arrives && change in s.revisions && !Unused(s.rows, key))
            && (r.Replayed? ==> exists i :: 0 <= i < |s.rows| && s.rows[i] == r.row && r.row.key == key
                                            && forall j :: 0 <= j < i ==> s.rows[j].key != key)
            && (r == Refused(403) <==> role == Service)
            && (r == Refused(404) <==> arrives && change !in s.revisions)
            && (r == Refused(409) <==>
                  && arrives && change in s.revisions && Unused(s.rows, key)
                  && (!Unraced(s, change, req)
                      || (req.outcome == Approved && !Passes(Approved, req.subject, req.comment, gate)
                          && (req.phase.Some? ==> (req.phase.value, req.gate) in ApprovedOn))))
            && (r.Refused? ==> r.status in {403, 404, 409, 422} && Post(s, role, change, req, key, gate) == s)
  {
    WordedExactly(req.comment);
    if key.Some? && FindKey(s.rows, key.value).Some? {
      FindKeyIsFirst(s.rows, key.value);
    }
  }

  /** When a rework order stores a decision, and what it says: a rejection of the phase at the head it saw. */
  lemma {:induction false} OrderRecordsExactly(
    s: Store, change: string, phase: Phase, order: string, head: Option<string>, note: string, origin: Origin)
    ensures var s' := SendBack(s, change, phase, order, head, note, origin);
            && (s'.rows != s.rows <==>
                  && change in s.revisions && order !in s.orders
                  && phase != Initiative && phase != Phase.Done && Unused(s.rows, Some("rework:" + order)))
            && (s'.rows != s.rows ==>
                  exists gate: Gate :: (phase, gate) in ApprovedOn
                    && s'.rows == s.rows + [Row(change, gate, Rejected, head, Some(note), phase,
                                                Some("rework:" + order), ByRework)])
            && s'.revisions == s.revisions && s.orders <= s'.orders
            && (change in s.revisions ==> order in s'.orders)
  {
    if OrderDecides(s, change, phase, order) {
      assert (phase, GateOfPhase(phase).value) in ApprovedOn;
    }
  }

  /** When the command line stores a decision, and what it says. */
  lemma {:induction false} CliRecordsExactly(
    s: Store, change: string, phase: Phase, outcome: Outcome, subject: Option<string>, comment: Option<string>,
    gate: GateView)
    ensures var s' := CliDecide(s, change, phase, outcome, subject, comment, gate);
            var sha := if subject == None || subject == Some("") then gate.current else subject;
            && (s' != s <==>
                  && change in s.revisions && phase != Initiative && phase != Phase.Done
                  && Passes(outcome, sha, comment, gate) && (sha == None ==> outcome == Waived))
            && (s' != s ==>
                  exists g: Gate :: (phase, g) in ApprovedOn
                    && s' == s.(rows := s.rows + [Row(change, g, outcome, sha, comment, phase, None, ByCli)],
                                audit := s.audit + [AuditRow(change, Created, None)]))
  {
    WordedExactly(comment);
    if GateOfPhase(phase).Some? {
      assert (phase, GateOfPhase(phase).value) in ApprovedOn;
    }
    assert CliDecide(s, change, phase, outcome, subject, comment, gate).rows == s.rows
           || |CliDecide(s, change, phase, outcome, subject, comment, gate).rows| == |s.rows| + 1;
  }

  /** The service object behind the endpoints. */
  class Service {
    var revisions: map<string, int>
    var rows: seq<Row>
    var audit: seq<AuditRow>
    var orders: set<string>

    ghost function View(): Store
      reads this
    {
      Store(revisions, rows, audit, orders)
    }

    constructor ()
      ensures View() == Store(map[], [], [], {})
    {
      revisions, rows, audit, orders := map[], [], [], {};
    }

    method FindByKey(key: string) returns (at: Option<nat>)
      ensures at == FindKey(rows, key)
    {
      at := None;
      var i := 0;
      while i < |rows|
        invariant 0 <= i <= |rows|
        invariant FindKey(rows[..i], key).None? && at.None?
      {
        assert rows[..i + 1][..i] == rows[..i];
        if rows[i].key == Some(key) {
          KeyFoundEarly(rows, key, i);
          return Some(i);
        }
        i := i + 1;
      }
      assert rows[..i] == rows;
    }

    /** The decisions on the card of a change, or none for an unknown change. */
    method CountDecisions(change: string) returns (n: Option<nat>)
      ensures n == if change in revisions then Some(DecisionCount(rows, change)) else None
    {
      if change !in revisions {
        return None;
      }
      var count := 0;
      for i := 0 to |rows|
        invariant count == DecisionCount(rows[..i], change)
      {
        assert rows[..i + 1][..i] == rows[..i];
        if rows[i].change == change {
          count := count + 1;
        }
      }
      assert rows[..|rows|] == rows;
      return Some(count);
    }

    method RecordApproval(role: Role, change: string, req: Request, key: Option<string>, gate: GateView)
      returns (r: Response)
      modifies this
      ensures r == old(Answer(View(), role, change, req, key, gate))
      ensures View() == old(Post(View(), role, change, req, key, gate))
    {
      if role != Operator {
        return Refused(403);
      }
      if !WellFormed(req) {
        return Refused(422);
      }
      if change !in revisions {
        return Refused(404);
      }
      if key.Some? {
        var at := FindByKey(key.value);
        if at.Some? {
          audit := audit + [AuditRow(change, Repeated, key)];
          return Replayed(rows[at.value]);
        }
      }
      if req.expected.Some? && req.expected.value != revisions[change] {
        return Refused(409);
      }
      var refusal := GateRefusal(req, gate);
      if refusal.Some? {
        return Refused(refusal.value);
      }
      var row := NewRow(change, req, key);
      rows := rows + [row];
      revisions := revisions[change := revisions[change] + 1];
      audit := audit + [AuditRow(change, Created, key)];
      return Recorded(row);
    }
  }

  lemma {:induction false} KeyFoundEarly(rows: seq<Row>, key: string, i: nat)
    requires i < |rows| && FindKey(rows[..i], key).None? && rows[i].key == Some(key)
    ensures FindKey(rows, key) == Some(i)
  {
    if i + 1 < |rows| {
      assert rows[..|rows| - 1][..i] == rows[..i];
      KeyFoundEarly(rows[..|rows| - 1], key, i);
    } else {
      assert rows[..|rows| - 1] == rows[..i];
    }
  }
}
