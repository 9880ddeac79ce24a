/**
 Any number of consoles submitting approvals, each retrying once after a conflict, interleaved
 with every other writer of decisions and with requests or responses lost on the way.
 */
module SubmitApproval {
  import opened Base
  import opened Approvals

  /** The form as submitted; the console never states a phase. */
  datatype Form = Form(gate: Gate, outcome: Outcome, subject: string, comment: Option<string>, expected: Option<int>)

  datatype Progress =
    | Ready                                   // nothing sent yet
    | Conflict                                // the first request was refused with 409
    | Resend(expected: int)                   // the card was re-read
    | Returned(row: Row, retried: bool)
    | Threw(status: nat)                      // the server's status; 0: no answer of its own, the outcome is unknown

  datatype Client = Client(change: string, form: Form, key: string, at: Progress)

  datatype System = System(store: Store, clients: seq<Client>)

  datatype Fate = Delivered | RequestLost | ResponseLost

  datatype Step =
    | Create(change: string)
    | Send(client: nat, role: Role, gate: GateView, fate: Fate)
    | ReadCard(client: nat, reachable: bool)
    | OtherPost(role: Role, change: string, req: Request, key: Option<string>, gate: GateView)
    | Rework(change: string, phase: Phase, order: string, head: Option<string>, note: string, origin: Origin)
    | Cli(change: string, phase: Phase, outcome: Outcome, subject: Option<string>, comment: Option<string>,
          gate: GateView)

  function Body(f: Form, expected: Option<int>): Request {
    Request(f.gate, f.outcome, Some(f.subject), f.comment, expected, None)
  }

  /** The row a client's submission asks for. */
  function Wanted(c: Client): Row {
    NewRow(c.change, Body(c.form, None), Some(c.key))
  }

  /** The row is the decision the client's form states, for the phase of its gate and under the client's key. */
  predicate Fulfils(row: Row, c: Client) {
    && row.change == c.change && row.gate == c.form.gate && row.outcome == c.form.outcome
    && row.sha == Some(c.form.subject) && row.comment == c.form.comment && row.key == Some(c.key)
    && row.writer == ByApproval && row.phase != Architecture
    && ((row.phase, row.gate) in ApprovedOn || (row.phase == Demonstration && row.gate == Review))
  }

  predicate IsClientKey(clients: seq<Client>, key: string) {
    exists i :: 0 <= i < |clients| && clients[i].key == key
  }

  function Heard(r: Response, first: bool): Progress {
    match r
    case Recorded(row) => Returned(row, !first)
    case Replayed(row) => Returned(row, !first)
    case Refused(status) => if status == 409 && first then Conflict else Threw(status)
  }

  function SendStep(s: System, i: nat, role: Role, gate: GateView, fate: Fate): System
    requires i < |s.clients|
  {
    var c := s.clients[i];
    if !c.at.Ready? && !c.at.Resend? then s
    else if fate == RequestLost then s.(clients := s.clients[i := c.(at := Threw(0))])
    else
      var req := Body(c.form, if c.at.Ready? then c.form.expected else Some(c.at.expected));
      var r := Answer(s.store, role, c.change, req, Some(c.key), gate);
      System(After(s.store, c.change, Some(c.key), r),
             s.clients[i := c.(at := if fate == ResponseLost then Threw(0) else Heard(r, c.at.Ready?))])
  }

  function ReadStep(s: System, i: nat, reachable: bool): System
    requires i < |s.clients|
  {
    var c := s.clients[i];
    if !c.at.Conflict? then s
    else
      var at := if !reachable then Threw(0)
                else if c.change !in s.store.revisions then Threw(404)
                else Resend(DerivedRevision(DecisionCount(s.store.rows, c.change)));
      s.(clients := s.clients[i := c.(at := at)])
  }

  /** Keys are fresh: nobody but its client ever presents a client's key. */
  function Next(s: System, step: Step): System {
    match step
    case Create(change) => s.(store := Intake(s.store, change))
    case Send(i, role, gate, fate) => if i < |s.clients| then SendStep(s, i, role, gate, fate) else s
    case ReadCard(i, reachable) => if i < |s.clients| then ReadStep(s, i, reachable) else s
    case OtherPost(role, change, req, key, gate) =>
      if key.Some? && IsClientKey(s.clients, key.value) then s
      else s.(store := Post(s.store, role, change, req, key, gate))
    case Rework(change, phase, order, head, note, origin) =>
      if IsClientKey(s.clients, "rework:" + order) then s
      else s.(store := SendBack(s.store, change, phase, order, head, note, origin))
    case Cli(change, phase, outcome, subject, comment, gate) =>
      s.(store := CliDecide(s.store, change, phase, outcome, subject, comment, gate))
  }

  function Run(s: System, steps: seq<Step>): System {
    if steps == [] then s else Next(Run(s, steps[..|steps| - 1]), steps[|steps| - 1])
  }

  ghost predicate FreshClients(clients: seq<Client>) {
    && (forall i :: 0 <= i < |clients| ==> clients[i].at == Ready)
    && (forall i, j :: 0 <= i < j < |clients| ==> clients[i].key != clients[j].key)
  }

  function Start(clients: seq<Client>): System {
    System(Store(map[], [], [], {}), clients)
  }

  // ----- exactly once

  ghost predicate KeysUnique(rows: seq<Row>) {
    forall i, j :: 0 <= i < j < |rows| && rows[i].key.Some? ==> rows[i].key != rows[j].key
  }

  /** What the store holds under a client's key, by how far the client got. */
  ghost predicate ClientOk(rows: seq<Row>, c: Client) {
    match c.at
    case Returned(row, _) => row == Wanted(c) && row in rows
    case Threw(status) =>
      if status == 0 then forall i :: 0 <= i < |rows| && rows[i].key == Some(c.key) ==> rows[i] == Wanted(c)
      else NoKey(rows, c.key)
    case _ => NoKey(rows, c.key)
  }

  ghost predicate Inv(s: System) {
    && KeysUnique(s.store.rows)
    && (forall i :: 0 <= i < |s.clients| ==> ClientOk(s.store.rows, s.clients[i]))
    && (forall i, j :: 0 <= i < j < |s.clients| ==> s.clients[i].key != s.clients[j].key)
  }

  /** A row under somebody else's key leaves a client where it was. */
  lemma {:induction false} ForeignRow(rows: seq<Row>, row: Row, c: Client)
    requires ClientOk(rows, c) && row.key != Some(c.key)
    ensures ClientOk(rows + [row], c)
  {
  }

  lemma {:induction false} AppendKeepsUnique(rows: seq<Row>, row: Row)
    requires KeysUnique(rows) && (row.key.Some? ==> NoKey(rows, row.key.value))
    ensures KeysUnique(rows + [row])
  {
  }

  /** A row under no key, or under one that is new and no client's. */
  ghost predicate Foreign(s: System, row: Row) {
    row.key.Some? ==> NoKey(s.store.rows, row.key.value) && !IsClientKey(s.clients, row.key.value)
  }

  lemma {:induction false} ForeignStep(s: System, store: Store)
    requires Inv(s)
    requires store.rows == s.store.rows
             || exists row :: store.rows == s.store.rows + [row] && Foreign(s, row)
    ensures Inv(s.(store := store))
  {
    if store.rows != s.store.rows {
      var row :| store.rows == s.store.rows + [row] && Foreign(s, row);
      AppendKeepsUnique(s.store.rows, row);
      forall i | 0 <= i < |s.clients|
        ensures ClientOk(store.rows, s.clients[i])
      {
        ForeignRow(s.store.rows, row, s.clients[i]);
      }
    }
  }

  lemma {:induction false} SendKeeps(s: System, i: nat, role: Role, gate: GateView, fate: Fate)
    requires Inv(s) && i < |s.clients|
    ensures Inv(SendStep(s, i, role, gate, fate))
  {
    var c := s.clients[i];
    var s' := SendStep(s, i, role, gate, fate);
    if (c.at.Ready? || c.at.Resend?) && fate != RequestLost {
      assert NoKey(s.store.rows, c.key);
      var req := Body(c.form, if c.at.Ready? then c.form.expected else Some(c.at.expected));
      var r := Answer(s.store, role, c.change, req, Some(c.key), gate);
      assert !r.Replayed?;
      if r.Recorded? {
        assert r.row == Wanted(c) && s'.store.rows == s.store.rows + [r.row];
        assert s'.store.rows[|s.store.rows|] == r.row;
        AppendKeepsUnique(s.store.rows, r.row);
        forall j | 0 <= j < |s.clients| && j != i
          ensures ClientOk(s'.store.rows, s'.clients[j])
        {
          ForeignRow(s.store.rows, r.row, s.clients[j]);
        }
      }
    }
  }

  lemma {:induction false} NextKeeps(s: System, step: Step)
    requires Inv(s)
    ensures Inv(Next(s, step))
  {
    var s' := Next(s, step);
    match step
    case Create(change) => ForeignStep(s, s'.store);
    case Send(i, role, gate, fate) => if i < |s.clients| { SendKeeps(s, i, role, gate, fate); }
    case ReadCard(i, reachable) =>
    case OtherPost(role, change, req, key, gate) =>
      if !(key.Some? && IsClientKey(s.clients, key.value)) {
        var r := Answer(s.store, role, change, req, key, gate);
        assert r.Recorded? ==> s'.store.rows == s.store.rows + [r.row];
        ForeignStep(s, s'.store);
      }
    case Rework(change, phase, order, head, note, origin) =>
      if !IsClientKey(s.clients, "rework:" + order) {
        if s'.store.rows != s.store.rows {
          assert s'.store.rows == s.store.rows + [s'.store.rows[|s.store.rows|]];
        }
        ForeignStep(s, s'.store);
      }
    case Cli(change, phase, outcome, subject, comment, gate) =>
      if s'.store.rows != s.store.rows {
        assert s'.store.rows == s.store.rows + [s'.store.rows[|s.store.rows|]];
      }
      ForeignStep(s, s'.store);
  }

  lemma {:induction false} RunKeeps(clients: seq<Client>, steps: seq<Step>)
    requires FreshClients(clients)
    ensures Inv(Run(Start(clients), steps))
    ensures |Run(Start(clients), steps).clients| == |clients|
    ensures forall i :: 0 <= i < |clients| ==> Run(Start(clients), steps).clients[i].(at := Ready) == clients[i]
  {
    if steps != [] {
      RunKeeps(clients, steps[..|steps| - 1]);
      NextKeeps(Run(Start(clients), steps[..|steps| - 1]), steps[|steps| - 1]);
    }
  }

  ghost predicate ExactlyOne(rows: seq<Row>, key: string, row: Row) {
    exists i :: 0 <= i < |rows| && rows[i] == row && rows[i].key == Some(key)
                && forall j :: 0 <= j < |rows| && rows[j].key == Some(key) ==> j == i
  }

  /**
   Exactly once, for every interleaving: a submission that returned stored exactly one decision, the one on its form;
   one that threw an HTTP error of the server stored none; after a network failure there is at most one, and it is the
   one on the form.
   */
  lemma {:induction false} ExactlyOnce(clients: seq<Client>, steps: seq<Step>, i: nat)
    requires FreshClients(clients) && i < |clients|
    ensures
      var s := Run(Start(clients), steps);
      i < |s.clients| &&
      match s.clients[i].at
      case Returned(row, _) => Fulfils(row, clients[i]) && ExactlyOne(s.store.rows, clients[i].key, row)
      case Threw(status) =>
        NoKey(s.store.rows, clients[i].key)
        || (status == 0
            && exists row :: Fulfils(row, clients[i]) && ExactlyOne(s.store.rows, clients[i].key, row))
      case _ => NoKey(s.store.rows, clients[i].key)
  {
    RunKeeps(clients, steps);
    var s := Run(Start(clients), steps);
    var c := s.clients[i];
    assert ClientOk(s.store.rows, c) && Wanted(c) == Wanted(clients[i]) && c.key == clients[i].key;
    assert Fulfils(Wanted(clients[i]), clients[i]);
    if c.at.Returned? {
      var n :| 0 <= n < |s.store.rows| && s.store.rows[n] == c.at.row;
      UniqueAt(s.store.rows, c.key, n);
    } else if !NoKey(s.store.rows, c.key) {
      var n :| 0 <= n < |s.store.rows| && s.store.rows[n].key == Some(c.key);
      UniqueAt(s.store.rows, c.key, n);
    }
  }

  lemma {:induction false} UniqueAt(rows: seq<Row>, key: string, n: nat)
    requires KeysUnique(rows) && n < |rows| && rows[n].key == Some(key)
    ensures ExactlyOne(rows, key, rows[n])
  {
  }

  // ----- the revision of a change

  /** The revision counts the decisions of the approval endpoint, and no others. */
  ghost predicate Ledger(s: Store) {
    && (forall c :: c in s.revisions ==> s.revisions[c] == 1 + ApprovalCount(s.rows, c))
    && (forall i :: 0 <= i < |s.rows| ==> s.rows[i].change in s.revisions)
  }

  lemma {:induction false} NoRowsNoCount(rows: seq<Row>, change: string)
    requires forall i :: 0 <= i < |rows| ==> rows[i].change != change
    ensures DecisionCount(rows, change) == ApprovalCount(rows, change) == 0
  {
    if rows != [] {
      NoRowsNoCount(rows[..|rows| - 1], change);
    }
  }

  lemma {:induction false} StoreKeepsLedger(s: Store, s': Store)
    requires Ledger(s)
    requires
      || (s'.rows == s.rows && s'.revisions == s.revisions)
      || (exists c :: c !in s.revisions && s'.rows == s.rows && s'.revisions == s.revisions[c := 1])
      || (exists row: Row :: row.change in s.revisions && s'.rows == s.rows + [row]
                        && s'.revisions == if row.writer == ByApproval
                                           then s.revisions[row.change := s.revisions[row.change] + 1] else s.revisions)
    ensures Ledger(s') && s.rows <= s'.rows && s.revisions.Keys <= s'.revisions.Keys
  {
    if c :| c !in s.revisions && s'.rows == s.rows && s'.revisions == s.revisions[c := 1] {
      NoRowsNoCount(s.rows, c);
    } else if row: Row :| row.change in s.revisions && s'.rows == s.rows + [row]
                          && s'.revisions == if row.writer == ByApproval
                                             then s.revisions[row.change := s.revisions[row.change] + 1]
                                             else s.revisions {
      forall c | c in s'.revisions
        ensures s'.revisions[c] == 1 + ApprovalCount(s'.rows, c)
      {
        CountsOfAppend(s.rows, row, c);
      }
    }
  }

  /**
   A request of the console states its form and the revision it goes by.  If it arrives the server handles it like any
   other, whether or not the answer gets back; without an answer the client knows nothing.
   */
  lemma {:induction false} SendPosts(s: System, i: nat, role: Role, gate: GateView, fate: Fate) returns (req: Request)
    requires i < |s.clients|
    ensures
      var c := s.clients[i];
      var s' := SendStep(s, i, role, gate, fate);
      && req == Request(c.form.gate, c.form.outcome, Some(c.form.subject), c.form.comment,
                        if c.at.Resend? then Some(c.at.expected) else c.form.expected, None)
      && (if !c.at.Ready? && !c.at.Resend? then s' == s
          else s'.store == (if fate == RequestLost then s.store
                            else Post(s.store, role, c.change, req, Some(c.key), gate))
               && s'.clients == s.clients[i := c.(at := s'.clients[i].at)]
               && (fate != Delivered ==> s'.clients[i].at == Threw(0)))
  {
    var c := s.clients[i];
    req := Body(c.form, if c.at.Resend? then Some(c.at.expected) else c.form.expected);
  }

  lemma {:induction false} PostKeepsLedger(
    s: Store, role: Role, change: string, req: Request, key: Option<string>, gate: GateView)
    requires Ledger(s)
    ensures var s' := Post(s, role, change, req, key, gate);
            Ledger(s') && s.rows <= s'.rows && s.revisions.Keys <= s'.revisions.Keys
  {
    var s' := Post(s, role, change, req, key, gate);
    var r := Answer(s, role, change, req, key, gate);
    assert r.Recorded? ==> s'.rows == s.rows + [r.row] && r.row.writer == ByApproval && r.row.change == change;
    StoreKeepsLedger(s, s');
  }

  lemma {:induction false} NextKeepsLedger(s: System, step: Step)
    requires Ledger(s.store)
    ensures
      var s' := Next(s, step);
      Ledger(s'.store) && s.store.rows <= s'.store.rows && s.store.revisions.Keys <= s'.store.revisions.Keys
  {
    var store' := Next(s, step).store;
    match step
    case Create(change) => StoreKeepsLedger(s.store, store');
    case Send(i, role, gate, fate) =>
      if i < |s.clients| {
        var req := SendPosts(s, i, role, gate, fate);
        PostKeepsLedger(s.store, role, s.clients[i].change, req, Some(s.clients[i].key), gate);
      }
    case ReadCard(i, reachable) =>
    case OtherPost(role, change, req, key, gate) => PostKeepsLedger(s.store, role, change, req, key, gate);
    case _ =>
      if store'.rows != s.store.rows {
        assert store'.rows == s.store.rows + [store'.rows[|s.store.rows|]];
      }
      StoreKeepsLedger(s.store, store');
  }

  lemma {:induction false} RunKeepsLedger(s: System, steps: seq<Step>)
    requires Ledger(s.store)
    ensures
      var s' := Run(s, steps);
      Ledger(s'.store) && s.store.rows <= s'.store.rows && s.store.revisions.Keys <= s'.store.revisions.Keys
  {
    if steps != [] {
      RunKeepsLedger(s, steps[..|steps| - 1]);
      NextKeepsLedger(Run(s, steps[..|steps| - 1]), steps[|steps| - 1]);
    }
  }

  /**
   The revision derived from the card is the real one exactly while no decision of the change came from a
   rework order or from the command line: those are counted on the card and do not move the revision.
   */
  lemma {:induction false} DerivedRevisionExact(clients: seq<Client>, steps: seq<Step>, change: string)
    requires change in Run(Start(clients), steps).store.revisions
    ensures
      var s := Run(Start(clients), steps).store;
      DerivedRevision(DecisionCount(s.rows, change)) == s.revisions[change]
      <==> forall i :: 0 <= i < |s.rows| && s.rows[i].change == change ==> s.rows[i].writer == ByApproval
  {
    RunKeepsLedger(Start(clients), steps);
    ApprovalsAmongDecisions(Run(Start(clients), steps).store.rows, change);
  }

  lemma {:induction false} CountsOfConcat(rows: seq<Row>, more: seq<Row>, change: string)
    ensures DecisionCount(rows + more, change) == DecisionCount(rows, change) + DecisionCount(more, change)
    ensures ApprovalCount(rows + more, change) == ApprovalCount(rows, change) + ApprovalCount(more, change)
  {
    if more == [] {
      assert rows + more == rows;
    } else {
      var n := |more| - 1;
      assert rows + more == (rows + more[..n]) + [more[n]];
      CountsOfConcat(rows, more[..n], change);
      CountsOfAppend(rows + more[..n], more[n], change);
    }
  }

  /** The gap between derived and real revision never closes again. */
  lemma {:induction false} DriftIsPermanent(s: System, steps: seq<Step>, change: string)
    requires Ledger(s.store) && change in s.store.revisions
    ensures
      var before, after := s.store, Run(s, steps).store;
      change in after.revisions &&
      0 <= DerivedRevision(DecisionCount(before.rows, change)) - before.revisions[change]
        <= DerivedRevision(DecisionCount(after.rows, change)) - after.revisions[change]
  {
    RunKeepsLedger(s, steps);
    DriftGrows(s.store, Run(s, steps).store, change);
  }

  lemma {:induction false} DriftGrows(before: Store, after: Store, change: string)
    requires Ledger(before) && Ledger(after) && before.rows <= after.rows
    requires change in before.revisions && change in after.revisions
    ensures 0 <= DerivedRevision(DecisionCount(before.rows, change)) - before.revisions[change]
              <= DerivedRevision(DecisionCount(after.rows, change)) - after.revisions[change]
  {
    var more := after.rows[|before.rows|..];
    assert after.rows == before.rows + more;
    CountsOfConcat(before.rows, more, change);
    ApprovalsAmongDecisions(before.rows, change);
    ApprovalsAmongDecisions(more, change);
  }

  /**
   The retry after a conflict.  The card is read in `s`, the request arrives after `steps`.  It gets past the
   revision check exactly when the approvals recorded in between are as many as the decisions that, at the time
   of reading, had not moved the revision: none, in the run the console assumes.
   */
  lemma {:induction false} RetryPassesRevisionCheck(s: System, steps: seq<Step>, c: Client, gate: GateView)
    requires Ledger(s.store) && c.change in s.store.revisions
    requires NoKey(Run(s, steps).store.rows, c.key) && c.form.subject != ""
    ensures
      var card, now := s.store, Run(s, steps).store;
      var req := Body(c.form, Some(DerivedRevision(DecisionCount(card.rows, c.change))));
      var between := ApprovalCount(now.rows, c.change) - ApprovalCount(card.rows, c.change);
      var unseen := DecisionCount(card.rows, c.change) - ApprovalCount(card.rows, c.change);
      c.change in now.revisions &&
      Answer(now, Operator, c.change, req, Some(c.key), gate)
      == if between != unseen then Refused(409)
         else if GateRefusal(req, gate).Some? then Refused(GateRefusal(req, gate).value)
         else Recorded(Wanted(c))
  {
    RunKeepsLedger(s, steps);
  }

  function CreatedAudits(audit: seq<AuditRow>, change: string): nat {
    if audit == [] then 0
    else
      var last := audit[|audit| - 1];
      CreatedAudits(audit[..|audit| - 1], change) + if last.change == change && last.outcome == Created then 1 else 0
  }

  lemma {:induction false} CreatedAuditsOfAppend(audit: seq<AuditRow>, a: AuditRow, change: string)
    ensures CreatedAudits(audit + [a], change)
            == CreatedAudits(audit, change) + if a.change == change && a.outcome == Created then 1 else 0
  {
    assert (audit + [a])[..|audit|] == audit;
  }

  /** The step is a command-line rework order that stores a decision of the change: nothing audits it as one. */
  predicate Unaudited(s: System, step: Step, change: string) {
    && step.Rework? && step.change == change && step.origin.FromCommandLine?
    && !IsClientKey(s.clients, "rework:" + step.order) && OrderDecides(s.store, change, step.phase, step.order)
  }

  /** The step is a new rework order of the API that stores no decision of the change, yet is audited as one. */
  predicate Overaudited(s: System, step: Step, change: string) {
    && step.Rework? && step.change == change && step.origin.FromApi?
    && !IsClientKey(s.clients, "rework:" + step.order)
    && OpensOrder(s.store, change, step.order) && !OrderDecides(s.store, change, step.phase, step.order)
  }

  function UnauditedSteps(s: System, steps: seq<Step>, change: string): nat {
    if steps == [] then 0
    else
      var init, last := steps[..|steps| - 1], steps[|steps| - 1];
      UnauditedSteps(s, init, change) + if Unaudited(Run(s, init), last, change) then 1 else 0
  }

  function OverauditedSteps(s: System, steps: seq<Step>, change: string): nat {
    if steps == [] then 0
    else
      var init, last := steps[..|steps| - 1], steps[|steps| - 1];
      OverauditedSteps(s, init, change) + if Overaudited(Run(s, init), last, change) then 1 else 0
  }

  /** One store after another: at most one decision and one audit row more. */
  ghost predicate Logged(s: Store, s': Store, decided: Option<string>, audited: Option<string>) {
    && (decided.None? ==> s'.rows == s.rows)
    && (decided.Some? ==> exists row: Row :: s'.rows == s.rows + [row] && row.change == decided.value)
    && (audited.None? ==> s'.audit == s.audit || exists a :: s'.audit == s.audit + [a] && a.outcome == Repeated)
    && (audited.Some? ==>
          exists a: AuditRow :: s'.audit == s.audit + [a] && a.outcome == Created && a.change == audited.value)
  }

  lemma {:induction false} LoggedCounts(
    s: Store, s': Store, decided: Option<string>, audited: Option<string>, change: string)
    requires Logged(s, s', decided, audited)
    ensures DecisionCount(s'.rows, change) == DecisionCount(s.rows, change) + if decided == Some(change) then 1 else 0
    ensures CreatedAudits(s'.audit, change) == CreatedAudits(s.audit, change) + if audited == Some(change) then 1 else 0
  {
    if decided.Some? {
      var row: Row :| s'.rows == s.rows + [row] && row.change == decided.value;
      CountsOfAppend(s.rows, row, change);
    }
    if s'.audit != s.audit {
      var a: AuditRow :| s'.audit == s.audit + [a] && a.outcome == (if audited.Some? then Created else Repeated)
                         && (audited.Some? ==> a.change == audited.value);
      CreatedAuditsOfAppend(s.audit, a, change);
    }
  }

  /** An approval logs a decision and an audit row of its change, a replay or a refusal neither. */
  lemma {:induction false} PostLogs(s: Store, change: string, key: Option<string>, r: Response)
    requires r.Recorded? ==> change in s.revisions && r.row.change == change
    ensures var c := if r.Recorded? then Some(change) else None;
            Logged(s, After(s, change, key, r), c, c)
  {
    if r.Recorded? {
      assert After(s, change, key, r).rows == s.rows + [r.row];
      assert After(s, change, key, r).audit == s.audit + [AuditRow(change, Created, key)];
    }
  }

  lemma {:induction false} CliLogs(s: Store, change: string, phase: Phase, outcome: Outcome, subject: Option<string>,
                comment: Option<string>, gate: GateView)
    ensures var s' := CliDecide(s, change, phase, outcome, subject, comment, gate);
            var c := if s'.rows == s.rows then None else Some(change);
            Logged(s, s', c, c)
  {
    var s' := CliDecide(s, change, phase, outcome, subject, comment, gate);
    if s' != s {
      assert s'.rows == s.rows + [s'.rows[|s.rows|]] && s'.audit == s.audit + [AuditRow(change, Created, None)];
    }
  }

  lemma {:induction false} ReworkLogs(
    s: Store, change: string, phase: Phase, order: string, head: Option<string>, note: string, origin: Origin)
    ensures Logged(s, SendBack(s, change, phase, order, head, note, origin),
                   if OrderDecides(s, change, phase, order) then Some(change) else None,
                   if OpensOrder(s, change, order) && origin.FromApi? then Some(change) else None)
  {
    var s' := SendBack(s, change, phase, order, head, note, origin);
    if OrderDecides(s, change, phase, order) {
      assert s'.rows == s.rows + [s'.rows[|s.rows|]];
    }
    if OpensOrder(s, change, order) && origin.FromApi? {
      assert s'.audit == s.audit + [AuditRow(change, Created, origin.key)];
    }
  }

  ghost function AuditGap(s: Store, change: string): int {
    CreatedAudits(s.audit, change) - DecisionCount(s.rows, change)
  }

  lemma {:induction false} PostKeepsGap(
    s: Store, role: Role, c: string, req: Request, key: Option<string>, gate: GateView, change: string)
    ensures AuditGap(Post(s, role, c, req, key, gate), change) == AuditGap(s, change)
  {
    var r := Answer(s, role, c, req, key, gate);
    PostLogs(s, c, key, r);
    var d := if r.Recorded? then Some(c) else None;
    LoggedCounts(s, Post(s, role, c, req, key, gate), d, d, change);
  }

  lemma {:induction false} SendKeepsGap(s: System, i: nat, role: Role, gate: GateView, fate: Fate, change: string)
    requires i < |s.clients|
    ensures AuditGap(SendStep(s, i, role, gate, fate).store, change) == AuditGap(s.store, change)
  {
    var req := SendPosts(s, i, role, gate, fate);
    PostKeepsGap(s.store, role, s.clients[i].change, req, Some(s.clients[i].key), gate, change);
  }

  lemma {:induction false} ReworkMovesGap(
    s: Store, c: string, phase: Phase, order: string, head: Option<string>, note: string, origin: Origin,
    change: string)
    ensures AuditGap(SendBack(s, c, phase, order, head, note, origin), change)
            == AuditGap(s, change)
               + (if c == change && OpensOrder(s, c, order) && origin.FromApi? then 1 else 0)
               - (if c == change && OrderDecides(s, c, phase, order) then 1 else 0)
  {
    ReworkLogs(s, c, phase, order, head, note, origin);
    LoggedCounts(s, SendBack(s, c, phase, order, head, note, origin),
                 if OrderDecides(s, c, phase, order) then Some(c) else None,
                 if OpensOrder(s, c, order) && origin.FromApi? then Some(c) else None, change);
  }

  lemma {:induction false} StepMovesGap(s: System, step: Step, change: string)
    ensures AuditGap(Next(s, step).store, change)
            == AuditGap(s.store, change) + (if Overaudited(s, step, change) then 1 else 0)
               - (if Unaudited(s, step, change) then 1 else 0)
  {
    match step
    case Create(_) =>
    case Send(i, role, gate, fate) =>
      if i < |s.clients| {
        SendKeepsGap(s, i, role, gate, fate, change);
      }
    case ReadCard(_, _) =>
    case OtherPost(role, c, req, key, gate) => PostKeepsGap(s.store, role, c, req, key, gate, change);
    case Rework(c, phase, order, head, note, origin) =>
      ReworkMovesGap(s.store, c, phase, order, head, note, origin, change);
    case Cli(c, phase, outcome, subject, comment, gate) =>
      var s' := CliDecide(s.store, c, phase, outcome, subject, comment, gate);
      CliLogs(s.store, c, phase, outcome, subject, comment, gate);
      var d := if s'.rows == s.store.rows then None else Some(c);
      LoggedCounts(s.store, s', d, d, change);
  }

  /**
   The audit log against the decisions, in every run: it is ahead by the rework orders of the API that stored no
   decision and behind by those of the command line that stored one, so the counts agree exactly if these do.
   */
  lemma {:induction false} AuditsExactly(clients: seq<Client>, steps: seq<Step>, change: string)
    ensures
      var s := Run(Start(clients), steps).store;
      var over, under := OverauditedSteps(Start(clients), steps, change), UnauditedSteps(Start(clients), steps, change);
      && CreatedAudits(s.audit, change) + under == DecisionCount(s.rows, change) + over
      && (CreatedAudits(s.audit, change) == DecisionCount(s.rows, change) <==> over == under)
  {
    if steps != [] {
      var init, last := steps[..|steps| - 1], steps[|steps| - 1];
      AuditsExactly(clients, init, change);
      StepMovesGap(Run(Start(clients), init), last, change);
    }
  }

  // ----- runs that break the expectations

  lemma {:induction false} RunOfTwo(s: System, first: Step, second: Step)
    ensures Run(s, [first, second]) == Next(Next(s, first), second)
  {
    assert [first, second][..1] == [first] && [first][..0] == [];
    assert Run(s, [first]) == Next(Run(s, []), first);
  }

  /**
   A fresh change and one rework order of a phase with a gate: the card derives revision 2 while the change is still
   at 1, and from the command line the stored decision has no audit row.
   */
  lemma {:induction false} ReworkOfFreshChange(
    change: string, phase: Phase, order: string, head: Option<string>, note: string, origin: Origin)
    requires GateOfPhase(phase).Some?
    ensures
      var s := Run(Start([]), [Create(change), Rework(change, phase, order, head, note, origin)]).store;
      && change in s.revisions && s.revisions[change] == 1
      && DecisionCount(s.rows, change) == 1 && DerivedRevision(DecisionCount(s.rows, change)) == 2
      && CreatedAudits(s.audit, change) == if origin.FromApi? then 1 else 0
  {
    RunOfTwo(Start([]), Create(change), Rework(change, phase, order, head, note, origin));
    FirstOrder(Intake(Start([]).store, change), change, phase, order, head, note, origin);
  }

  /** The first order of a change without decisions. */
  lemma {:induction false} FirstOrder(
    s: Store, change: string, phase: Phase, order: string, head: Option<string>, note: string, origin: Origin)
    requires change in s.revisions && OrderDecides(s, change, phase, order)
    requires DecisionCount(s.rows, change) == CreatedAudits(s.audit, change) == 0
    ensures
      var s' := SendBack(s, change, phase, order, head, note, origin);
      && s'.revisions == s.revisions && DecisionCount(s'.rows, change) == 1
      && CreatedAudits(s'.audit, change) == if origin.FromApi? then 1 else 0
  {
    ReworkLogs(s, change, phase, order, head, note, origin);
    LoggedCounts(s, SendBack(s, change, phase, order, head, note, origin),
                 Some(change), if origin.FromApi? then Some(change) else None, change);
  }

  // ----- what every stored decision satisfies

  predicate PhaseAgrees(row: Row) {
    GateOfPhase(row.phase) == Some(row.gate) || (row.gate == Review && row.phase == Demonstration)
  }

  /** The preconditions of a decision, against the gate as it stood at that step. */
  predicate Justified(row: Row, gate: GateView) {
    && PhaseAgrees(row) && Passes(row.outcome, row.sha, row.comment, gate)
    && (row.outcome != Waived ==> row.sha.Some?)
  }

  /** The step writes this row, and the row says what the step was asked to record. */
  predicate Writes(clients: seq<Client>, step: Step, row: Row) {
    match step
    case Send(i, role, gate, fate) =>
      role == Operator && fate != RequestLost && Justified(row, gate) && i < |clients| && Fulfils(row, clients[i])
    case OtherPost(role, change, req, key, gate) =>
      role == Operator && Justified(row, gate) && Says(row, change, req, key)
    case Cli(change, phase, outcome, subject, comment, gate) =>
      && row.writer == ByCli && Justified(row, gate) && row.change == change && row.phase == phase
      && row.outcome == outcome && row.comment == comment && row.key == None
      && row.sha == if subject == None || subject == Some("") then gate.current else subject
    case Rework(change, phase, order, head, note, _) =>
      && row.writer == ByRework && PhaseAgrees(row) && row.change == change && row.phase == phase
      && row.outcome == Rejected && row.sha == head && row.comment == Some(note) && row.key == Some("rework:" + order)
    case _ => false
  }

  lemma {:induction false} StepWrites(s: System, step: Step)
    ensures
      var rows, rows' := s.store.rows, Next(s, step).store.rows;
      rows' == rows || (rows' == rows + [rows'[|rows'| - 1]] && Writes(s.clients, step, rows'[|rows'| - 1]))
  {
    if step.Send? {
      if step.client < |s.clients| {
        SendWrites(s, step.client, step.role, step.gate, step.fate);
      }
    } else if step.OtherPost? {
      PostWrites(s.store, step.role, step.change, step.req, step.key, step.gate);
    } else if step.Cli? {
      CliRecordsExactly(s.store, step.change, step.phase, step.outcome, step.subject, step.comment, step.gate);
    } else if step.Rework? {
      OrderRecordsExactly(s.store, step.change, step.phase, step.order, step.head, step.note, step.origin);
    }
  }

  lemma {:induction false} PostWrites(
    s: Store, role: Role, change: string, req: Request, key: Option<string>, gate: GateView)
    ensures
      var rows' := Post(s, role, change, req, key, gate).rows;
      rows' == s.rows || (rows' == s.rows + [rows'[|rows'| - 1]]
                          && Writes([], OtherPost(role, change, req, key, gate), rows'[|rows'| - 1]))
  {
    RecordedExactly(s, role, change, req, key, gate);
    AnsweredExactly(s, role, change, req, key, gate);
  }

  lemma {:induction false} SendWrites(s: System, i: nat, role: Role, gate: GateView, fate: Fate)
    requires i < |s.clients|
    ensures
      var rows, rows' := s.store.rows, SendStep(s, i, role, gate, fate).store.rows;
      rows' == rows || (rows' == rows + [rows'[|rows'| - 1]]
                        && Writes(s.clients, Send(i, role, gate, fate), rows'[|rows'| - 1]))
  {
    var c := s.clients[i];
    var expected := if c.at.Ready? then c.form.expected else if c.at.Resend? then Some(c.at.expected) else None;
    var req := Body(c.form, expected);
    RecordedExactly(s.store, role, c.change, req, Some(c.key), gate);
    AnsweredExactly(s.store, role, c.change, req, Some(c.key), gate);
  }

  /** A client's change, form and key never change. */
  lemma {:induction false} FormsStay(clients: seq<Client>, steps: seq<Step>)
    ensures |Run(Start(clients), steps).clients| == |clients|
    ensures forall i :: 0 <= i < |clients| ==>
              Run(Start(clients), steps).clients[i].(at := Ready) == clients[i].(at := Ready)
  {
    if steps != [] {
      FormsStay(clients, steps[..|steps| - 1]);
    }
  }

  /**
   Every decision ever stored was written by one step of the run that met its preconditions at that moment, and says
   what that step was asked to record: an approval saw an available gate and named its current revision, a waiver gave
   a reason, and only a rework order may record a rejection without a revision.
   */
  lemma {:induction false} EveryDecisionJustified(clients: seq<Client>, steps: seq<Step>, n: nat)
    requires n < |Run(Start(clients), steps).store.rows|
    ensures exists i: nat :: WrittenAt(clients, steps, n, Run(Start(clients), steps).store.rows[n], i)
  {
    var init := steps[..|steps| - 1];
    var rows, rows' := Run(Start(clients), init).store.rows, Run(Start(clients), steps).store.rows;
    LastStepWrites(clients, steps);
    if n < |rows| {
      EveryDecisionJustified(clients, init, n);
      var i: nat :| WrittenAt(clients, init, n, rows[n], i);
      WrittenStays(clients, steps, n, rows[n], i);
      assert rows'[n] == rows[n];
    } else {
      assert WrittenAt(clients, steps, n, rows'[n], |init|);
    }
  }

  lemma {:induction false} LastStepWrites(clients: seq<Client>, steps: seq<Step>)
    requires steps != []
    ensures
      var init, last := steps[..|steps| - 1], steps[|steps| - 1];
      var rows, rows' := Run(Start(clients), init).store.rows, Run(Start(clients), steps).store.rows;
      rows' == rows || (rows' == rows + [rows'[|rows'| - 1]] && Writes(clients, last, rows'[|rows'| - 1]))
  {
    var init, last := steps[..|steps| - 1], steps[|steps| - 1];
    var s := Run(Start(clients), init);
    var rows' := Run(Start(clients), steps).store.rows;
    assert rows' == Next(s, last).store.rows;
    StepWrites(s, last);
    if rows' != s.store.rows {
      FormsStay(clients, init);
      SameForms(clients, s.clients, last, rows'[|rows'| - 1]);
    }
  }

  /** Step `i` of the run writes row `n`. */
  ghost predicate WrittenAt(clients: seq<Client>, steps: seq<Step>, n: nat, row: Row, i: nat) {
    i < |steps| && |Run(Start(clients), steps[..i]).store.rows| == n && Writes(clients, steps[i], row)
  }

  lemma {:induction false} WrittenStays(clients: seq<Client>, steps: seq<Step>, n: nat, row: Row, i: nat)
    requires steps != [] && WrittenAt(clients, steps[..|steps| - 1], n, row, i)
    ensures WrittenAt(clients, steps, n, row, i)
  {
    assert steps[..|steps| - 1][..i] == steps[..i];
  }

  lemma {:induction false} SameForms(clients: seq<Client>, now: seq<Client>, step: Step, row: Row)
    requires |now| == |clients| && forall i :: 0 <= i < |now| ==> now[i].(at := Ready) == clients[i].(at := Ready)
    requires Writes(now, step, row)
    ensures Writes(clients, step, row)
  {
    if step.Send? {
      assert now[step.client].(at := Ready) == clients[step.client].(at := Ready);
    }
  }

  /** Presenting a stored key again returns the stored decision, whatever the body or the change, and only audits. */
  lemma {:induction false} ResendIsInert(s: Store, change: string, req: Request, key: string, gate: GateView, n: nat)
    requires KeysUnique(s.rows) && n < |s.rows| && s.rows[n].key == Some(key)
    requires change in s.revisions && WellFormed(req)
    ensures Answer(s, Operator, change, req, Some(key), gate) == Replayed(s.rows[n])
    ensures Post(s, Operator, change, req, Some(key), gate)
            == s.(audit := s.audit + [AuditRow(change, Repeated, Some(key))])
  {
    UniqueAt(s.rows, key, n);
    var at := FindKey(s.rows, key);
    assert at.None? ==> NoKey(s.rows, key);
  }

  // ----- the submission itself

  /** A submission nobody interrupts: send, and after a conflict read the card and send again. */
  function Uninterrupted(store: Store, c: Client, role: Role, gate: GateView, later: GateView): System {
    var sent := Next(System(store, [c]), Send(0, role, gate, Delivered));
    Next(Next(sent, ReadCard(0, true)), Send(0, role, later, Delivered))
  }

  /** The form's decision gets past the gate. */
  predicate Admitted(f: Form, gate: GateView) { Passes(f.outcome, Some(f.subject), f.comment, gate) }

  /** The first request is refused with 409, for its revision or for the gate. */
  predicate Conflicts(store: Store, c: Client, gate: GateView) {
    && c.change in store.revisions && c.form.subject != ""
    && ((c.form.expected.Some? && c.form.expected.value != store.revisions[c.change])
        || (c.form.outcome == Approved && !Admitted(c.form, gate)))
  }

  /**
   When an undisturbed submission returns: at once if the revision and the gate fit, otherwise after one conflict if the
   card's count gives the revision and the gate now fits.  What returns is the decision on the form.
   */
  lemma {:induction false} SubmissionReturnsExactly(
    store: Store, c: Client, role: Role, gate: GateView, later: GateView)
    requires c.at.Ready? && NoKey(store.rows, c.key) && Ledger(store)
    ensures
      var s := Uninterrupted(store, c, role, gate, later);
      && |s.clients| == 1
      && (s.clients[0].at.Returned? <==>
            && role == Operator && c.form.subject != "" && c.change in store.revisions
            && if Conflicts(store, c, gate)
               then Admitted(c.form, later) && forall i :: 0 <= i < |store.rows| && store.rows[i].change == c.change ==>
                                                             store.rows[i].writer == ByApproval
               else Admitted(c.form, gate))
      && (s.clients[0].at.Returned? ==>
            && Fulfils(s.clients[0].at.row, c) && s.clients[0].at.retried == Conflicts(store, c, gate)
            && s.store.rows == store.rows + [s.clients[0].at.row])
      && (!s.clients[0].at.Returned? ==> s.store == store)
  {
    SentExactly(System(store, [c]), role, gate);
    var sent := Next(System(store, [c]), Send(0, role, gate, Delivered));
    if sent.clients[0].at.Conflict? {
      var read := Next(sent, ReadCard(0, true));
      assert read.store == store && read.clients[0].at == Resend(DerivedRevision(DecisionCount(store.rows, c.change)));
      ApprovalsAmongDecisions(store.rows, c.change);
      SentExactly(read, role, later);
    }
  }

  /** One request that is delivered, under a key nobody used. */
  lemma {:induction false} SentExactly(s: System, role: Role, gate: GateView)
    requires |s.clients| == 1 && (s.clients[0].at.Ready? || s.clients[0].at.Resend?)
    requires NoKey(s.store.rows, s.clients[0].key)
    ensures
      var c := s.clients[0];
      var expected := if c.at.Ready? then c.form.expected else Some(c.at.expected);
      var s' := Next(s, Send(0, role, gate, Delivered));
      && |s'.clients| == 1
      && (s'.clients[0].at.Returned? <==>
            && role == Operator && c.form.subject != "" && c.change in s.store.revisions
            && (expected == None || expected == Some(s.store.revisions[c.change])) && Admitted(c.form, gate))
      && (s'.clients[0].at.Returned? ==>
            && Fulfils(s'.clients[0].at.row, c) && s'.clients[0].at.retried == c.at.Resend?
            && s'.store.rows == s.store.rows + [s'.clients[0].at.row])
      && (s'.clients[0].at.Conflict? <==>
            && c.at.Ready? && role == Operator && Conflicts(s.store, c, gate))
      && (!s'.clients[0].at.Returned? ==> s'.store == s.store)
      && (s'.clients[0].at.Conflict? ==> s'.clients[0] == c.(at := Conflict))
  {
    var c := s.clients[0];
    var req := Body(c.form, if c.at.Ready? then c.form.expected else Some(c.at.expected));
    RecordedExactly(s.store, role, c.change, req, Some(c.key), gate);
    AnsweredExactly(s.store, role, c.change, req, Some(c.key), gate);
  }

  /** One console with its form and the key of the decision in progress. */
  class Console {
    const change: string
    const form: Form
    const key: string

    constructor (change: string, form: Form, key: string)
      ensures this.change == change && this.form == form && this.key == key
    {
      this.change, this.form, this.key := change, form, key;
    }

    /** Send, read the card after a conflict, and send once more under the same key. */
    method Submit(service: Service, role: Role, gate: GateView, later: GateView) returns (at: Progress)
      modifies service
      ensures var s := old(Uninterrupted(service.View(), Client(change, form, key, Ready), role, gate, later));
              service.View() == s.store && at == s.clients[0].at
    {
      var first := service.RecordApproval(role, change, Body(form, form.expected), Some(key), gate);
      at := Heard(first, true);
      if at.Conflict? {
        var count := service.CountDecisions(change);
        if count.Some? {   // a conflict means the change is known
          var expected := DerivedRevision(count.value);
          var second := service.RecordApproval(role, change, Body(form, Some(expected)), Some(key), later);
          at := Heard(second, false);
        }
      }
    }
  }
}
