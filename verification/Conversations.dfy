/**
 Questions of the agent, comments of the operator and rework orders: what their calls keep, and who may take which
 step.  Whitespace and the notion of a decimal number are parameters.
 */
module Conversations {
  import opened Base
  import Text
  import opened A = Approvals

  datatype Refusal = InvalidAnswer | InvalidStatusTransition | Conflict | Forbidden

  // ----- questions

  datatype AnswerKind = Choice | Plain | Number

  datatype QuestionStatus = Open | Answered | Resolved | Stale

  /** `ws` and `numeric` stand for the platform's whitespace and decimal parser. */
  datatype Form = Form(ws: char -> bool, numeric: string -> bool)

  datatype Question = Question(kind: AnswerKind, options: seq<string>, status: QuestionStatus, answer: Option<string>)

  function QuestionTargets(s: QuestionStatus): set<QuestionStatus> {
    match s
    case Open => {Answered, Stale}
    case Answered => {Resolved, Stale}
    case Resolved | Stale => {}
  }

  /** A draft is refused unless exactly choice questions carry options, and those at least two. */
  function Draft(form: Form, kind: AnswerKind, raw: seq<string>): Option<Question> {
    var options := Text.CleanLines(form.ws, raw);
    if kind.Choice? && |options| < 2 then None
    else if !kind.Choice? && options != [] then None
    else Some(Question(kind, options, Open, None))
  }

  function ValidateAnswer(form: Form, q: Question, value: string): Result<string, Refusal> {
    var cleaned := Text.Trim(form.ws, value);
    if cleaned == "" then Err(InvalidAnswer)
    else match q.kind
      case Choice => if cleaned in q.options then Ok(cleaned) else Err(InvalidAnswer)
      case Number => if form.numeric(cleaned) then Ok(cleaned) else Err(InvalidAnswer)
      case Plain => Ok(cleaned)
  }

  /** A value that can stand as the answer of the question. */
  predicate Fits(form: Form, q: Question, v: string) {
    && v != "" && Text.Trimmed(form.ws, v)
    && (q.kind.Choice? ==> v in q.options)
    && (q.kind.Number? ==> form.numeric(v))
  }

  datatype QuestionCall = AnswerWith(value: string) | Apply(target: QuestionStatus)

  function QuestionCalled(form: Form, q: Question, call: QuestionCall): Result<Question, Refusal> {
    match call
    case AnswerWith(value) =>
      var normalized := ValidateAnswer(form, q, value);
      if normalized.Err? then Err(normalized.error)
      else if Answered !in QuestionTargets(q.status) then Err(InvalidStatusTransition)
      else Ok(q.(status := Answered, answer := Some(normalized.value)))
    case Apply(target) =>
      if target !in QuestionTargets(q.status) then Err(InvalidStatusTransition) else Ok(q.(status := target))
  }

  function QuestionStep(form: Form, q: Question, call: QuestionCall): Question {
    match QuestionCalled(form, q, call)
    case Ok(q') => q'
    case Err(_) => q
  }

  function QuestionAfter(form: Form, q: Question, calls: seq<QuestionCall>): Question {
    if calls == [] then q
    else QuestionStep(form, QuestionAfter(form, q, calls[..|calls| - 1]), calls[|calls| - 1])
  }

  function QuestionMoves(form: Form, q: Question, calls: seq<QuestionCall>): nat {
    if calls == [] then 0
    else QuestionMoves(form, q, calls[..|calls| - 1])
         + if QuestionCalled(form, QuestionAfter(form, q, calls[..|calls| - 1]), calls[|calls| - 1]).Ok? then 1 else 0
  }

  /** Answer and status agree: none while open, a fitting one once answered or resolved. */
  ghost predicate QuestionInStep(form: Form, q: Question) {
    && (q.status.Open? ==> q.answer.None?)
    && (q.status.Answered? || q.status.Resolved? ==> q.answer.Some?)
    && (q.answer.Some? ==> Fits(form, q, q.answer.value))
  }

  /** An accepted answer fits, and every fitting value is accepted as it stands. */
  lemma {:induction false} AcceptedAnswersFit(form: Form, q: Question, value: string)
    ensures ValidateAnswer(form, q, value).Ok? <==> Fits(form, q, Text.Trim(form.ws, value))
    ensures ValidateAnswer(form, q, value).Ok? ==> ValidateAnswer(form, q, value).value == Text.Trim(form.ws, value)
    ensures Fits(form, q, value) ==> ValidateAnswer(form, q, value) == Ok(value)
  {
    Text.TrimTrims(form.ws, value);
    if Text.Trimmed(form.ws, value) {
      Text.TrimKeepsTrimmed(form.ws, value);
    }
  }

  lemma {:induction false} OptionsAreClean(form: Form, raw: seq<string>)
    ensures forall o :: o in Text.CleanLines(form.ws, raw) ==> o != "" && Text.Trimmed(form.ws, o)
    ensures forall o :: o in Text.CleanLines(form.ws, raw) <==>
                          o != "" && exists i :: 0 <= i < |raw| && Text.Trim(form.ws, raw[i]) == o
  {
    if raw != [] {
      var n := |raw| - 1;
      OptionsAreClean(form, raw[..n]);
      Text.TrimTrims(form.ws, raw[n]);
      forall o | o != "" && exists i :: 0 <= i < |raw| && Text.Trim(form.ws, raw[i]) == o
        ensures o in Text.CleanLines(form.ws, raw)
      {
        var i :| 0 <= i < |raw| && Text.Trim(form.ws, raw[i]) == o;
        if i < n {
          assert raw[..n][i] == raw[i];
        }
      }
    }
  }

  /** The answers a choice question accepts are exactly its cleaned options. */
  lemma {:induction false} ChoiceAcceptsItsOptions(form: Form, raw: seq<string>, value: string)
    requires Draft(form, Choice, raw).Some?
    ensures var q := Draft(form, Choice, raw).value;
            ValidateAnswer(form, q, value).Ok? <==>
              Text.Trim(form.ws, value) != ""
              && exists i :: 0 <= i < |raw| && Text.Trim(form.ws, raw[i]) == Text.Trim(form.ws, value)
  {
    OptionsAreClean(form, raw);
    AcceptedAnswersFit(form, Draft(form, Choice, raw).value, value);
    Text.TrimTrims(form.ws, value);
  }

  /** One call keeps answer and status in step, unless it moves to `answered` without an answer. */
  lemma {:induction false} QuestionCallKeepsExactly(form: Form, q: Question, call: QuestionCall)
    requires QuestionInStep(form, q)
    ensures QuestionInStep(form, QuestionStep(form, q, call)) <==> !(q.status.Open? && call == Apply(Answered))
  {
    if call.AnswerWith? {
      AcceptedAnswersFit(form, q, call.value);
      Text.TrimTrims(form.ws, call.value);
    }
  }

  /** What every run of a fresh question keeps when nobody moves it to `answered` by hand. */
  lemma {:induction false} QuestionRun(form: Form, kind: AnswerKind, raw: seq<string>, calls: seq<QuestionCall>)
    requires Draft(form, kind, raw).Some?
    requires Apply(Answered) !in calls
    ensures QuestionInStep(form, QuestionAfter(form, Draft(form, kind, raw).value, calls))
  {
    var q := Draft(form, kind, raw).value;
    if calls != [] {
      var init, last := calls[..|calls| - 1], calls[|calls| - 1];
      assert last in calls;
      assert forall c :: c in init ==> c in calls;
      QuestionRun(form, kind, raw, init);
      QuestionCallKeepsExactly(form, QuestionAfter(form, q, init), last);
    }
  }

  /** At most two accepted moves, and none out of `resolved` or `stale`. */
  lemma {:induction false} QuestionMovesAtMostTwice(form: Form, q: Question, calls: seq<QuestionCall>)
    requires q.status.Open?
    ensures var s := QuestionAfter(form, q, calls).status;
            var n := QuestionMoves(form, q, calls);
            n <= 2 && (n == 0 <==> s.Open?) && (s.Answered? ==> n == 1) && (s.Resolved? ==> n == 2)
  {
    if calls != [] {
      QuestionMovesAtMostTwice(form, q, calls[..|calls| - 1]);
    }
  }

  /** An answer, once given, is never replaced. */
  lemma {:induction false} AnswerIsFinal(form: Form, q: Question, calls: seq<QuestionCall>)
    requires QuestionInStep(form, q) && q.answer.Some?
    ensures QuestionAfter(form, q, calls).answer == q.answer && !QuestionAfter(form, q, calls).status.Open?
  {
    if calls != [] {
      AnswerIsFinal(form, q, calls[..|calls| - 1]);
    }
  }

  /** A question is taken exactly if a choice has two options with something in them, and any other kind none. */
  lemma {:induction false} DraftExactly(form: Form, kind: AnswerKind, raw: seq<string>)
    ensures Draft(form, kind, raw).Some? <==>
              if kind.Choice?
              then exists i, j :: 0 <= i < j < |raw| && !Text.Blank(form.ws, raw[i]) && !Text.Blank(form.ws, raw[j])
              else forall i :: 0 <= i < |raw| ==> Text.Blank(form.ws, raw[i])
    ensures Draft(form, kind, raw).Some? ==>
              Draft(form, kind, raw).value.status.Open? && Draft(form, kind, raw).value.answer.None?
              && Draft(form, kind, raw).value.kind == kind
  {
    StatedLines(form, raw);
  }

  lemma {:induction false} StatedLines(form: Form, raw: seq<string>)
    ensures Text.CleanLines(form.ws, raw) == [] <==> forall i :: 0 <= i < |raw| ==> Text.Blank(form.ws, raw[i])
    ensures |Text.CleanLines(form.ws, raw)| >= 2 <==>
              exists i, j :: 0 <= i < j < |raw| && !Text.Blank(form.ws, raw[i]) && !Text.Blank(form.ws, raw[j])
  {
    if raw != [] {
      var init, last := raw[..|raw| - 1], raw[|raw| - 1];
      StatedLines(form, init);
      Text.TrimTrims(form.ws, last);
      assert raw == init + [last];
      BlankSnoc(form, init, last);
    }
  }

  lemma {:induction false} BlankSnoc(form: Form, init: seq<string>, last: string)
    ensures var raw := init + [last];
            && ((forall i :: 0 <= i < |raw| ==> Text.Blank(form.ws, raw[i])) <==>
                  Text.Blank(form.ws, last) && forall i :: 0 <= i < |init| ==> Text.Blank(form.ws, init[i]))
            && ((exists i, j :: 0 <= i < j < |raw| && !Text.Blank(form.ws, raw[i]) && !Text.Blank(form.ws, raw[j])) <==>
                  || (exists i, j ::
                        0 <= i < j < |init| && !Text.Blank(form.ws, init[i]) && !Text.Blank(form.ws, init[j]))
                  || (!Text.Blank(form.ws, last) && exists i :: 0 <= i < |init| && !Text.Blank(form.ws, init[i])))
  {
    var raw, n := init + [last], |init|;
    assert raw[n] == last;
    if i, j :| 0 <= i < j < |init| && !Text.Blank(form.ws, init[i]) && !Text.Blank(form.ws, init[j]) {
      assert raw[i] == init[i] && raw[j] == init[j];
    }
    if i :| 0 <= i < |init| && !Text.Blank(form.ws, init[i]) {
      assert raw[i] == init[i];
    }
  }

  /** Where a question can come from, target by target. */
  predicate QuestionEdge(from: QuestionStatus, target: QuestionStatus) {
    match target
    case Open => false
    case Answered => from.Open?
    case Resolved => from.Answered?
    case Stale => from.Open? || from.Answered?
  }

  /** What one call does: an answer that fits is stored as typed, without the whitespace around it. */
  lemma {:induction false} QuestionStepExactly(form: Form, q: Question, call: QuestionCall)
    ensures QuestionStep(form, q, call)
            == match call
               case AnswerWith(value) =>
                 if q.status.Open? && Fits(form, q, Text.Trim(form.ws, value))
                 then Question(q.kind, q.options, Answered, Some(Text.Trim(form.ws, value))) else q
               case Apply(target) =>
                 if QuestionEdge(q.status, target) then Question(q.kind, q.options, target, q.answer) else q
  {
    if call.AnswerWith? {
      AcceptedAnswersFit(form, q, call.value);
    }
  }

  /** An answer on record was given by one call to the open question. */
  lemma {:induction false} AnswerWasGiven(form: Form, q: Question, calls: seq<QuestionCall>) returns (i: nat)
    requires q.answer.None? && QuestionAfter(form, q, calls).answer.Some?
    ensures i < |calls| && calls[i].AnswerWith? && QuestionAfter(form, q, calls[..i]).status.Open?
    ensures QuestionAfter(form, q, calls).answer == Some(Text.Trim(form.ws, calls[i].value))
  {
    i := |calls| - 1;
    var before := QuestionAfter(form, q, calls[..i]);
    QuestionStepExactly(form, before, calls[i]);
    if !(calls[i].AnswerWith? && before.status.Open? && Fits(form, before, Text.Trim(form.ws, calls[i].value))) {
      var n := i;
      i := AnswerWasGiven(form, q, calls[..n]);
      assert calls[..n][..i] == calls[..i];
    }
  }

  /** The endpoint: the question as it stands and whether the answer is new. */
  function AnswerQuestion(form: Form, q: Question, value: string): Result<(Question, bool), Refusal> {
    if !q.status.Open? then
      if q.status.Answered? && q.answer == Some(Text.Trim(form.ws, value)) then Ok((q, false)) else Err(Conflict)
    else
      match QuestionCalled(form, q, AnswerWith(value))
      case Ok(q') => Ok((q', true))
      case Err(e) => Err(e)
  }

  /** After an accepted answer the same value is a replay and any other one a conflict. */
  lemma {:induction false} AnsweringAgain(form: Form, q: Question, value: string, again: string)
    requires q.status.Open? && AnswerQuestion(form, q, value).Ok?
    ensures var q' := AnswerQuestion(form, q, value).value.0;
            AnswerQuestion(form, q', again)
            == if Text.Trim(form.ws, again) == Text.Trim(form.ws, value) then Ok((q', false)) else Err(Conflict)
  {
  }

  // ----- comments

  datatype CommentStatus = Unresolved | Addressed | Closed

  datatype CommentRequest = Address(role: Role, note: Option<string>) | Close(role: Role) | Reopen(role: Role)

  datatype Comment = Comment(status: CommentStatus, note: Option<string>)

  function CommentTargets(s: CommentStatus): set<CommentStatus> {
    match s
    case Unresolved => {Addressed, Closed}
    case Addressed => {Unresolved, Closed}
    case Closed => {}
  }

  function CommentMoved(c: Comment, target: CommentStatus): Result<Comment, Refusal> {
    if target !in CommentTargets(c.status) then Err(InvalidStatusTransition) else Ok(c.(status := target))
  }

  function CommentCalled(form: Form, c: Comment, r: CommentRequest): Result<Comment, Refusal> {
    match r
    case Address(_, note) =>
      var moved := CommentMoved(c, Addressed);
      if moved.Ok? then Ok(moved.value.(note := Text.StatedIfAny(form.ws, note))) else moved
    case Close(role) => if !role.Operator? then Err(Forbidden) else CommentMoved(c, Closed)
    case Reopen(role) => if !role.Operator? then Err(Forbidden) else CommentMoved(c, Unresolved)
  }

  function CommentStep(form: Form, c: Comment, r: CommentRequest): Comment {
    match CommentCalled(form, c, r)
    case Ok(c') => c'
    case Err(_) => c
  }

  function CommentAfter(form: Form, requests: seq<CommentRequest>): Comment {
    if requests == [] then Comment(Unresolved, None)
    else CommentStep(form, CommentAfter(form, requests[..|requests| - 1]), requests[|requests| - 1])
  }

  /** What one request does: who may take which step, and that addressing a remark replaces its note. */
  lemma {:induction false} CommentStepExactly(form: Form, c: Comment, r: CommentRequest)
    ensures var c' := CommentStep(form, c, r);
            match r
            case Address(_, note) =>
              if c.status.Unresolved?
              then c'.status.Addressed?
                   && (c'.note == None <==> note == None || Text.Blank(form.ws, note.value))
                   && (c'.note.Some? ==> c'.note == Some(Text.Trim(form.ws, note.value)))
              else c' == c
            case Close(role) => c' == if role == Operator && !c.status.Closed? then Comment(Closed, c.note) else c
            case Reopen(role) =>
              c' == if role == Operator && c.status.Addressed? then Comment(Unresolved, c.note) else c
  {
    if r.Address? && r.note.Some? {
      Text.TrimTrims(form.ws, r.note.value);
    }
  }

  /** The agent's side can only claim that an open remark was addressed. */
  lemma {:induction false} ServiceOnlyAddresses(form: Form, c: Comment, r: CommentRequest)
    requires r.role.Service? && CommentStep(form, c, r) != c
    ensures c.status.Unresolved? && CommentStep(form, c, r).status.Addressed? && r.Address?
  {
  }

  /** A closed remark was closed by an operator, and nothing changes it afterwards. */
  lemma {:induction false} ClosedByOperator(form: Form, requests: seq<CommentRequest>) returns (i: nat)
    requires CommentAfter(form, requests).status.Closed?
    ensures i < |requests| && requests[i] == Close(Operator)
    ensures !CommentAfter(form, requests[..i]).status.Closed?
    ensures forall k :: i < k <= |requests| ==> CommentAfter(form, requests[..k]) == CommentAfter(form, requests)
  {
    var n := |requests| - 1;
    if CommentAfter(form, requests[..n]).status.Closed? {
      i := ClosedByOperator(form, requests[..n]);
      assert requests[..n][..i] == requests[..i];
      forall k | i < k <= |requests| ensures CommentAfter(form, requests[..k]) == CommentAfter(form, requests) {
        if k <= n {
          assert requests[..n][..k] == requests[..k];
        } else {
          assert requests[..k] == requests;
        }
      }
    } else {
      i := n;
      assert requests[..|requests|] == requests;
    }
  }

  // ----- rework orders

  datatype OrderStatus = Pending | InProgress | Done | Escalated

  datatype Order = Order(
    status: OrderStatus, round: Option<nat>, run: Option<string>, summary: Option<string>, reason: Option<string>)

  datatype OrderCall =
    | Start(round: nat, run: string)
    | Finish(summary: string)
    | Escalate(reason: string)
    | Move(target: OrderStatus)

  const FreshOrder: Order := Order(Pending, None, None, None, None)

  function OrderTargets(s: OrderStatus): set<OrderStatus> {
    match s
    case Pending => {InProgress, Escalated}
    case InProgress => {OrderStatus.Done, Escalated}
    case Done | Escalated => {}
  }

  function OrderTarget(call: OrderCall): OrderStatus {
    match call
    case Start(_, _) => InProgress
    case Finish(_) => OrderStatus.Done
    case Escalate(_) => Escalated
    case Move(target) => target
  }

  predicate OrderAccepts(o: Order, call: OrderCall) { OrderTarget(call) in OrderTargets(o.status) }

  function OrderStep(o: Order, call: OrderCall): Order {
    if !OrderAccepts(o, call) then o
    else match call
      case Start(round, run) => o.(status := InProgress, round := Some(round), run := Some(run))
      case Finish(summary) => o.(status := OrderStatus.Done, summary := Some(summary))
      case Escalate(reason) => o.(status := Escalated, reason := Some(reason))
      case Move(target) => o.(status := target)
  }

  function OrderAfter(calls: seq<OrderCall>): Order {
    if calls == [] then FreshOrder else OrderStep(OrderAfter(calls[..|calls| - 1]), calls[|calls| - 1])
  }

  function OrderMoves(calls: seq<OrderCall>): nat {
    if calls == [] then 0
    else OrderMoves(calls[..|calls| - 1])
         + if OrderAccepts(OrderAfter(calls[..|calls| - 1]), calls[|calls| - 1]) then 1 else 0
  }

  /** Every field is set exactly in the statuses it belongs to. */
  ghost predicate OrderInStep(o: Order) {
    && (o.round.Some? <==> o.run.Some?)
    && (o.status.Pending? ==> o.round.None?)
    && (o.status.InProgress? || o.status.Done? ==> o.round.Some?)
    && (o.status.Done? <==> o.summary.Some?)
    && (o.status.Escalated? <==> o.reason.Some?)
  }

  /** One call keeps an order in step exactly if it is not a bare status move that the table accepts. */
  lemma {:induction false} OrderCallKeepsExactly(o: Order, call: OrderCall)
    requires OrderInStep(o)
    ensures OrderInStep(OrderStep(o, call)) <==> !(call.Move? && OrderAccepts(o, call))
  {
  }

  lemma {:induction false} OrderRun(calls: seq<OrderCall>)
    requires forall i :: 0 <= i < |calls| ==> !calls[i].Move?
    ensures OrderInStep(OrderAfter(calls))
  {
    if calls != [] {
      OrderRun(calls[..|calls| - 1]);
      OrderCallKeepsExactly(OrderAfter(calls[..|calls| - 1]), calls[|calls| - 1]);
    }
  }

  lemma {:induction false} OrderMovesAtMostTwice(calls: seq<OrderCall>)
    ensures var s := OrderAfter(calls).status;
            var n := OrderMoves(calls);
            n <= 2 && (n == 0 <==> s.Pending?) && (s.InProgress? ==> n == 1) && (s.Done? ==> n == 2)
  {
    if calls != [] {
      OrderMovesAtMostTwice(calls[..|calls| - 1]);
    }
  }

  /** What one call does: which status it needs, and the values it stores. */
  lemma {:induction false} OrderStepExactly(o: Order, call: OrderCall)
    ensures OrderStep(o, call)
            == match call
               case Start(round, run) =>
                 if o.status.Pending? then Order(InProgress, Some(round), Some(run), o.summary, o.reason) else o
               case Finish(summary) =>
                 if o.status.InProgress? then Order(OrderStatus.Done, o.round, o.run, Some(summary), o.reason) else o
               case Escalate(reason) =>
                 if o.status.Pending? || o.status.InProgress?
                 then Order(Escalated, o.round, o.run, o.summary, Some(reason)) else o
               case Move(target) =>
                 if (o.status.Pending? && (target.InProgress? || target.Escalated?))
                    || (o.status.InProgress? && (target.Done? || target.Escalated?))
                 then Order(target, o.round, o.run, o.summary, o.reason) else o
  {
  }

  /** Every value on an order is the one some call of its run gave. */
  lemma {:induction false} OrderSaysItsCalls(calls: seq<OrderCall>)
    ensures var o := OrderAfter(calls);
            && (o.round.Some? && o.run.Some? ==> Start(o.round.value, o.run.value) in calls)
            && (o.summary.Some? ==> Finish(o.summary.value) in calls)
            && (o.reason.Some? ==> Escalate(o.reason.value) in calls)
            && (o.round.Some? <==> o.run.Some?)
  {
    if calls != [] {
      var init, last := calls[..|calls| - 1], calls[|calls| - 1];
      OrderSaysItsCalls(init);
      assert forall c :: c in init ==> c in calls;
      assert last in calls;
    }
  }

  /** Terminal orders take no further call. */
  lemma {:induction false} OrderEndsForGood(calls: seq<OrderCall>, more: seq<OrderCall>)
    requires OrderAfter(calls).status.Done? || OrderAfter(calls).status.Escalated?
    ensures OrderAfter(calls + more) == OrderAfter(calls)
  {
    if more == [] {
      assert calls + more == calls;
    } else {
      OrderEndsForGood(calls, more[..|more| - 1]);
      assert (calls + more)[..|calls + more| - 1] == calls + more[..|more| - 1];
    }
  }

  // ----- the entities the calls mutate

  class QuestionEntity {
    const form: Form
    const kind: AnswerKind
    const options: seq<string>
    var status: QuestionStatus
    var answer: Option<string>

    ghost function View(): Question
      reads this
    {
      Question(kind, options, status, answer)
    }

    constructor (form: Form, q: Question)
      ensures View() == q && this.form == form
    {
      this.form, kind, options, status, answer := form, q.kind, q.options, q.status, q.answer;
    }

    method ApplyStatus(target: QuestionStatus) returns (r: Result<(), Refusal>)
      modifies this
      ensures View() == old(QuestionStep(form, View(), Apply(target)))
      ensures r.Ok? <==> old(QuestionCalled(form, View(), Apply(target))).Ok?
    {
      if target !in QuestionTargets(status) {
        return Err(InvalidStatusTransition);
      }
      status := target;
      r := Ok(());
    }

    method AnswerWithValue(value: string) returns (r: Result<string, Refusal>)
      modifies this
      ensures View() == old(QuestionStep(form, View(), AnswerWith(value)))
      ensures r.Ok? <==> old(QuestionCalled(form, View(), AnswerWith(value))).Ok?
      ensures r.Ok? ==> answer == Some(r.value)
    {
      var cleaned := Text.Trim(form.ws, value);
      if cleaned == "" || (kind.Choice? && cleaned !in options) || (kind.Number? && !form.numeric(cleaned)) {
        return Err(InvalidAnswer);
      }
      var moved := ApplyStatus(Answered);
      if moved.Err? {
        return Err(moved.error);
      }
      answer := Some(cleaned);
      r := Ok(cleaned);
    }
  }

  class CommentEntity {
    const form: Form
    var status: CommentStatus
    var note: Option<string>

    ghost function View(): Comment
      reads this
    {
      Comment(status, note)
    }

    constructor (form: Form)
      ensures View() == CommentAfter(form, []) && this.form == form
    {
      this.form, status, note := form, Unresolved, None;
    }

    method Handle(request: CommentRequest) returns (r: Result<(), Refusal>)
      modifies this
      ensures View() == old(CommentStep(form, View(), request))
      ensures r.Ok? <==> old(CommentCalled(form, View(), request)).Ok?
    {
      var target := Addressed;
      match request {
        case Address(_, _) =>
        case Close(role) =>
          if role.Service? { return Err(Forbidden); }
          target := Closed;
        case Reopen(role) =>
          if role.Service? { return Err(Forbidden); }
          target := Unresolved;
      }
      if target !in CommentTargets(status) {
        return Err(InvalidStatusTransition);
      }
      status := target;
      if request.Address? {
        note := Text.StatedIfAny(form.ws, request.note);
      }
      r := Ok(());
    }
  }

  class OrderEntity {
    var status: OrderStatus
    var round: Option<nat>
    var run: Option<string>
    var summary: Option<string>
    var reason: Option<string>

    ghost function View(): Order
      reads this
    {
      Order(status, round, run, summary, reason)
    }

    constructor ()
      ensures View() == FreshOrder
    {
      status, round, run, summary, reason := Pending, None, None, None, None;
    }

    method ApplyStatus(target: OrderStatus) returns (r: Result<(), Refusal>)
      modifies this
      ensures View() == old(OrderStep(View(), Move(target)))
      ensures r.Ok? <==> old(OrderAccepts(View(), Move(target)))
    {
      if target !in OrderTargets(status) {
        return Err(InvalidStatusTransition);
      }
      status := target;
      r := Ok(());
    }

    method Begin(number: nat, id: string) returns (r: Result<(), Refusal>)
      modifies this
      ensures View() == old(OrderStep(View(), Start(number, id)))
      ensures r.Ok? <==> old(OrderAccepts(View(), Start(number, id)))
    {
      r := ApplyStatus(InProgress);
      if r.Ok? {
        round, run := Some(number), Some(id);
      }
    }

    method Complete(report: string) returns (r: Result<(), Refusal>)
      modifies this
      ensures View() == old(OrderStep(View(), Finish(report)))
      ensures r.Ok? <==> old(OrderAccepts(View(), Finish(report)))
    {
      r := ApplyStatus(OrderStatus.Done);
      if r.Ok? {
        summary := Some(report);
      }
    }

    method GiveUp(why: string) returns (r: Result<(), Refusal>)
      modifies this
      ensures View() == old(OrderStep(View(), Escalate(why)))
      ensures r.Ok? <==> old(OrderAccepts(View(), Escalate(why)))
    {
      r := ApplyStatus(Escalated);
      if r.Ok? {
        reason := Some(why);
      }
    }
  }
}
