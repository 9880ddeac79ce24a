/**
 When a delivery may be taken, what its outcome leaves, and how long it then rests: leases, backoff, the operator's
 interventions and retention, over every run.
 */
module OutboxRetries {
  import opened Base
  import opened OutboxTables
  import opened OutboxRuns

  // ----- taking

  /** Nothing that still has to be delivered on the stream of `k` has a smaller sequence. */
  ghost predicate NothingBefore(t: Tables, k: Key) {
    forall l :: l in t.rows && l.consumer == k.consumer && l.event in t.events && k.event in t.events
                && t.events[l.event].aggregate == t.events[k.event].aggregate
                && (t.rows[l].status.Pending? || t.rows[l].status.Failed? || t.rows[l].status.Dead?)
                ==> t.events[k.event].sequence <= t.events[l.event].sequence
  }

  /** A pass takes a candidate exactly if it is pending or failed, its time has come, and nothing stands before it. */
  lemma {:induction false} TakenExactly(t: Tables, picked: set<Key>, now: int, k: Key)
    ensures k in Takeable(t, picked, now) <==>
              && k in picked && k in t.rows && (t.rows[k].status.Pending? || t.rows[k].status.Failed?)
              && (t.rows[k].nextAttempt == None || t.rows[k].nextAttempt.value <= now)
              && NothingBefore(t, k)
  {
    assert forall l :: l in t.rows ==>
      var st := t.rows[l].status; (!st.Accepted() <==> st.Pending? || st.Failed? || st.Dead?);
    assert forall l :: SameStream(t, k, l) <==>
      && l.consumer == k.consumer && l.event in t.events && k.event in t.events
      && t.events[l.event].aggregate == t.events[k.event].aggregate;
  }

  /** A row taken at `now` is taken by nobody before `now + 120`, and from then on it can be taken again. */
  lemma {:induction false} LeaseExactly(t: Tables, picked: set<Key>, now: int, k: Key, again: set<Key>, later: int)
    requires k in Takeable(t, picked, now)
    ensures k in Takeable(Reserved(t, picked, now), again, later) <==> k in again && now + 120 <= later
  {
    var t' := Reserved(t, picked, now);
    assert t'.rows.Keys == t.rows.Keys;
    assert forall l :: l in t.rows ==> t'.rows[l].status == t.rows[l].status;
    assert NothingBefore(t', k) <==> NothingBefore(t, k);
    TakenExactly(t, picked, now, k);
    TakenExactly(t', again, later, k);
  }

  /** A reservation touches nothing but the times of the rows it takes. */
  lemma {:induction false} ReservationTouches(t: Tables, picked: set<Key>, now: int, k: Key)
    requires k in t.rows
    ensures var t' := Reserved(t, picked, now);
            && t'.events == t.events && t'.rows.Keys == t.rows.Keys
            && t'.rows[k].status == t.rows[k].status && t'.rows[k].attempts == t.rows[k].attempts
            && (k !in Takeable(t, picked, now) ==> t'.rows[k] == t.rows[k])
  {
  }

  /** The step is a reservation that takes `k`. */
  ghost predicate Takes(s: System, step: Step, k: Key) {
    step.Reserve? && k in Takeable(s.tables, step.picked, step.now)
  }

  // ----- holding

  /** A pass takes exactly what is due to it, as the row stood and at its own time. */
  ghost predicate TakenAs(s: System, step: Step, r: Reservation) {
    && Takes(s, step, r.key) && r.key in s.tables.rows
    && r == Reservation(step.pass, r.key, s.tables.rows[r.key].attempts, step.now)
  }

  /** From its reservation a delivery waits for its call, then for its outcome, unless the pass crashes. */
  lemma {:induction false} HeldExactly(s: System, step: Step, r: Reservation)
    ensures var s' := Next(s, step);
            && (r in s'.waiting <==>
                  || TakenAs(s, step, r)
                  || (r in s.waiting && step != Call(r) && step != Crash(r) && step != Settle(r, false)
                      && !(step == Settle(r, true) && r in s.called)))
            && (r in s'.called <==>
                  || (step == Call(r) && r in s.waiting)
                  || (r in s.called && step != Crash(r) && step != Settle(r, true) && step != Settle(r, false)))
  {
    match step
    case Publish(_, _, _, _) =>
    case Reserve(_, _, _) =>
    case Call(_) =>
    case Settle(_, _) =>
    case Crash(_) =>
    case Replay(_, _) =>
    case Skip(_) =>
    case Cleanup(_) =>
  }

  /** Whatever a pass holds it took itself, with the attempts the row had then and the time of the pass. */
  lemma {:induction false} HeldSince(steps: seq<Step>, r: Reservation) returns (i: nat)
    requires r in Run(steps).waiting || r in Run(steps).called
    ensures i < |steps| && TakenAs(Run(steps[..i]), steps[i], r)
    ensures forall m :: i < m < |steps| ==> steps[m] != Crash(r)
  {
    i := |steps| - 1;
    HeldExactly(Run(steps[..i]), steps[i], r);
    if !TakenAs(Run(steps[..i]), steps[i], r) {
      var n := i;
      i := HeldSince(steps[..n], r);
      assert steps[..n][..i] == steps[..i];
    }
  }

  // ----- outcomes

  /** Each retry waits four times as long as the one before, up to an hour. */
  lemma {:induction false} BackoffExactly(attempts: nat)
    requires attempts >= 1
    ensures BackoffSeconds(1) == 30
    ensures var delay := BackoffSeconds(attempts);
            BackoffSeconds(attempts + 1) == if delay < 900 then 4 * delay else 3600
  {
    assert Pow4(attempts) == 4 * Pow4(attempts - 1);
  }

  /** What a held delivery leaves: delivered, or due again after half a minute, 2, 8 and 32 minutes, or dead. */
  function Left(attempts: nat, success: bool, moment: int): Delivery
    requires attempts < 5
  {
    if success then Delivery(Delivered, attempts + 1, None)
    else if attempts == 4 then Delivery(Dead, 5, None)
    else Delivery(Failed, attempts + 1, Some(moment + [30, 120, 480, 1920][attempts]))
  }

  ghost predicate HeldBy(s: System, r: Reservation, success: bool) {
    r in s.called || (r in s.waiting && !success)
  }

  /** An outcome is written exactly if the pass still holds the delivery and no operator closed it meanwhile. */
  lemma {:induction false} SettledExactly(steps: seq<Step>, r: Reservation, success: bool)
    ensures var s := Run(steps);
            var t' := Next(s, Settle(r, success)).tables;
            if HeldBy(s, r, success) && r.key in s.tables.rows
               && (s.tables.rows[r.key].status.Pending? || s.tables.rows[r.key].status.Failed?)
            then r.attempts < 5
                 && t' == s.tables.(rows := s.tables.rows[r.key := Left(r.attempts, success, r.moment)])
            else t' == s.tables
  {
    RunKeeps(steps);
    if HeldBy(Run(steps), r, success) {
      assert Held(Run(steps).journal, r);
      StepSettles(Run(steps), r, success);
    }
  }

  lemma {:induction false} StepSettles(s: System, r: Reservation, success: bool)
    requires HeldBy(s, r, success) && r.attempts < 5
    ensures Next(s, Settle(r, success)).tables
            == if r.key in s.tables.rows
                  && (s.tables.rows[r.key].status.Pending? || s.tables.rows[r.key].status.Failed?)
               then s.tables.(rows := s.tables.rows[r.key := Left(r.attempts, success, r.moment)]) else s.tables
  {
    OutcomesLeft(r.attempts, success, r.moment);
  }

  lemma {:induction false} OutcomesLeft(attempts: nat, success: bool, moment: int)
    requires attempts < 5
    ensures OutcomeRow(attempts, success, moment) == Left(attempts, success, moment)
  {
    BackoffExactly(1);
    BackoffExactly(2);
    BackoffExactly(3);
  }

  /** The attempts of a row as its status tells them. */
  ghost predicate Counted(d: Delivery) {
    match d.status
    case Pending => d.attempts == 0
    case Failed => 1 <= d.attempts <= 4 && d.nextAttempt.Some?
    case Dead => d.attempts == 5
    case Delivered => 1 <= d.attempts <= 5
    case Waived => d.attempts <= 5
  }

  /** In every run: a pending row had no attempt, a failed one to four, and a dead one exactly five. */
  lemma {:induction false} AttemptsByStatus(steps: seq<Step>)
    ensures forall k :: k in Run(steps).tables.rows ==> Counted(Run(steps).tables.rows[k])
  {
    if steps != [] {
      var init, last := steps[..|steps| - 1], steps[|steps| - 1];
      AttemptsByStatus(init);
      forall k | k in Run(steps).tables.rows ensures Counted(Run(steps).tables.rows[k]) {
        StepCounts(init, last, k);
      }
    }
  }

  lemma {:induction false} StepCounts(init: seq<Step>, step: Step, k: Key)
    requires k in Next(Run(init), step).tables.rows
    requires k in Run(init).tables.rows ==> Counted(Run(init).tables.rows[k])
    ensures Counted(Next(Run(init), step).tables.rows[k])
  {
    var s := Run(init);
    match step
    case Publish(id, aggregate, consumers, now) =>
      RunKeeps(init);
      if id !in s.tables.events {
        PublishedRows(s.tables, id, aggregate, consumers, now);
      }
    case Reserve(pass, picked, now) => ReservationTouches(s.tables, picked, now, k);
    case Settle(r, success) => SettledExactly(init, r, success);
    case _ =>
  }

  // ----- resting

  /** Nobody takes `k` before `until`. */
  ghost predicate Resting(t: Tables, k: Key, until: int) {
    k in t.rows && (t.rows[k].status.Pending? || t.rows[k].status.Failed?) ==>
      t.rows[k].nextAttempt.Some? && t.rows[k].nextAttempt.value >= until
  }

  /** The outcome of a pass, or an operator's replay, decides anew when `k` is due. */
  predicate Reschedules(step: Step, k: Key) {
    || (step.Settle? && step.r.key == k)
    || (step.Replay? && step.event == k.event && (step.consumer == None || step.consumer == Some(k.consumer)))
  }

  lemma {:induction false} StepRests(s: System, step: Step, k: Key, until: int)
    requires k.event in s.journal.born && Resting(s.tables, k, until) && !Reschedules(step, k)
    requires step.Reserve? && k in Takeable(s.tables, step.picked, step.now) ==> step.now + 120 >= until
    ensures k.event in Next(s, step).journal.born && Resting(Next(s, step).tables, k, until)
  {
    if step.Reserve? {
      if k in s.tables.rows {
        ReservationTouches(s.tables, step.picked, step.now, k);
      }
    } else {
      RowStays(s, step, k);
    }
  }

  /** Apart from reservations, only outcomes and operators write an existing row. */
  lemma {:induction false} RowStays(s: System, step: Step, k: Key)
    requires k.event in s.journal.born && !step.Reserve? && !Reschedules(step, k)
    ensures var s' := Next(s, step);
            && k.event in s'.journal.born
            && (k in s'.tables.rows ==>
                  k in s.tables.rows && (s'.tables.rows[k] == s.tables.rows[k] || s'.tables.rows[k].status.Waived?))
  {
    match step
    case Publish(id, aggregate, consumers, now) =>
    case Reserve(_, _, _) =>
    case Call(_) =>
    case Settle(r, _) => assert r.key != k;
    case Crash(_) =>
    case Replay(_, _) =>
    case Skip(_) =>
    case Cleanup(_) =>
  }

  /** A resting delivery stays resting until something reschedules it. */
  lemma {:induction false} RestsUntil(steps: seq<Step>, i: nat, j: nat, k: Key, until: int)
    requires i <= j <= |steps| && k.event in Run(steps[..i]).journal.born && Resting(Run(steps[..i]).tables, k, until)
    requires forall m :: i <= m < j ==> !Reschedules(steps[m], k)
    ensures k.event in Run(steps[..j]).journal.born && Resting(Run(steps[..j]).tables, k, until)
  {
    if i < j {
      RestsUntil(steps, i, j - 1, k, until);
      assert steps[..j][..j - 1] == steps[..j - 1];
      var s := Run(steps[..j - 1]);
      if steps[j - 1].Reserve? {
        TakenExactly(s.tables, steps[j - 1].picked, steps[j - 1].now, k);
      }
      StepRests(s, steps[j - 1], k, until);
    }
  }

  ghost predicate RescheduledBetween(steps: seq<Step>, i: nat, j: nat, k: Key) {
    exists m :: i < m < j <= |steps| && Reschedules(steps[m], k)
  }

  /** Two passes that take one delivery within 120 seconds: an outcome or a replay came between them. */
  lemma {:induction false} LeaseOverRuns(steps: seq<Step>, i: nat, j: nat, k: Key)
    requires i < j < |steps| && Takes(Run(steps[..i]), steps[i], k) && Takes(Run(steps[..j]), steps[j], k)
    ensures steps[j].now < steps[i].now + 120 ==> RescheduledBetween(steps, i, j, k)
  {
    var s := Run(steps[..i]);
    RunKeeps(steps[..i]);
    RunSnoc(steps[..i], steps[i]);
    assert steps[..i + 1] == steps[..i] + [steps[i]];
    LeaseExactly(s.tables, steps[i].picked, steps[i].now, k, {k}, steps[i].now + 119);
    ReservationTouches(s.tables, steps[i].picked, steps[i].now, k);
    if !RescheduledBetween(steps, i, j, k) {
      RestsFrom(steps, i + 1, j, k, steps[i].now + 120);
    }
  }

  lemma {:induction false} RestsFrom(steps: seq<Step>, i: nat, j: nat, k: Key, until: int)
    requires i <= j < |steps| && k.event in Run(steps[..i]).journal.born && Resting(Run(steps[..i]).tables, k, until)
    requires forall m :: i <= m < j ==> !Reschedules(steps[m], k)
    ensures Takes(Run(steps[..j]), steps[j], k) ==> steps[j].now >= until
  {
    RestsUntil(steps, i, j, k, until);
    if steps[j].Reserve? {
      TakenExactly(Run(steps[..j]).tables, steps[j].picked, steps[j].now, k);
    }
  }

  /** After a failure a delivery waits out its backoff, unless another outcome or a replay comes first. */
  lemma {:induction false} BackoffOverRuns(steps: seq<Step>, i: nat, j: nat, r: Reservation)
    requires i < j < |steps| && steps[i] == Settle(r, false) && Takes(Run(steps[..j]), steps[j], r.key)
    requires var s := Run(steps[..i]);
             && HeldBy(s, r, false) && r.key in s.tables.rows
             && (s.tables.rows[r.key].status.Pending? || s.tables.rows[r.key].status.Failed?)
    ensures RescheduledBetween(steps, i, j, r.key)
            || (r.attempts < 4 && steps[j].now >= r.moment + [30, 120, 480, 1920][r.attempts])
  {
    SettledExactly(steps[..i], r, false);
    RunKeeps(steps[..i]);
    RunSnoc(steps[..i], steps[i]);
    assert steps[..i + 1] == steps[..i] + [steps[i]];
    if !RescheduledBetween(steps, i, j, r.key) {
      var never := steps[j].now + 1;
      RestsFrom(steps, i + 1, j, r.key,
                if r.attempts < 4 then r.moment + [30, 120, 480, 1920][r.attempts] else never);
    }
  }

  // ----- the operator and the cleanup

  /** A replay makes every dead or failed delivery it names as good as new, and leaves all others alone. */
  lemma {:induction false} ReplayedExactly(s: System, event: string, consumer: Option<string>, k: Key)
    requires k in s.tables.rows
    ensures var s' := Next(s, Replay(event, consumer));
            && s'.tables.events == s.tables.events && s'.tables.rows.Keys == s.tables.rows.Keys
            && s'.tables.rows[k]
               == if k.event == event && (consumer == None || consumer == Some(k.consumer))
                     && (s.tables.rows[k].status.Dead? || s.tables.rows[k].status.Failed?)
                  then Delivery(Pending, 0, None) else s.tables.rows[k]
  {
  }

  /** A skip waives one delivery that is neither delivered nor waived, and leaves all others alone. */
  lemma {:induction false} SkippedExactly(s: System, key: Key, k: Key)
    requires k in s.tables.rows
    ensures var s' := Next(s, Skip(key));
            && s'.tables.events == s.tables.events && s'.tables.rows.Keys == s.tables.rows.Keys
            && s'.tables.rows[k]
               == if k == key && !s.tables.rows[k].status.Delivered? then s.tables.rows[k].(status := Waived)
                  else s.tables.rows[k]
  {
  }

  /** A cleanup deletes an event, with its deliveries, exactly once 30 days passed and each is delivered or waived. */
  lemma {:induction false} CleanedExactly(s: System, now: int, e: string)
    requires Linked(s.tables) && e in s.tables.events
    ensures var t, t' := s.tables, Next(s, Cleanup(now)).tables;
            && (e !in t'.events <==>
                  && t.events[e].occurredAt + 30 * 86_400 <= now
                  && forall k :: k in t.rows && k.event == e ==>
                       t.rows[k].status.Delivered? || t.rows[k].status.Waived?)
            && (e in t'.events ==> t'.events[e] == t.events[e])
            && (forall k :: k in t.rows && k.event == e ==>
                  if e in t'.events then k in t'.rows && t'.rows[k] == t.rows[k] else k !in t'.rows)
  {
    assert forall k :: k in s.tables.rows ==>
      (s.tables.rows[k].status.Accepted() <==> s.tables.rows[k].status.Delivered? || s.tables.rows[k].status.Waived?);
  }

  /** An event stays, as published, until a cleanup at least 30 days after it. */
  lemma {:induction false} RetainedOverRuns(steps: seq<Step>, i: nat, j: nat, e: string)
    requires i <= j <= |steps| && e in Run(steps[..i]).tables.events
    requires forall m :: i <= m < j && steps[m].Cleanup? ==>
               steps[m].now < Run(steps[..i]).tables.events[e].occurredAt + 30 * 86_400
    ensures e in Run(steps[..j]).tables.events
    ensures Run(steps[..j]).tables.events[e] == Run(steps[..i]).tables.events[e]
  {
    if i < j {
      RetainedOverRuns(steps, i, j - 1, e);
      assert steps[..j][..j - 1] == steps[..j - 1];
      EventStays(Run(steps[..j - 1]), steps[j - 1], e);
    }
  }

  lemma {:induction false} EventStays(s: System, step: Step, e: string)
    requires e in s.tables.events
    requires step.Cleanup? ==> step.now < s.tables.events[e].occurredAt + 30 * 86_400
    ensures e in Next(s, step).tables.events && Next(s, step).tables.events[e] == s.tables.events[e]
  {
    match step
    case Publish(_, _, _, _) =>
    case Reserve(_, _, _) =>
    case Call(_) =>
    case Settle(_, _) =>
    case Crash(_) =>
    case Replay(_, _) =>
    case Skip(_) =>
    case Cleanup(_) =>
  }

  /** A publication adds one event at its time with one delivery for each consumer, due at once, and nothing else. */
  lemma {:induction false} PublishedExactly(
    steps: seq<Step>, id: string, aggregate: string, consumers: set<string>, now: int)
    requires id !in Run(steps).journal.born
    ensures var t, t' := Run(steps).tables, Next(Run(steps), Publish(id, aggregate, consumers, now)).tables;
            && t'.events.Keys == t.events.Keys + {id}
            && (forall e :: e in t.events ==> t'.events[e] == t.events[e])
            && t'.events[id].aggregate == aggregate && t'.events[id].occurredAt == now
            && t'.rows.Keys == t.rows.Keys + (set c | c in consumers :: Key(id, c))
            && (forall k :: k in t.rows ==> t'.rows[k] == t.rows[k])
            && (forall c :: c in consumers ==> t'.rows[Key(id, c)] == Delivery(Pending, 0, None))
  {
    RunKeeps(steps);
    var t := Run(steps).tables;
    PublishedRows(t, id, aggregate, consumers, now);
    assert forall c :: c in consumers ==> Key(id, c) !in t.rows;
  }
}
