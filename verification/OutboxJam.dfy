/**
 Runs of honest passes into a jam: every pass takes the batch of its query, and the clock does not run back.
 */
module OutboxJams {
  import opened OutboxTables
  import opened OutboxOrder
  import opened OutboxRuns
  import opened OutboxBatches
  import opened Base

  /** When the step reads the clock. */
  function Time(step: Step): Option<int> {
    match step
    case Publish(_, _, _, now) => Some(now)
    case Reserve(_, _, now) => Some(now)
    case Cleanup(now) => Some(now)
    case _ => None
  }

  /** A pass takes the batch of its query. */
  ghost predicate Honest(s: System, step: Step, limit: nat) {
    step.Reserve? ==>
      Linked(s.tables)
      && exists batch :: IsBatch(s.tables, {}, step.now, limit, batch) && step.picked == Members(batch)
  }

  ghost predicate Timely(steps: seq<Step>, clock: int) {
    && (forall i :: 0 <= i < |steps| && Time(steps[i]).Some? ==> Time(steps[i]).value <= clock)
    && (forall i, j :: 0 <= i < j < |steps| && Time(steps[i]).Some? && Time(steps[j]).Some? ==>
          Time(steps[i]).value <= Time(steps[j]).value)
  }

  ghost predicate HonestRun(steps: seq<Step>, limit: nat, clock: int) {
    && Timely(steps, clock)
    && forall i :: 0 <= i < |steps| ==> Honest(Run(steps[..i]), steps[i], limit)
  }

  /** `s` is reached by honest passes of that limit, at the latest at `clock`. */
  ghost predicate Reached(s: System, limit: nat, clock: int) {
    exists steps :: Run(steps) == s && HonestRun(steps, limit, clock)
  }

  lemma {:induction false} HonestSnoc(steps: seq<Step>, step: Step, limit: nat, clock: int, later: int)
    requires HonestRun(steps, limit, clock) && Honest(Run(steps), step, limit) && clock <= later
    requires Time(step).Some? ==> clock <= Time(step).value <= later
    ensures HonestRun(steps + [step], limit, later)
  {
    var more := steps + [step];
    forall i | 0 <= i < |more| ensures Honest(Run(more[..i]), more[i], limit) {
      assert more[..i] == steps[..i];
      if i == |steps| {
        assert steps[..i] == steps;
      }
    }
  }

  lemma {:induction false} ReachedNext(s: System, step: Step, limit: nat, clock: int, later: int)
    requires Reached(s, limit, clock) && Honest(s, step, limit) && clock <= later
    requires Time(step).Some? ==> clock <= Time(step).value <= later
    ensures Reached(Next(s, step), limit, later)
  {
    var steps :| Run(steps) == s && HonestRun(steps, limit, clock);
    HonestSnoc(steps, step, limit, clock, later);
    RunSnoc(steps, step);
  }

  lemma {:induction false} EmptyReached(limit: nat)
    ensures Reached(Empty, limit, 0)
  {
    var steps: seq<Step> := [];
    assert Run(steps) == Empty && HonestRun(steps, limit, 0);
  }

  const New: Delivery := Delivery(Pending, 0, None)

  function Name(n: nat): (s: string)
    ensures |s| == n
  {
    seq(n, i => 'e')
  }

  /** Nothing is in flight, and every event ever published is stored. */
  ghost predicate Idle(s: System) {
    s.waiting == {} && s.called == {} && s.journal.born.Keys == s.tables.events.Keys
  }

  /** `n` events of one stream at time 0, numbered by the length of their names, each with one row. */
  ghost predicate Backlog(t: Tables, n: nat, stream: string, consumer: string) {
    && (forall e :: e in t.events ==> 1 <= |e| <= n && e == Name(|e|) && t.events[e] == Event(stream, |e|, 0))
    && (forall k :: k in t.rows ==> k.consumer == consumer && k.event in t.events)
    && (forall i :: 1 <= i <= n ==> Name(i) in t.events && Key(Name(i), consumer) in t.rows)
  }

  lemma {:induction false} BacklogHighest(t: Tables, n: nat, stream: string, consumer: string)
    requires Backlog(t, n, stream, consumer)
    ensures HighestSequence(t.events, stream) == n
  {
    assert IsHighest(t.events, stream, HighestSequence(t.events, stream));
    assert n > 0 ==> t.events[Name(n)].sequence == n;
  }

  /** Publishing one event more with one consumer. */
  lemma {:induction false} PublishOne(s: System, id: string, stream: string, consumer: string, now: int)
    requires Idle(s) && id !in s.tables.events
    ensures var s' := PublishStep(s, id, stream, {consumer}, now);
            && Idle(s')
            && s'.tables.events
               == s.tables.events[id := Event(stream, HighestSequence(s.tables.events, stream) + 1, now)]
            && s'.tables.rows == s.tables.rows[Key(id, consumer) := New]
  {
  }

  ghost predicate AllNew(t: Tables) { forall k :: k in t.rows ==> t.rows[k] == New }

  lemma {:induction false} BacklogGrows(s: System, n: nat, stream: string, consumer: string)
    requires Idle(s) && Backlog(s.tables, n, stream, consumer) && AllNew(s.tables)
    ensures var s' := PublishStep(s, Name(n + 1), stream, {consumer}, 0);
            Idle(s') && Backlog(s'.tables, n + 1, stream, consumer) && AllNew(s'.tables)
  {
    BacklogHighest(s.tables, n, stream, consumer);
    PublishOne(s, Name(n + 1), stream, consumer, 0);
    BacklogOneMore(s.tables, PublishStep(s, Name(n + 1), stream, {consumer}, 0).tables, n, stream, consumer);
  }

  lemma {:induction false} BacklogOneMore(t: Tables, t': Tables, n: nat, stream: string, consumer: string)
    requires Backlog(t, n, stream, consumer) && AllNew(t)
    requires t'.events == t.events[Name(n + 1) := Event(stream, n + 1, 0)]
    requires t'.rows == t.rows[Key(Name(n + 1), consumer) := New]
    ensures Backlog(t', n + 1, stream, consumer) && AllNew(t')
  {
  }

  lemma {:induction false} BacklogReached(n: nat, limit: nat, stream: string, consumer: string) returns (s: System)
    ensures Reached(s, limit, 0) && Idle(s) && Backlog(s.tables, n, stream, consumer) && AllNew(s.tables)
  {
    if n == 0 {
      s := Empty;
      EmptyReached(limit);
    } else {
      var before := BacklogReached(n - 1, limit, stream, consumer);
      BacklogGrows(before, n - 1, stream, consumer);
      s := PublishStep(before, Name(n), stream, {consumer}, 0);
      ReachedNext(before, Publish(Name(n), stream, {consumer}, 0), limit, 0, 0);
    }
  }

  /** One pass over `picked` that takes only `k` and fails it. */
  ghost function FailedOnce(s: System, picked: set<Key>, k: Key, attempts: nat, now: int): System {
    SettleStep(ReserveStep(s, 0, picked, now), Reservation(0, k, attempts, now), false)
  }

  lemma {:induction false} FailOnce(s: System, picked: set<Key>, k: Key, now: int)
    requires Idle(s) && Takeable(s.tables, picked, now) == {k}
    ensures k in s.tables.rows
    ensures var d := s.tables.rows[k];
            var s' := FailedOnce(s, picked, k, d.attempts, now);
            && Idle(s') && s'.tables.events == s.tables.events
            && s'.tables.rows == s.tables.rows[k := OutcomeRow(d.attempts, false, now)]
  {
    var t := s.tables;
    assert k in Takeable(t, picked, now);
    var r := Reservation(0, k, t.rows[k].attempts, now);
    var reserved := ReserveStep(s, 0, picked, now);
    assert reserved.waiting == {r};
    assert reserved.tables.rows == t.rows[k := Leased(t.rows[k], now)];
  }

  /** What a failure leaves: one attempt more, due again 10000 seconds later unless the attempts are used up. */
  lemma {:induction false} FailureRow(attempts: nat, now: int)
    requires attempts < MAX_ATTEMPTS
    ensures var d := OutcomeRow(attempts, false, now);
            && d.attempts == attempts + 1
            && (if attempts + 1 < MAX_ATTEMPTS then Due(d, now + 10_000) else d.status.Dead?)
  {
  }

  /** The first delivery of the backlog stands at `d`, the others are new. */
  ghost predicate FirstAt(s: System, d: Delivery, size: nat, stream: string, consumer: string) {
    && Idle(s) && Backlog(s.tables, size, stream, consumer) && size >= 1
    && forall k :: k in s.tables.rows ==> s.tables.rows[k] == if k.event == Name(1) then d else New
  }

  /** Nothing sorts before the first delivery, so it is in the batch of every query with room for one row. */
  lemma {:induction false} FirstInBatch(
    s: System, d: Delivery, now: int, limit: nat, size: nat, stream: string, consumer: string, batch: seq<Key>)
    requires FirstAt(s, d, size, stream, consumer) && Due(d, now) && limit >= 1
    requires Linked(s.tables) && IsBatch(s.tables, {}, now, limit, batch)
    ensures Key(Name(1), consumer) in batch
  {
    var t, first := s.tables, Key(Name(1), consumer);
    assert first in Eligible(t, {}, now);
    forall l | l in Eligible(t, {}, now) ensures !Before(PlaceOf(t, l), PlaceOf(t, first)) {
      BeforeOrders(PlaceOf(t, first), PlaceOf(t, first), PlaceOf(t, first));
      LessOrders(consumer, consumer, consumer);
      LessOrders(Name(1), Name(1), Name(1));
      assert l.event == Name(|l.event|);
    }
    assert Ahead(t, {}, now, first) == {};
    InBatchExactly(t, {}, now, limit, batch, first);
  }

  /** Of the backlog only the first delivery can be taken. */
  lemma {:induction false} FirstAlone(
    s: System, d: Delivery, now: int, size: nat, stream: string, consumer: string, picked: set<Key>)
    requires FirstAt(s, d, size, stream, consumer) && Due(d, now) && Key(Name(1), consumer) in picked
    ensures Takeable(s.tables, picked, now) == {Key(Name(1), consumer)}
  {
    var t, first := s.tables, Key(Name(1), consumer);
    assert first in t.rows && first.event in t.events && !t.rows[first].status.Accepted();
    assert HeadOfStream(t, first);
    forall k | k in Takeable(t, picked, now) ensures k == first {
      assert SameStream(t, k, first);
      assert k.event == Name(|k.event|);
    }
  }

  /** What failing the first delivery of the batch leaves. */
  lemma {:induction false} FirstFails(
    s: System, e: Delivery, limit: nat, now: int, size: nat, stream: string, consumer: string, batch: seq<Key>)
    requires FirstAt(s, e, size, stream, consumer) && Due(e, now) && Key(Name(1), consumer) in batch
    ensures FirstAt(FailedOnce(s, Members(batch), Key(Name(1), consumer), e.attempts, now),
                    OutcomeRow(e.attempts, false, now), size, stream, consumer)
  {
    FirstAlone(s, e, now, size, stream, consumer, Members(batch));
    FailOnce(s, Members(batch), Key(Name(1), consumer), now);
  }

  /** The batch of an honest pass holds the first delivery. */
  lemma {:induction false} HonestBatch(
    s: System, e: Delivery, limit: nat, now: int, size: nat, stream: string, consumer: string)
    returns (batch: seq<Key>)
    requires FirstAt(s, e, size, stream, consumer) && Due(e, now) && limit >= 1
    ensures Linked(s.tables) && IsBatch(s.tables, {}, now, limit, batch) && Key(Name(1), consumer) in batch
  {
    batch := BatchExists(s.tables, {}, now, limit);
    FirstInBatch(s, e, now, limit, size, stream, consumer, batch);
  }

  /** One honest pass fails the first delivery once more. */
  lemma {:induction false} FailFirst(
    s: System, e: Delivery, limit: nat, now: int, size: nat, stream: string, consumer: string)
    returns (s': System, d: Delivery)
    requires Reached(s, limit, now) && limit >= 1
    requires FirstAt(s, e, size, stream, consumer) && Due(e, now) && e.attempts < MAX_ATTEMPTS
    ensures Reached(s', limit, now + 10_000) && FirstAt(s', d, size, stream, consumer) && d.attempts == e.attempts + 1
    ensures if e.attempts + 1 < MAX_ATTEMPTS then Due(d, now + 10_000) else d.status.Dead?
  {
    var batch := HonestBatch(s, e, limit, now, size, stream, consumer);
    FirstFails(s, e, limit, now, size, stream, consumer, batch);
    FailureRow(e.attempts, now);
    d := OutcomeRow(e.attempts, false, now);
    s' := FailedOnceReached(s, batch, Key(Name(1), consumer), e.attempts, limit, now);
  }

  lemma {:induction false} FailedOnceReached(s: System, batch: seq<Key>, k: Key, attempts: nat, limit: nat, now: int)
    returns (s': System)
    requires Reached(s, limit, now) && Linked(s.tables) && IsBatch(s.tables, {}, now, limit, batch)
    ensures s' == FailedOnce(s, Members(batch), k, attempts, now) && Reached(s', limit, now + 10_000)
  {
    s' := FailedOnce(s, Members(batch), k, attempts, now);
    ReachedNext(s, Reserve(0, Members(batch), now), limit, now, now + 10_000);
    ReachedNext(ReserveStep(s, 0, Members(batch), now), Settle(Reservation(0, k, attempts, now), false), limit,
                now + 10_000, now + 10_000);
  }

  /** Any number of failures of the first delivery, up to the last attempt. */
  lemma {:induction false} FailuresReached(s: System, n: nat, limit: nat, size: nat, stream: string, consumer: string)
    returns (s': System, d: Delivery)
    requires Reached(s, limit, 0) && FirstAt(s, New, size, stream, consumer) && n <= MAX_ATTEMPTS && limit >= 1
    ensures Reached(s', limit, 10_000 * n) && FirstAt(s', d, size, stream, consumer) && d.attempts == n
    ensures if n < MAX_ATTEMPTS then Due(d, 10_000 * n) else d.status.Dead?
  {
    if n == 0 {
      s', d := s, New;
    } else {
      var before, e := FailuresReached(s, n - 1, limit, size, stream, consumer);
      s', d := FailFirst(before, e, limit, 10_000 * (n - 1), size, stream, consumer);
    }
  }

  /** The deliveries of the backlog behind its first one. */
  function Rest(n: nat, consumer: string): (block: set<Key>)
    ensures |block| == n
    ensures forall k :: k in block ==> 2 <= |k.event| <= n + 1 && k == Key(Name(|k.event|), consumer)
  {
    if n == 0 then {} else Rest(n - 1, consumer) + {Key(Name(n + 1), consumer)}
  }

  /** The rows of `block` are jammed, and `h` is a due head of its stream that sorts after them. */
  ghost predicate Starving(t: Tables, block: set<Key>, h: Key) {
    && Jam(t, block, 0) && h in t.rows && h.event in t.events && HeadOfStream(t, h)
    && (forall now :: Due(t.rows[h], now))
    && forall k :: k in block ==> k.event in t.events && Before(PlaceOf(t, k), PlaceOf(t, h))
  }

  /** With the first delivery dead and one later event on another stream, the rest of the backlog is a jam. */
  lemma {:induction false} DeadHeadJams(
    s: System, s': System, d: Delivery, size: nat, stream: string, other: string, consumer: string,
    block: set<Key>, h: Key,
    later: int)
    requires later > 0
    requires FirstAt(s, d, size, stream, consumer) && d.status.Dead? && stream != other
    requires h == Key(Name(size + 1), consumer)
    requires s'.tables.events
             == s.tables.events[h.event := Event(other, HighestSequence(s.tables.events, other) + 1, later)]
    requires s'.tables.rows == s.tables.rows[h := New]
    requires forall k :: k in block ==> 2 <= |k.event| <= size && k == Key(Name(|k.event|), consumer)
    ensures Starving(s'.tables, block, h)
  {
    var t, t' := s.tables, s'.tables;
    var first := Key(Name(1), consumer);
    assert first in t.rows && first.event in t.events && first != h;
    forall k | k in block
      ensures k in t.rows && k.event in t.events && k != h && k.event != Name(1) && BehindDead(t', first, k)
    {
      assert k == Key(Name(|k.event|), consumer);
    }
  }

  /** One later event of another stream starves behind the backlog of a dead head. */
  lemma {:induction false} LaterEventStarves(
    dead: System, s: System, d: Delivery, size: nat, stream: string, other: string, consumer: string, later: int,
    block: set<Key>, h: Key)
    requires FirstAt(dead, d, size, stream, consumer) && d.status.Dead? && stream != other && later > 0
    requires h == Key(Name(size + 1), consumer) && s == PublishStep(dead, h.event, other, {consumer}, later)
    requires forall k :: k in block ==> 2 <= |k.event| <= size && k == Key(Name(|k.event|), consumer)
    ensures Starving(s.tables, block, h)
  {
    PublishOne(dead, h.event, other, consumer, later);
    DeadHeadJams(dead, s, d, size, stream, other, consumer, block, h, later);
  }

  lemma {:induction false} DeadHeadReached(limit: nat, stream: string, consumer: string)
    returns (s: System, d: Delivery)
    requires limit >= 1
    ensures Reached(s, limit, 50_000) && FirstAt(s, d, limit + 1, stream, consumer) && d.status.Dead?
  {
    s := BacklogReached(limit + 1, limit, stream, consumer);
    s, d := FailuresReached(s, MAX_ATTEMPTS, limit, limit + 1, stream, consumer);
  }

  /**
   Such a jam is reached for every limit by honest passes of that limit: as many deliveries behind one dead head, and
   a due head of another stream that no pass will take.
   */
  lemma {:induction false} JamIsReached(limit: nat, stream: string, other: string, consumer: string)
    returns (s: System, block: set<Key>, h: Key)
    requires stream != other && limit >= 1
    ensures Reached(s, limit, 50_000) && |block| == limit && Starving(s.tables, block, h)
  {
    var dead, d := DeadHeadReached(limit, stream, consumer);
    block, h := Rest(limit, consumer), Key(Name(limit + 2), consumer);
    s := PublishedReached(dead, h.event, other, consumer, limit, 50_000);
    LaterEventStarves(dead, s, d, limit + 1, stream, other, consumer, 50_000, block, h);
  }

  lemma {:induction false} PublishedReached(
    s: System, id: string, stream: string, consumer: string, limit: nat, now: int) returns (s': System)
    requires Reached(s, limit, now)
    ensures s' == PublishStep(s, id, stream, {consumer}, now) && Reached(s', limit, now)
  {
    s' := PublishStep(s, id, stream, {consumer}, now);
    ReachedNext(s, Publish(id, stream, {consumer}, now), limit, now, now);
  }
}
