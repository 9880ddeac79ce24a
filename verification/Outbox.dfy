/**
 The transactional outbox and its dispatcher: the event and delivery tables, the
 reservation with its ordering gate, the outcome commit, the operator's replay and
 skip, and the retention cleanup.  Every database transaction is one atomic step;
 handler calls happen between transactions, and any pass may crash at any point.
 */
module OutboxTables {
  import opened Base

  const MAX_ATTEMPTS: nat := 5
  const LEASE_SECONDS: nat := 120
  const RETENTION_SECONDS: nat := 30 * 24 * 60 * 60

  datatype Status = Pending | Delivered | Failed | Dead | Waived {
    /** Terminal for ordering and cleanup. */
    predicate Accepted() { Delivered? || Waived? }

    predicate Reservable() { Pending? || Failed? }
  }

  datatype Event = Event(aggregate: string, sequence: nat, occurredAt: int)

  /** Primary key of a delivery row. */
  datatype Key = Key(event: string, consumer: string)

  datatype Delivery = Delivery(status: Status, attempts: nat, nextAttempt: Option<int>)

  datatype Tables = Tables(events: map<string, Event>, rows: map<Key, Delivery>)

  /** The foreign key from deliveries to events. */
  ghost predicate Linked(t: Tables) {
    forall k :: k in t.rows ==> k.event in t.events
  }

  predicate SameStream(t: Tables, k: Key, l: Key) {
    && k.event in t.events && l.event in t.events
    && k.consumer == l.consumer && t.events[k.event].aggregate == t.events[l.event].aggregate
  }

  function Pow4(n: nat): nat { if n == 0 then 1 else 4 * Pow4(n - 1) }

  /** Delay before the next retry, after `attempts` failed attempts. */
  function BackoffSeconds(attempts: nat): nat
    requires attempts >= 1
  {
    var delay := 30 * Pow4(attempts - 1);
    if delay < 3600 then delay else 3600
  }

  ghost predicate IsHighest(events: map<string, Event>, aggregate: string, m: nat) {
    && (forall e :: e in events && events[e].aggregate == aggregate ==> events[e].sequence <= m)
    && (m == 0 || exists e :: e in events && events[e].aggregate == aggregate && events[e].sequence == m)
  }

  /** Largest sequence a stream holds now; 0 for a stream without events. */
  ghost function HighestSequence(events: map<string, Event>, aggregate: string): (m: nat)
    ensures IsHighest(events, aggregate, m)
  {
    if events == map[] then 0 else
      var e :| e in events;
      var rest := events - {e};
      var m := HighestSequence(rest, aggregate);
      assert forall f :: f in events ==> f == e || f in rest;
      if events[e].aggregate == aggregate && events[e].sequence > m then events[e].sequence else m
  }

  ghost function Published(t: Tables, id: string, aggregate: string, consumers: set<string>, now: int): Tables {
    if id in t.events then t
    else Tables(t.events[id := Event(aggregate, HighestSequence(t.events, aggregate) + 1, now)],
                t.rows + NewRows(id, consumers))
  }

  function NewRows(id: string, consumers: set<string>): map<Key, Delivery> {
    map c | c in consumers :: Key(id, c) := Delivery(Pending, 0, None)
  }

  /** `m` is the smallest sequence of the stream that is not accepted yet, or `None`. */
  ghost predicate IsMinUndelivered(t: Tables, consumer: string, aggregate: string, m: Option<nat>)
    requires Linked(t)
  {
    && (forall k :: k in t.rows && InStream(t, k, consumer, aggregate) && !t.rows[k].status.Accepted() ==>
          m.Some? && m.value <= t.events[k.event].sequence)
    && (m.Some? ==> exists k :: k in t.rows && InStream(t, k, consumer, aggregate)
                                && !t.rows[k].status.Accepted() && t.events[k.event].sequence == m.value)
  }

  predicate InStream(t: Tables, k: Key, consumer: string, aggregate: string) {
    k.consumer == consumer && k.event in t.events && t.events[k.event].aggregate == aggregate
  }

  /** The comparison the dispatcher makes decides the ordering gate. */
  lemma {:induction false} MinimumDecidesGate(t: Tables, k: Key, m: Option<nat>)
    requires Linked(t) && k in t.rows && !t.rows[k].status.Accepted()
    requires IsMinUndelivered(t, k.consumer, t.events[k.event].aggregate, m)
    ensures (m == None || m.value == t.events[k.event].sequence) <==> HeadOfStream(t, k)
  {
    assert InStream(t, k, k.consumer, t.events[k.event].aggregate);
    if m.value != t.events[k.event].sequence {
      var l :| l in t.rows && InStream(t, l, k.consumer, t.events[k.event].aggregate)
               && !t.rows[l].status.Accepted() && t.events[l.event].sequence == m.value;
      assert SameStream(t, k, l);
    } else {
      forall l | l in t.rows && SameStream(t, k, l) && !t.rows[l].status.Accepted()
        ensures t.events[k.event].sequence <= t.events[l.event].sequence
      {
        assert InStream(t, l, k.consumer, t.events[k.event].aggregate);
      }
    }
  }

  /** Leases do not move the gate. */
  lemma {:induction false} GateIgnoresLeases(t: Tables, taken: set<Key>, now: int, k: Key)
    requires Linked(t) && k in t.rows
    ensures HeadOfStream(t.(rows := WithLeases(t.rows, taken, now)), k) == HeadOfStream(t, k)
  {
    var t' := t.(rows := WithLeases(t.rows, taken, now));
    assert t'.rows.Keys == t.rows.Keys;
    assert forall l :: l in t.rows ==> SameStream(t', k, l) == SameStream(t, k, l);
  }

  lemma {:induction false} NewRowsGrow(rows: map<Key, Delivery>, id: string, done: set<string>, c: string)
    ensures (rows + NewRows(id, done))[Key(id, c) := Delivery(Pending, 0, None)] == rows + NewRows(id, done + {c})
  {
  }

  predicate Due(d: Delivery, now: int) {
    d.status.Reservable() && (d.nextAttempt.Some? ==> d.nextAttempt.value <= now)
  }

  /** The ordering gate: the row has the smallest unaccepted sequence of its stream. */
  ghost predicate HeadOfStream(t: Tables, k: Key) {
    forall l :: l in t.rows && SameStream(t, k, l) && !t.rows[l].status.Accepted()
                ==> t.events[k.event].sequence <= t.events[l.event].sequence
  }

  ghost function Takeable(t: Tables, picked: set<Key>, now: int): set<Key> {
    set k | k in picked && k in t.rows && Due(t.rows[k], now) && HeadOfStream(t, k)
  }

  function Leased(d: Delivery, now: int): Delivery {
    d.(nextAttempt := Some(now + LEASE_SECONDS))
  }

  ghost function Reserved(t: Tables, picked: set<Key>, now: int): Tables {
    t.(rows := WithLeases(t.rows, Takeable(t, picked, now), now))
  }

  function WithLeases(rows: map<Key, Delivery>, taken: set<Key>, now: int): map<Key, Delivery> {
    map k | k in rows :: if k in taken then Leased(rows[k], now) else rows[k]
  }

  lemma {:induction false} LeaseOneMore(rows: map<Key, Delivery>, taken: set<Key>, k: Key, now: int)
    requires k in rows && k !in taken
    ensures WithLeases(rows, taken, now)[k := Leased(rows[k], now)] == WithLeases(rows, taken + {k}, now)
  {
  }

  function Committed(t: Tables, k: Key, outcome: Delivery): Tables {
    if k in t.rows && t.rows[k].status.Reservable() then t.(rows := t.rows[k := outcome]) else t
  }

  predicate Replayable(k: Key, d: Delivery, id: string, consumer: Option<string>) {
    k.event == id && (consumer.Some? ==> consumer.value == k.consumer) && (d.status.Dead? || d.status.Failed?)
  }

  ghost function Replayed(t: Tables, id: string, consumer: Option<string>): Tables {
    t.(rows := map k | k in t.rows ::
         if Replayable(k, t.rows[k], id, consumer) then Delivery(Pending, 0, None) else t.rows[k])
  }

  function Skipped(t: Tables, k: Key): Tables {
    if k in t.rows && !t.rows[k].status.Accepted()
    then t.(rows := t.rows[k := t.rows[k].(status := Waived)]) else t
  }

  ghost predicate Expired(t: Tables, e: string, now: int) {
    && e in t.events
    && t.events[e].occurredAt + RETENTION_SECONDS <= now
    && forall k :: k in t.rows && k.event == e ==> t.rows[k].status.Accepted()
  }

  ghost function Cleaned(t: Tables, now: int): Tables {
    Tables(map e | e in t.events && !Expired(t, e, now) :: t.events[e],
           map k | k in t.rows && !Expired(t, k.event, now) :: t.rows[k])
  }

  /** What a handler call leads to: the row written by the outcome commit. */
  function OutcomeRow(attempts: nat, success: bool, moment: int): Delivery {
    if success then Delivery(Delivered, attempts + 1, None)
    else if attempts + 1 >= MAX_ATTEMPTS then Delivery(Dead, attempts + 1, None)
    else Delivery(Failed, attempts + 1, Some(moment + BackoffSeconds(attempts + 1)))
  }
}

/**
 Any number of dispatcher passes, publishers and operators interleaved.  The journal
 is what an outside observer would have written down; the code keeps none of it.
 */
module OutboxRuns {
  import opened Base
  import opened OutboxTables

  datatype Birth = Birth(aggregate: string, consumers: set<string>, index: nat, sequence: nat)

  datatype Journal = Journal(
    born: map<string, Birth>,
    count: nat,
    calls: seq<Key>,
    delivered: seq<Key>,
    waived: set<Key>)

  /** A delivery some pass took and has not settled yet. */
  datatype Reservation = Reservation(pass: nat, key: Key, attempts: nat, moment: int)

  datatype System = System(
    tables: Tables,
    waiting: set<Reservation>,  // reserved, the handler not called yet
    called: set<Reservation>,   // the handler returned or raised, the outcome not committed yet
    journal: Journal)

  datatype Step =
    | Publish(id: string, aggregate: string, consumers: set<string>, now: int)
    | Reserve(pass: nat, picked: set<Key>, now: int)
    | Call(r: Reservation)
    | Settle(r: Reservation, success: bool)
    | Crash(r: Reservation)
    | Replay(event: string, consumer: Option<string>)
    | Skip(key: Key)
    | Cleanup(now: int)

  const Empty: System := System(Tables(map[], map[]), {}, {}, Journal(map[], 0, [], [], {}))

  /** Event ids are digests of an attempt and are published once: a replayed decision publishes nothing. */
  ghost function PublishStep(s: System, id: string, aggregate: string, consumers: set<string>, now: int): System {
    var t, j := s.tables, s.journal;
    if id in j.born || id in t.events then s else
      var t' := Published(t, id, aggregate, consumers, now);
      s.(tables := t', journal := WithBirth(j, id, Birth(aggregate, consumers, j.count, t'.events[id].sequence)))
  }

  ghost function WithBirth(j: Journal, id: string, birth: Birth): Journal {
    j.(born := j.born[id := birth], count := j.count + 1)
  }

  ghost function ReserveStep(s: System, pass: nat, picked: set<Key>, now: int): System {
    var t := s.tables;
    s.(tables := Reserved(t, picked, now),
       waiting := s.waiting + set k | k in Takeable(t, picked, now) :: Reservation(pass, k, t.rows[k].attempts, now))
  }

  function CallStep(s: System, r: Reservation): System {
    if r !in s.waiting then s
    else s.(waiting := s.waiting - {r}, called := s.called + {r},
            journal := s.journal.(calls := s.journal.calls + [r.key]))
  }

  /** A malformed envelope fails the delivery before its handler is called. */
  function SettleStep(s: System, r: Reservation, success: bool): System {
    if r in s.called || (r in s.waiting && !success) then
      var t, j := s.tables, s.journal;
      var open := r.key in t.rows && t.rows[r.key].status.Reservable();
      s.(tables := Committed(t, r.key, OutcomeRow(r.attempts, success, r.moment)),
         waiting := s.waiting - {r}, called := s.called - {r},
         journal := if open && success then j.(delivered := j.delivered + [r.key]) else j)
    else s
  }

  function SkipStep(s: System, key: Key): System {
    var t, j := s.tables, s.journal;
    var open := key in t.rows && !t.rows[key].status.Accepted();
    s.(tables := Skipped(t, key), journal := if open then j.(waived := j.waived + {key}) else j)
  }

  /** One transaction or one handler call.  A step that is not possible changes nothing. */
  ghost function Next(s: System, step: Step): System {
    match step
    case Publish(id, aggregate, consumers, now) => PublishStep(s, id, aggregate, consumers, now)
    case Reserve(pass, picked, now) => ReserveStep(s, pass, picked, now)
    case Call(r) => CallStep(s, r)
    case Settle(r, success) => SettleStep(s, r, success)
    case Crash(r) => s.(waiting := s.waiting - {r}, called := s.called - {r})
    case Replay(event, consumer) => s.(tables := Replayed(s.tables, event, consumer))
    case Skip(key) => SkipStep(s, key)
    case Cleanup(now) => s.(tables := Cleaned(s.tables, now))
  }

  // ----- the inductive invariant

  predicate Subscribed(j: Journal, k: Key) {
    k.event in j.born && k.consumer in j.born[k.event].consumers
  }

  /** `k` was published before `l` on the same stream. */
  predicate Precedes(j: Journal, k: Key, l: Key) {
    && Subscribed(j, k) && Subscribed(j, l) && k.consumer == l.consumer
    && j.born[k.event].aggregate == j.born[l.event].aggregate
    && j.born[k.event].index < j.born[l.event].index
  }

  predicate Finished(j: Journal, k: Key) {
    k in j.delivered || k in j.waived
  }

  /** Every delivery before `k` on its stream is finished. */
  ghost predicate Unblocked(j: Journal, k: Key) {
    forall l :: Precedes(j, l, k) ==> Finished(j, l)
  }

  ghost predicate BirthsOk(j: Journal) {
    && (forall e :: e in j.born ==> j.born[e].index < j.count)
    && (forall e, f :: e in j.born && f in j.born && e != f ==> j.born[e].index != j.born[f].index)
  }

  ghost predicate TablesOk(t: Tables, j: Journal) {
    && Linked(t)
    && (forall e :: e in t.events ==> e in j.born && j.born[e].aggregate == t.events[e].aggregate
                                      && j.born[e].sequence == t.events[e].sequence)
    && (forall k :: k in t.rows ==> Subscribed(j, k))
    && (forall k :: Subscribed(j, k) && k.event in t.events ==> k in t.rows)
  }

  /** Among the events still stored, publication order is sequence order. */
  ghost predicate SequencesOk(t: Tables, j: Journal)
    requires TablesOk(t, j)
  {
    forall e, f :: e in t.events && f in t.events && t.events[e].aggregate == t.events[f].aggregate ==>
      j.born[e].index < j.born[f].index ==> t.events[e].sequence < t.events[f].sequence
  }

  ghost predicate Bounded(d: Delivery) {
    && (!d.status.Accepted() ==> d.attempts <= MAX_ATTEMPTS)
    && (d.status.Reservable() ==> d.attempts < MAX_ATTEMPTS)
  }

  ghost predicate RowsOk(t: Tables, j: Journal) {
    && (forall k :: Finished(j, k) ==> Subscribed(j, k))
    && (forall k :: k in t.rows && t.rows[k].status.Accepted() ==> Finished(j, k))
    && (forall k :: k in t.rows && Finished(j, k) ==> t.rows[k].status.Accepted())
    && (forall k :: k in t.rows ==> Bounded(t.rows[k]))
  }

  ghost predicate NothingLost(t: Tables, j: Journal) {
    forall k :: Subscribed(j, k) ==> k in t.rows || Finished(j, k)
  }

  ghost predicate StoreOk(t: Tables, j: Journal) {
    TablesOk(t, j) && SequencesOk(t, j) && RowsOk(t, j) && NothingLost(t, j)
  }

  /** What is known about a delivery some pass holds. */
  ghost predicate Held(j: Journal, r: Reservation) {
    Subscribed(j, r.key) && Unblocked(j, r.key) && r.attempts < MAX_ATTEMPTS
  }

  ghost predicate HeldOk(s: System) {
    && (forall r :: r in s.waiting ==> Held(s.journal, r))
    && (forall r :: r in s.called ==> Held(s.journal, r) && r.key in s.journal.calls)
  }

  ghost predicate DeliveredOk(j: Journal) {
    && (forall k :: k in j.delivered ==> Subscribed(j, k) && Unblocked(j, k) && k in j.calls)
    && (forall a, b :: 0 <= a < b < |j.delivered| ==> InOrder(j, j.delivered[a], j.delivered[b]))
  }

  predicate InOrder(j: Journal, first: Key, second: Key) {
    first != second && !Precedes(j, second, first)
  }

  /** No call skips a delivery before it: that one was handled earlier, or an operator waived it. */
  ghost predicate CallsOk(j: Journal) {
    && (forall i, l :: 0 <= i < |j.calls| && Precedes(j, l, j.calls[i]) ==> l in j.calls[..i] || l in j.waived)
    && (forall k :: k in j.calls ==> Subscribed(j, k))
  }

  ghost predicate Inv(s: System) {
    && BirthsOk(s.journal) && DeliveredOk(s.journal) && CallsOk(s.journal)
    && StoreOk(s.tables, s.journal)
    && HeldOk(s)
  }

  // ----- how the journal may grow

  ghost predicate Extends(j: Journal, j': Journal) {
    && (forall e :: e in j.born ==> e in j'.born && j'.born[e] == j.born[e])
    && (forall e :: e in j'.born && e !in j.born ==> j'.born[e].index >= j.count)
    && (forall k :: k in j.delivered ==> k in j'.delivered)
    && (forall k :: k in j.calls ==> k in j'.calls)
    && j.waived <= j'.waived
  }

  lemma {:induction false} PrecedesStable(j: Journal, j': Journal, k: Key, l: Key)
    requires BirthsOk(j) && Extends(j, j') && Subscribed(j, l)
    ensures Precedes(j', k, l) == Precedes(j, k, l)
  {
  }

  lemma {:induction false} HeldGrows(j: Journal, j': Journal, r: Reservation)
    requires BirthsOk(j) && Extends(j, j') && Held(j, r)
    ensures Held(j', r)
  {
    UnblockedGrows(j, j', r.key);
  }

  lemma {:induction false} UnblockedGrows(j: Journal, j': Journal, k: Key)
    requires BirthsOk(j) && Extends(j, j') && Subscribed(j, k) && Unblocked(j, k)
    ensures Unblocked(j', k)
  {
    forall l | Precedes(j', l, k)
      ensures Finished(j', l)
    {
      PrecedesStable(j, j', l, k);
      assert Finished(j, l);
    }
  }

  lemma {:induction false} HoldersKept(s: System, s': System)
    requires Inv(s) && Extends(s.journal, s'.journal)
    requires s'.waiting <= s.waiting && s'.called <= s.called
    ensures HeldOk(s')
  {
    forall r | r in s'.waiting || r in s'.called
      ensures Held(s'.journal, r)
    {
      HeldGrows(s.journal, s'.journal, r);
    }
  }

  /** Neither log gained an entry. */
  lemma {:induction false} LogsKept(j: Journal, j': Journal)
    requires BirthsOk(j) && DeliveredOk(j) && CallsOk(j) && Extends(j, j')
    requires j'.delivered == j.delivered && j'.calls == j.calls
    ensures DeliveredOk(j') && CallsOk(j')
  {
    forall k | k in j.delivered
      ensures Subscribed(j', k) && Unblocked(j', k)
    {
      UnblockedGrows(j, j', k);
    }
    forall a, b | 0 <= a < b < |j.delivered|
      ensures InOrder(j', j.delivered[a], j.delivered[b])
    {
      assert InOrder(j, j.delivered[a], j.delivered[b]);
      PrecedesStable(j, j', j.delivered[b], j.delivered[a]);
    }
    forall i, l | 0 <= i < |j.calls| && Precedes(j', l, j.calls[i])
      ensures l in j.calls[..i] || l in j'.waived
    {
      PrecedesStable(j, j', l, j.calls[i]);
    }
  }

  // ----- every step keeps the invariant

  lemma {:induction false} PublishedRows(t: Tables, id: string, aggregate: string, consumers: set<string>, now: int)
    requires id !in t.events && Linked(t)
    ensures
      var rows' := Published(t, id, aggregate, consumers, now).rows;
      && (forall k :: k in t.rows ==> k in rows' && rows'[k] == t.rows[k])
      && (forall k :: k in rows' && k !in t.rows ==>
             k.event == id && k.consumer in consumers && rows'[k] == Delivery(Pending, 0, None))
      && (forall c :: c in consumers ==> Key(id, c) in rows')
  {
  }

  lemma {:induction false} PublishKeepsJournal(s: System, s': System, id: string, birth: Birth)
    requires Inv(s) && id !in s.journal.born && birth.index == s.journal.count
    requires s'.journal == WithBirth(s.journal, id, birth) && s'.waiting == s.waiting && s'.called == s.called
    ensures BirthsOk(s'.journal) && DeliveredOk(s'.journal) && CallsOk(s'.journal) && HeldOk(s')
  {
    LogsKept(s.journal, s'.journal);
    HoldersKept(s, s');
  }

  lemma {:induction false} PublishKeepsTables(
    t: Tables, j: Journal, id: string, aggregate: string, consumers: set<string>, now: int)
    requires BirthsOk(j) && TablesOk(t, j) && SequencesOk(t, j) && id !in j.born
    ensures id !in t.events
    ensures
      var t' := Published(t, id, aggregate, consumers, now);
      var j' := WithBirth(j, id, Birth(aggregate, consumers, j.count, t'.events[id].sequence));
      TablesOk(t', j') && SequencesOk(t', j')
  {
    var t' := Published(t, id, aggregate, consumers, now);
    PublishedRows(t, id, aggregate, consumers, now);
    NewRowsLinked(t, j, t', id, Birth(aggregate, consumers, j.count, t'.events[id].sequence));
    assert IsHighest(t.events, aggregate, HighestSequence(t.events, aggregate));
  }

  lemma {:induction false} NewRowsLinked(t: Tables, j: Journal, t': Tables, id: string, birth: Birth)
    requires BirthsOk(j) && TablesOk(t, j) && id !in j.born
    requires exists now: int :: t'.events == t.events[id := Event(birth.aggregate, birth.sequence, now)]
    requires forall k :: k in t.rows ==> k in t'.rows
    requires forall k :: k in t'.rows && k !in t.rows ==> k.event == id && k.consumer in birth.consumers
    requires forall c :: c in birth.consumers ==> Key(id, c) in t'.rows
    ensures TablesOk(t', WithBirth(j, id, birth))
  {
    var j' := WithBirth(j, id, birth);
    forall k | Subscribed(j', k) && k.event in t'.events
      ensures k in t'.rows
    {
      assert k == Key(k.event, k.consumer);
      assert k.event != id ==> Subscribed(j, k);
    }
  }

  lemma {:induction false} PublishKeepsRows(t: Tables, j: Journal, t': Tables, id: string, birth: Birth)
    requires TablesOk(t, j) && RowsOk(t, j) && NothingLost(t, j) && id !in j.born
    requires forall k :: k in t.rows ==> k in t'.rows && t'.rows[k] == t.rows[k]
    requires forall k :: k in t'.rows && k !in t.rows ==> k.event == id && t'.rows[k] == Delivery(Pending, 0, None)
    requires forall c :: c in birth.consumers ==> Key(id, c) in t'.rows
    ensures RowsOk(t', WithBirth(j, id, birth)) && NothingLost(t', WithBirth(j, id, birth))
  {
    var j' := WithBirth(j, id, birth);
    assert forall k :: Finished(j', k) == Finished(j, k);
    forall k | Subscribed(j', k)
      ensures k in t'.rows || Finished(j', k)
    {
      assert k == Key(k.event, k.consumer);
      assert k.event != id ==> Subscribed(j, k);
    }
  }

  lemma {:induction false} PublishKeeps(s: System, id: string, aggregate: string, consumers: set<string>, now: int)
    requires Inv(s)
    ensures Inv(PublishStep(s, id, aggregate, consumers, now))
  {
    var s' := PublishStep(s, id, aggregate, consumers, now);
    if id !in s.journal.born {
      PublishKeepsTables(s.tables, s.journal, id, aggregate, consumers, now);
      PublishedRows(s.tables, id, aggregate, consumers, now);
      PublishKeepsRows(s.tables, s.journal, s'.tables, id, s'.journal.born[id]);
      PublishKeepsJournal(s, s', id, s'.journal.born[id]);
    }
  }

  /** No row entered or left the accepted statuses. */
  lemma {:induction false} RowsRewritten(t: Tables, t': Tables, j: Journal)
    requires StoreOk(t, j) && t'.events == t.events && t'.rows.Keys == t.rows.Keys
    requires forall k :: k in t.rows ==>
               t'.rows[k].status.Accepted() == t.rows[k].status.Accepted() && Bounded(t'.rows[k])
    ensures StoreOk(t', j)
  {
  }

  lemma {:induction false} TakenIsUnblocked(t: Tables, j: Journal, k: Key)
    requires StoreOk(t, j) && k in t.rows && HeadOfStream(t, k)
    ensures Unblocked(j, k)
  {
    forall l | Precedes(j, l, k)
      ensures Finished(j, l)
    {
      if l in t.rows && !t.rows[l].status.Accepted() {
        assert SameStream(t, k, l);
      }
    }
  }

  lemma {:induction false} ReserveKeeps(s: System, pass: nat, picked: set<Key>, now: int)
    requires Inv(s)
    ensures Inv(ReserveStep(s, pass, picked, now))
  {
    RowsRewritten(s.tables, Reserved(s.tables, picked, now), s.journal);
    forall k | k in Takeable(s.tables, picked, now)
      ensures Held(s.journal, Reservation(pass, k, s.tables.rows[k].attempts, now))
    {
      TakenIsUnblocked(s.tables, s.journal, k);
    }
  }

  lemma {:induction false} CallKeepsStore(t: Tables, j: Journal, calls: seq<Key>)
    requires StoreOk(t, j)
    ensures StoreOk(t, j.(calls := calls))
  {
    var j' := j.(calls := calls);
    assert forall k :: Subscribed(j', k) == Subscribed(j, k);
    assert forall k :: Finished(j', k) == Finished(j, k);
  }

  lemma {:induction false} CallKeeps(s: System, r: Reservation)
    requires Inv(s)
    ensures Inv(CallStep(s, r))
  {
    if r in s.waiting {
      var j, j' := s.journal, CallStep(s, r).journal;
      assert Held(j, r);
      CallKeepsStore(s.tables, j, j'.calls);
      CallLogged(j, j', r.key);
      forall o | Held(j, o)
        ensures Held(j', o)
      {
        HeldGrows(j, j', o);
      }
    }
  }

  lemma {:induction false} CallLogged(j: Journal, j': Journal, k: Key)
    requires BirthsOk(j) && DeliveredOk(j) && CallsOk(j) && Subscribed(j, k) && Unblocked(j, k)
    requires j' == j.(calls := j.calls + [k])
    ensures DeliveredOk(j') && CallsOk(j')
  {
    assert Extends(j, j');
    forall d | d in j.delivered
      ensures Unblocked(j', d) && d in j'.calls
    {
      UnblockedGrows(j, j', d);
    }
    forall a, b | 0 <= a < b < |j.delivered|
      ensures InOrder(j', j.delivered[a], j.delivered[b])
    {
      assert InOrder(j, j.delivered[a], j.delivered[b]);
    }
    forall i, l | 0 <= i < |j'.calls| && Precedes(j', l, j'.calls[i])
      ensures l in j'.calls[..i] || l in j'.waived
    {
      assert Precedes(j, l, j'.calls[i]);
      if i < |j.calls| {
        assert j'.calls[..i] == j.calls[..i];
      } else {
        assert j'.calls[..i] == j.calls;
        assert Finished(j, l);
      }
    }
  }

  lemma {:induction false} DeliveryLogged(j: Journal, j': Journal, k: Key)
    requires BirthsOk(j) && DeliveredOk(j) && CallsOk(j) && Subscribed(j, k) && Unblocked(j, k) && k in j.calls
    requires !Finished(j, k)
    requires j' == j.(delivered := j.delivered + [k])
    ensures DeliveredOk(j') && CallsOk(j') && Extends(j, j')
  {
    assert Extends(j, j');
    forall d | d in j'.delivered
      ensures Unblocked(j', d) && Subscribed(j', d) && d in j'.calls
    {
      assert d in j.delivered || d == k;
      UnblockedGrows(j, j', d);
    }
    forall a, b | 0 <= a < b < |j'.delivered|
      ensures InOrder(j', j'.delivered[a], j'.delivered[b])
    {
      if b < |j.delivered| {
        assert InOrder(j, j.delivered[a], j.delivered[b]);
      } else {
        var d := j.delivered[a];
        assert d in j.delivered && Unblocked(j, d);
        assert !Precedes(j, k, d);
      }
    }
    forall i, l | 0 <= i < |j'.calls| && Precedes(j', l, j'.calls[i])
      ensures l in j'.calls[..i] || l in j'.waived
    {
      assert Precedes(j, l, j.calls[i]);
    }
  }

  /** One row changed, and the journal knows whether it became accepted. */
  lemma {:induction false} RowWrittenKeepsStore(t: Tables, j: Journal, k: Key, d: Delivery, j': Journal)
    requires StoreOk(t, j) && k in t.rows && j'.born == j.born
    requires Bounded(d) && (!d.status.Accepted() ==> !Finished(j, k))
    requires forall l :: Finished(j', l) <==> Finished(j, l) || (d.status.Accepted() && l == k)
    ensures StoreOk(t.(rows := t.rows[k := d]), j')
  {
    assert forall l :: Subscribed(j', l) == Subscribed(j, l);
  }

  lemma {:induction false} SettleKeepsStore(t: Tables, j: Journal, r: Reservation, success: bool, j': Journal)
    requires StoreOk(t, j) && r.attempts < MAX_ATTEMPTS && r.key in t.rows && t.rows[r.key].status.Reservable()
    requires j' == if success then j.(delivered := j.delivered + [r.key]) else j
    ensures StoreOk(Committed(t, r.key, OutcomeRow(r.attempts, success, r.moment)), j')
  {
    RowWrittenKeepsStore(t, j, r.key, OutcomeRow(r.attempts, success, r.moment), j');
  }

  lemma {:induction false} SettleKeepsRest(s: System, s': System, r: Reservation, success: bool)
    requires Inv(s) && Held(s.journal, r) && (success ==> r in s.called) && !Finished(s.journal, r.key)
    requires s'.journal == if success then s.journal.(delivered := s.journal.delivered + [r.key]) else s.journal
    requires s'.waiting <= s.waiting && s'.called <= s.called
    ensures BirthsOk(s'.journal) && DeliveredOk(s'.journal) && CallsOk(s'.journal) && HeldOk(s')
  {
    if success {
      DeliveryLogged(s.journal, s'.journal, r.key);
    }
    HoldersKept(s, s');
  }

  lemma {:induction false} OpenIsNotFinished(t: Tables, j: Journal, k: Key)
    requires RowsOk(t, j) && k in t.rows && t.rows[k].status.Reservable()
    ensures !Finished(j, k)
  {
  }

  /** The row was still open: the outcome is written. */
  lemma {:induction false} SettledKeeps(s: System, s': System, r: Reservation, success: bool)
    requires Inv(s) && Held(s.journal, r) && (success ==> r in s.called)
    requires r.key in s.tables.rows && s.tables.rows[r.key].status.Reservable()
    requires s'.tables == Committed(s.tables, r.key, OutcomeRow(r.attempts, success, r.moment))
    requires s'.journal == if success then s.journal.(delivered := s.journal.delivered + [r.key]) else s.journal
    requires s'.waiting <= s.waiting && s'.called <= s.called
    ensures Inv(s')
  {
    OpenIsNotFinished(s.tables, s.journal, r.key);
    SettledStore(s, s', r, success);
    SettleKeepsRest(s, s', r, success);
  }

  lemma {:induction false} SettledStore(s: System, s': System, r: Reservation, success: bool)
    requires StoreOk(s.tables, s.journal) && r.attempts < MAX_ATTEMPTS
    requires r.key in s.tables.rows && s.tables.rows[r.key].status.Reservable()
    requires s'.tables == Committed(s.tables, r.key, OutcomeRow(r.attempts, success, r.moment))
    requires s'.journal == if success then s.journal.(delivered := s.journal.delivered + [r.key]) else s.journal
    ensures StoreOk(s'.tables, s'.journal)
  {
    SettleKeepsStore(s.tables, s.journal, r, success, s'.journal);
  }

  /** Reservations are dropped and nothing else moves. */
  lemma {:induction false} DroppedKeeps(s: System, s': System)
    requires Inv(s) && s'.tables == s.tables && s'.journal == s.journal
    requires s'.waiting <= s.waiting && s'.called <= s.called
    ensures Inv(s')
  {
    HoldersKept(s, s');
  }

  lemma {:induction false} SettleKeeps(s: System, r: Reservation, success: bool)
    requires Inv(s)
    ensures Inv(SettleStep(s, r, success))
  {
    var s' := SettleStep(s, r, success);
    if r in s.called || (r in s.waiting && !success) {
      assert Held(s.journal, r);
      if r.key in s.tables.rows && s.tables.rows[r.key].status.Reservable() {
        SettledKeeps(s, s', r, success);
      } else {
        DroppedKeeps(s, s');
      }
    }
  }

  lemma {:induction false} SkipKeeps(s: System, key: Key)
    requires Inv(s)
    ensures Inv(SkipStep(s, key))
  {
    var s' := SkipStep(s, key);
    if key in s.tables.rows && !s.tables.rows[key].status.Accepted() {
      RowWrittenKeepsStore(s.tables, s.journal, key, s.tables.rows[key].(status := Waived), s'.journal);
      LogsKept(s.journal, s'.journal);
      HoldersKept(s, s');
    }
  }

  lemma {:induction false} CleanupKeepsStore(t: Tables, j: Journal, now: int)
    requires StoreOk(t, j)
    ensures StoreOk(Cleaned(t, now), j)
  {
    assert forall k :: k in t.rows && k !in Cleaned(t, now).rows ==> t.rows[k].status.Accepted();
  }

  lemma {:induction false} TablesRewrittenKeeps(s: System, t: Tables)
    requires Inv(s) && StoreOk(t, s.journal)
    ensures Inv(s.(tables := t))
  {
  }

  /** A replay and a cleanup rewrite the tables and nothing else. */
  lemma {:induction false} ReplayKeeps(s: System, event: string, consumer: Option<string>)
    requires Inv(s)
    ensures Inv(s.(tables := Replayed(s.tables, event, consumer)))
  {
    RowsRewritten(s.tables, Replayed(s.tables, event, consumer), s.journal);
    TablesRewrittenKeeps(s, Replayed(s.tables, event, consumer));
  }

  lemma {:induction false} CleanupKeeps(s: System, now: int)
    requires Inv(s)
    ensures Inv(s.(tables := Cleaned(s.tables, now)))
  {
    CleanupKeepsStore(s.tables, s.journal, now);
    TablesRewrittenKeeps(s, Cleaned(s.tables, now));
  }

  lemma {:induction false} NextKeeps(s: System, step: Step)
    requires Inv(s)
    ensures Inv(Next(s, step))
  {
    if step.Publish? {
      PublishKeeps(s, step.id, step.aggregate, step.consumers, step.now);
      assert Next(s, step) == PublishStep(s, step.id, step.aggregate, step.consumers, step.now);
    } else if step.Reserve? {
      ReserveKeeps(s, step.pass, step.picked, step.now);
      assert Next(s, step) == ReserveStep(s, step.pass, step.picked, step.now);
    } else if step.Call? {
      CallKeeps(s, step.r);
      assert Next(s, step) == CallStep(s, step.r);
    } else if step.Settle? {
      SettleKeeps(s, step.r, step.success);
      assert Next(s, step) == SettleStep(s, step.r, step.success);
    } else if step.Crash? {
      DroppedKeeps(s, Next(s, step));
    } else if step.Replay? {
      ReplayKeeps(s, step.event, step.consumer);
      assert Next(s, step) == s.(tables := Replayed(s.tables, step.event, step.consumer));
    } else if step.Skip? {
      SkipKeeps(s, step.key);
      assert Next(s, step) == SkipStep(s, step.key);
    } else {
      CleanupKeeps(s, step.now);
      assert Next(s, step) == s.(tables := Cleaned(s.tables, step.now));
    }
  }

  /** The system after any interleaving of steps, from empty tables. */
  ghost function Run(steps: seq<Step>): System {
    if steps == [] then Empty else Next(Run(steps[..|steps| - 1]), steps[|steps| - 1])
  }

  lemma {:induction false} RunKeeps(steps: seq<Step>)
    ensures Inv(Run(steps))
  {
    if steps != [] {
      RunKeeps(steps[..|steps| - 1]);
      NextKeeps(Run(steps[..|steps| - 1]), steps[|steps| - 1]);
    }
  }

  // ----- what every run guarantees

  predicate OneStream(j: Journal, k: Key, l: Key) {
    && Subscribed(j, k) && Subscribed(j, l) && k.consumer == l.consumer
    && j.born[k.event].aggregate == j.born[l.event].aggregate
  }

  /** A consumer's deliveries of one stream are recorded once each and in publication order. */
  lemma {:induction false} DeliveredInPublicationOrder(steps: seq<Step>, a: nat, b: nat)
    requires a < b < |Run(steps).journal.delivered|
    ensures
      var j := Run(steps).journal;
      var first, second := j.delivered[a], j.delivered[b];
      first != second && (OneStream(j, first, second) ==> Precedes(j, first, second))
  {
    RunKeeps(steps);
    var j := Run(steps).journal;
    assert InOrder(j, j.delivered[a], j.delivered[b]);
    assert j.delivered[a] == Key(j.delivered[a].event, j.delivered[a].consumer);
  }

  /** A handler is never called past a gap: what precedes was handled before, or an operator waived it. */
  lemma {:induction false} NoCallSkipsAPredecessor(steps: seq<Step>, i: nat, l: Key)
    requires i < |Run(steps).journal.calls|
    requires Precedes(Run(steps).journal, l, Run(steps).journal.calls[i])
    ensures l in Run(steps).journal.calls[..i] || l in Run(steps).journal.waived
  {
    RunKeeps(steps);
  }

  /** Nothing is lost: a published delivery is still stored and open, or was handled and recorded, or waived. */
  lemma {:induction false} EveryDeliveryAccountedFor(steps: seq<Step>, k: Key)
    requires Subscribed(Run(steps).journal, k)
    ensures
      var s := Run(steps);
      || (k in s.tables.rows && !s.tables.rows[k].status.Accepted())
      || (k in s.journal.delivered && k in s.journal.calls)
      || k in s.journal.waived
  {
    RunKeeps(steps);
    var s := Run(steps);
    assert k in s.tables.rows || Finished(s.journal, k);
  }

  /** Open rows never exceed the attempt budget, and a row that can still be retried is under it. */
  lemma {:induction false} AttemptBudget(steps: seq<Step>, k: Key)
    requires k in Run(steps).tables.rows
    ensures
      var d := Run(steps).tables.rows[k];
      (!d.status.Accepted() ==> d.attempts <= MAX_ATTEMPTS) && (d.status.Reservable() ==> d.attempts < MAX_ATTEMPTS)
  {
    RunKeeps(steps);
    assert Bounded(Run(steps).tables.rows[k]);
  }

  lemma {:induction false} HeadIsUnique(t: Tables, j: Journal, k: Key, l: Key)
    requires BirthsOk(j) && TablesOk(t, j) && SequencesOk(t, j) && k in t.rows && l in t.rows && SameStream(t, k, l)
    requires !t.rows[k].status.Accepted() && !t.rows[l].status.Accepted() && HeadOfStream(t, k) && HeadOfStream(t, l)
    ensures k == l
  {
    assert SameStream(t, l, k);
    assert t.events[k.event].sequence == t.events[l.event].sequence;
    assert k == Key(k.event, k.consumer) && l == Key(l.event, l.consumer);
  }

  /** One pass takes at most one delivery of a stream. */
  lemma {:induction false} OnePerStreamAndPass(steps: seq<Step>, picked: set<Key>, now: int, k: Key, l: Key)
    requires k in Takeable(Run(steps).tables, picked, now) && l in Takeable(Run(steps).tables, picked, now)
    requires SameStream(Run(steps).tables, k, l)
    ensures k == l
  {
    RunKeeps(steps);
    HeadIsUnique(Run(steps).tables, Run(steps).journal, k, l);
  }

  lemma {:induction false} RunSnoc(steps: seq<Step>, step: Step)
    ensures Run(steps + [step]) == Next(Run(steps), step)
  {
    assert (steps + [step])[..|steps|] == steps;
  }
}
