/** The candidates of a dispatcher pass: due rows nobody holds locked, in the order of the query, cut at a limit. */
module OutboxOrder {
  import opened OutboxTables

  // ----- the order of the query

  predicate Less(a: string, b: string) {
    b != "" && (a == "" || a[0] < b[0] || (a[0] == b[0] && Less(a[1..], b[1..])))
  }

  lemma {:induction false} LessOrders(a: string, b: string, c: string)
    ensures !Less(a, a)
    ensures Less(a, b) && Less(b, c) ==> Less(a, c)
    ensures Less(a, b) || Less(b, a) || a == b
  {
    if a != "" {
      LessOrders(a[1..], if b == "" then "" else b[1..], if c == "" then "" else c[1..]);
      if b != "" {
        assert a == [a[0]] + a[1..] && b == [b[0]] + b[1..];
      }
    }
  }

  /** What the query sorts a delivery by. */
  datatype Place = Place(occurredAt: int, sequence: nat, event: string, consumer: string)

  function PlaceOf(t: Tables, k: Key): Place
    requires k.event in t.events
  {
    Place(t.events[k.event].occurredAt, t.events[k.event].sequence, k.event, k.consumer)
  }

  predicate Before(p: Place, q: Place) {
    || p.occurredAt < q.occurredAt
    || (p.occurredAt == q.occurredAt
        && (p.sequence < q.sequence
            || (p.sequence == q.sequence
                && (Less(p.event, q.event) || (p.event == q.event && Less(p.consumer, q.consumer))))))
  }

  lemma {:induction false} BeforeOrders(p: Place, q: Place, r: Place)
    ensures !Before(p, p)
    ensures Before(p, q) && Before(q, r) ==> Before(p, r)
    ensures Before(p, q) || Before(q, p) || p == q
  {
    LessOrders(p.event, q.event, r.event);
    LessOrders(p.consumer, q.consumer, r.consumer);
  }

  // ----- the candidates

  /** Due rows that the pass can lock. */
  function Eligible(t: Tables, locked: set<Key>, now: int): set<Key> {
    set k | k in t.rows && k !in locked && Due(t.rows[k], now)
  }

  /** The eligible rows that sort before `k`. */
  ghost function Ahead(t: Tables, locked: set<Key>, now: int, k: Key): set<Key>
    requires Linked(t) && k.event in t.events
  {
    set l | l in Eligible(t, locked, now) && Before(PlaceOf(t, l), PlaceOf(t, k))
  }

  /** The first `limit` eligible rows, in order. */
  ghost predicate IsBatch(t: Tables, locked: set<Key>, now: int, limit: nat, batch: seq<Key>)
    requires Linked(t)
  {
    && |batch| <= limit
    && (forall a :: 0 <= a < |batch| ==> batch[a] in Eligible(t, locked, now))
    && (forall a, b :: 0 <= a < b < |batch| ==> Before(PlaceOf(t, batch[a]), PlaceOf(t, batch[b])))
    && (forall k :: k in Eligible(t, locked, now) && k !in batch ==>
          |batch| == limit && forall a :: 0 <= a < |batch| ==> Before(PlaceOf(t, batch[a]), PlaceOf(t, k)))
  }

  ghost function Members(batch: seq<Key>): set<Key> { set k | k in batch }

  lemma {:induction false} DistinctMembers(batch: seq<Key>)
    requires forall a, b :: 0 <= a < b < |batch| ==> batch[a] != batch[b]
    ensures |Members(batch)| == |batch|
  {
    if batch != [] {
      var init, last := batch[..|batch| - 1], batch[|batch| - 1];
      DistinctMembers(init);
      assert Members(batch) == Members(init) + {last};
      assert last !in init;
    }
  }

  lemma {:induction false} SubsetSize(a: set<Key>, b: set<Key>)
    requires a <= b
    ensures |a| <= |b|
  {
    assert b == a + (b - a) && |b| == |a| + |b - a|;
  }

  lemma {:induction false} BatchDistinct(t: Tables, locked: set<Key>, now: int, limit: nat, batch: seq<Key>, n: nat)
    requires Linked(t) && IsBatch(t, locked, now, limit, batch) && n <= |batch|
    ensures |Members(batch[..n])| == n
  {
    forall a, b | 0 <= a < b < n ensures batch[..n][a] != batch[..n][b] {
      BeforeOrders(PlaceOf(t, batch[a]), PlaceOf(t, batch[b]), PlaceOf(t, batch[b]));
    }
    DistinctMembers(batch[..n]);
  }

  /** An eligible row is in the batch exactly if fewer than `limit` eligible rows sort before it. */
  lemma {:induction false} InBatchExactly(t: Tables, locked: set<Key>, now: int, limit: nat, batch: seq<Key>, k: Key)
    requires Linked(t) && IsBatch(t, locked, now, limit, batch) && k in Eligible(t, locked, now)
    ensures k in batch <==> |Ahead(t, locked, now, k)| < limit
  {
    var ahead := Ahead(t, locked, now, k);
    if k in batch {
      var i :| 0 <= i < |batch| && batch[i] == k;
      forall l | l in ahead ensures l in Members(batch[..i]) {
        AheadIsEarlier(t, locked, now, limit, batch, i, l);
      }
      BatchDistinct(t, locked, now, limit, batch, i);
      SubsetSize(ahead, Members(batch[..i]));
    } else {
      BatchDistinct(t, locked, now, limit, batch, |batch|);
      assert batch[..|batch|] == batch;
      SubsetSize(Members(batch), ahead);
    }
  }

  /** At position `p` the first difference: `a` ends there, or has the smaller character. */
  predicate DiffersAt(a: string, b: string, p: nat) {
    p <= |a| && p < |b| && a[..p] == b[..p] && (p == |a| || a[p] < b[p])
  }

  lemma {:induction false} LessExactly(a: string, b: string)
    ensures Less(a, b) <==> exists p: nat :: DiffersAt(a, b, p)
  {
    if a != "" && b != "" && a[0] == b[0] {
      LessExactly(a[1..], b[1..]);
      if p: nat :| DiffersAt(a[1..], b[1..], p) {
        assert a[..p + 1] == [a[0]] + a[1..][..p] && b[..p + 1] == [b[0]] + b[1..][..p];
        assert DiffersAt(a, b, p + 1);
      }
      if p: nat :| DiffersAt(a, b, p) {
        assert p > 0;
        assert a[1..][..p - 1] == a[..p][1..] && b[1..][..p - 1] == b[..p][1..];
        assert DiffersAt(a[1..], b[1..], p - 1);
      }
    } else if Less(a, b) {
      assert DiffersAt(a, b, 0);
    }
  }

  /** Older first; then by sequence, event id and consumer. */
  ghost predicate Earlier(t: Tables, k: Key, l: Key)
    requires k.event in t.events && l.event in t.events
  {
    var e, f := t.events[k.event], t.events[l.event];
    || e.occurredAt < f.occurredAt
    || (e.occurredAt == f.occurredAt && e.sequence < f.sequence)
    || (e.occurredAt == f.occurredAt && e.sequence == f.sequence
        && ((exists p: nat :: DiffersAt(k.event, l.event, p))
            || (k.event == l.event && exists p: nat :: DiffersAt(k.consumer, l.consumer, p))))
  }

  lemma {:induction false} EarlierExactly(t: Tables, k: Key, l: Key)
    requires k.event in t.events && l.event in t.events
    ensures Before(PlaceOf(t, k), PlaceOf(t, l)) <==> Earlier(t, k, l)
  {
    LessExactly(k.event, l.event);
    LessExactly(k.consumer, l.consumer);
  }

  /** The batch is in that order, and a due unlocked row that is earlier than a member stands before it in the batch. */
  lemma {:induction false} OldestFirst(
    t: Tables, locked: set<Key>, now: int, limit: nat, batch: seq<Key>, k: Key, b: nat)
    requires Linked(t) && IsBatch(t, locked, now, limit, batch) && b < |batch|
    requires k in t.rows && k !in locked && (t.rows[k].status.Pending? || t.rows[k].status.Failed?)
    requires t.rows[k].nextAttempt.None? || t.rows[k].nextAttempt.value <= now
    ensures Earlier(t, k, batch[b]) <==> k in batch[..b]
  {
    var p, q := PlaceOf(t, k), PlaceOf(t, batch[b]);
    EarlierExactly(t, k, batch[b]);
    if Before(p, q) {
      AheadIsEarlier(t, locked, now, limit, batch, b, k);
    }
  }

  /** Some row of a set sorts before all others. */
  lemma {:induction false} FirstExists(t: Tables, pool: set<Key>) returns (k: Key)
    requires pool != {} && forall l :: l in pool ==> l.event in t.events
    ensures k in pool && forall l :: l in pool && l != k ==> Before(PlaceOf(t, k), PlaceOf(t, l))
    decreases pool
  {
    var one :| one in pool;
    k := one;
    assert forall l :: l in pool && l != one ==> l in pool - {one};
    if pool - {one} != {} {
      var m := FirstExists(t, pool - {one});
      var p, q := PlaceOf(t, one), PlaceOf(t, m);
      BeforeOrders(p, q, p);
      assert p != q && m in pool;
      if Before(p, q) {
        forall l | l in pool && l != one ensures Before(p, PlaceOf(t, l)) {
          assert l in pool - {one};
          BeforeOrders(p, q, PlaceOf(t, l));
        }
      } else {
        k := m;
        forall l | l in pool && l != m ensures Before(q, PlaceOf(t, l)) {
          assert l != one ==> l in pool - {one};
        }
      }
    }
  }

  /** Every query has its batch. */
  lemma {:induction false} BatchExists(t: Tables, locked: set<Key>, now: int, limit: nat) returns (batch: seq<Key>)
    requires Linked(t)
    ensures IsBatch(t, locked, now, limit, batch)
  {
    batch := [];
    if limit > 0 {
      var shorter := BatchExists(t, locked, now, limit - 1);
      var rest := set k | k in Eligible(t, locked, now) && k !in shorter;
      if rest == {} {
        batch := shorter;
        assert forall k :: k in Eligible(t, locked, now) ==> k in shorter || k in rest;
      } else {
        var k := FirstExists(t, rest);
        batch := shorter + [k];
        assert |shorter| == limit - 1;
        forall l | l in Eligible(t, locked, now) && l !in batch ensures l in rest && l != k {
        }
      }
    }
  }

  lemma {:induction false} AheadIsEarlier(
    t: Tables, locked: set<Key>, now: int, limit: nat, batch: seq<Key>, i: nat, l: Key)
    requires Linked(t) && IsBatch(t, locked, now, limit, batch) && i < |batch|
    requires l in Ahead(t, locked, now, batch[i])
    ensures l in batch[..i]
  {
    var p, q := PlaceOf(t, l), PlaceOf(t, batch[i]);
    BeforeOrders(p, q, p);
    BeforeOrders(q, p, q);
    assert l in batch;
    var j :| 0 <= j < |batch| && batch[j] == l;
    assert j < i;
    assert batch[..i][j] == l;
  }
}

/** What the limit of a pass means for the streams, over every run. */
module OutboxBatches {
  import opened OutboxTables
  import opened OutboxOrder
  import opened OutboxRuns

  /**
   A pass takes something of a stream exactly if the head of the stream is due, not locked, and fewer than `limit`
   eligible rows of any stream sort before it.
   */
  lemma {:induction false} HeadTakenExactly(
    steps: seq<Step>, head: Key, locked: set<Key>, now: int, limit: nat, batch: seq<Key>)
    requires
      var t := Run(steps).tables;
      && Linked(t) && IsBatch(t, locked, now, limit, batch)
      && head in t.rows && !t.rows[head].status.Accepted() && HeadOfStream(t, head)
    ensures
      var t := Run(steps).tables;
      (exists k :: k in Takeable(t, Members(batch), now) && SameStream(t, head, k))
      <==> Due(t.rows[head], now) && head !in locked && |Ahead(t, locked, now, head)| < limit
  {
    RunKeeps(steps);
    var t := Run(steps).tables;
    if head in Eligible(t, locked, now) {
      InBatchExactly(t, locked, now, limit, batch, head);
      if head in batch {
        assert head in Takeable(t, Members(batch), now) && SameStream(t, head, head);
      }
    }
    if k :| k in Takeable(t, Members(batch), now) && SameStream(t, head, k) {
      HeadIsUnique(t, Run(steps).journal, head, k);
    }
  }

  // ----- starvation

  /** A dead row of the same stream stands before `k`. */
  ghost predicate BehindDead(t: Tables, l: Key, k: Key) {
    && k in t.rows && l in t.rows && SameStream(t, k, l) && t.rows[l].status.Dead?
    && t.events[l.event].sequence < t.events[k.event].sequence
  }

  /** Rows that stay due but cannot be taken: each stands behind a dead one. */
  ghost predicate Jam(t: Tables, block: set<Key>, since: int) {
    forall k :: k in block ==>
      && k in t.rows && k.event in t.events
      && t.rows[k].status.Reservable() && (t.rows[k].nextAttempt.Some? ==> t.rows[k].nextAttempt.value <= since)
      && exists l :: BehindDead(t, l, k)
  }

  /** A jam of `limit` rows keeps every row that sorts after it out of the batch, and is itself only deferred. */
  lemma {:induction false} JamStarves(
    t: Tables, block: set<Key>, since: int, locked: set<Key>, now: int, limit: nat, batch: seq<Key>, h: Key)
    requires Linked(t) && Jam(t, block, since) && |block| >= limit && since <= now && block !! locked
    requires IsBatch(t, locked, now, limit, batch)
    requires h in t.rows && forall k :: k in block ==> Before(PlaceOf(t, k), PlaceOf(t, h))
    ensures h !in batch && block !! Takeable(t, Members(batch), now)
  {
    forall k | k in block ensures k in Ahead(t, locked, now, h) && !HeadOfStream(t, k) {
      var l :| BehindDead(t, l, k);
    }
    SubsetSize(block, Ahead(t, locked, now, h));
    if h in batch {
      InBatchExactly(t, locked, now, limit, batch, h);
    }
  }

  /** A row behind a dead one is not held by any pass. */
  lemma {:induction false} JammedNotHeld(s: System, l: Key, k: Key)
    requires Inv(s) && BehindDead(s.tables, l, k)
    ensures forall r :: r in s.waiting || r in s.called ==> r.key != k
  {
    var j := s.journal;
    assert !Finished(j, l);
    assert Precedes(j, l, k) by {
      assert l.event != k.event;
      assert j.born[l.event].index != j.born[k.event].index;
    }
    forall r | r in s.waiting || r in s.called ensures r.key != k {
      assert Held(j, r);
    }
  }

  lemma {:induction false} RowsKeptKeepJam(t: Tables, t': Tables, block: set<Key>, since: int)
    requires Jam(t, block, since)
    requires forall k :: k in t.rows && !t.rows[k].status.Accepted() ==> k.event in t'.events && k in t'.rows
    requires forall e :: e in t.events && e in t'.events ==> t'.events[e] == t.events[e]
    requires forall k :: k in t.rows && k in t'.rows && (k in block || t.rows[k].status.Dead?) ==>
               t'.rows[k] == t.rows[k]
    ensures Jam(t', block, since)
  {
    forall k | k in block ensures exists l :: BehindDead(t', l, k) {
      var l :| BehindDead(t, l, k);
      assert BehindDead(t', l, k);
    }
  }

  lemma {:induction false} PublishKeepsJam(
    s: System, id: string, aggregate: string, consumers: set<string>, now: int, block: set<Key>, since: int)
    requires Inv(s) && Jam(s.tables, block, since)
    ensures Jam(PublishStep(s, id, aggregate, consumers, now).tables, block, since)
  {
    RowsKeptKeepJam(s.tables, PublishStep(s, id, aggregate, consumers, now).tables, block, since);
  }

  lemma {:induction false} ReserveKeepsJam(t: Tables, picked: set<Key>, now: int, block: set<Key>, since: int)
    requires Linked(t) && Jam(t, block, since)
    ensures Jam(Reserved(t, picked, now), block, since)
  {
    forall k | k in block ensures k !in Takeable(t, picked, now) {
      var l :| BehindDead(t, l, k);
    }
    RowsKeptKeepJam(t, Reserved(t, picked, now), block, since);
  }

  lemma {:induction false} CommitKeepsJam(t: Tables, k: Key, outcome: Delivery, block: set<Key>, since: int)
    requires Linked(t) && Jam(t, block, since) && k !in block
    ensures Jam(Committed(t, k, outcome), block, since)
  {
    RowsKeptKeepJam(t, Committed(t, k, outcome), block, since);
  }

  lemma {:induction false} SettleKeepsJam(s: System, r: Reservation, success: bool, block: set<Key>, since: int)
    requires Inv(s) && Jam(s.tables, block, since)
    ensures Jam(SettleStep(s, r, success).tables, block, since)
  {
    if r in s.waiting || r in s.called {
      forall k | k in block ensures r.key != k {
        var l :| BehindDead(s.tables, l, k);
        JammedNotHeld(s, l, k);
      }
      CommitKeepsJam(s.tables, r.key, OutcomeRow(r.attempts, success, r.moment), block, since);
    }
  }

  lemma {:induction false} CleanupKeepsJam(t: Tables, now: int, block: set<Key>, since: int)
    requires Linked(t) && Jam(t, block, since)
    ensures Jam(Cleaned(t, now), block, since)
  {
    RowsKeptKeepJam(t, Cleaned(t, now), block, since);
  }

  /** The handler call and the crash of a pass touch no table. */
  lemma {:induction false} CallsKeepTables(s: System, step: Step)
    requires step.Call? || step.Crash?
    ensures Next(s, step).tables == s.tables
  {
  }

  /** Only an operator ends a jam. */
  lemma {:induction false} JamKept(s: System, step: Step, block: set<Key>, since: int)
    requires Inv(s) && Jam(s.tables, block, since) && !step.Replay? && !step.Skip?
    ensures Jam(Next(s, step).tables, block, since)
  {
    if step.Publish? {
      PublishKeepsJam(s, step.id, step.aggregate, step.consumers, step.now, block, since);
      assert Next(s, step) == PublishStep(s, step.id, step.aggregate, step.consumers, step.now);
    } else if step.Reserve? {
      ReserveKeepsJam(s.tables, step.picked, step.now, block, since);
      assert Next(s, step).tables == Reserved(s.tables, step.picked, step.now);
    } else if step.Settle? {
      SettleKeepsJam(s, step.r, step.success, block, since);
      assert Next(s, step) == SettleStep(s, step.r, step.success);
    } else if step.Cleanup? {
      CleanupKeepsJam(s.tables, step.now, block, since);
      assert Next(s, step).tables == Cleaned(s.tables, step.now);
    } else {
      CallsKeepTables(s, step);
    }
  }

  lemma {:induction false} JamLastsOneStep(steps: seq<Step>, step: Step, block: set<Key>, since: int)
    requires Jam(Run(steps).tables, block, since) && !step.Replay? && !step.Skip?
    ensures Jam(Run(steps + [step]).tables, block, since)
  {
    RunSnoc(steps, step);
    RunKeeps(steps);
    JamKept(Run(steps), step, block, since);
  }

  lemma {:induction false} JamLasts(steps: seq<Step>, more: seq<Step>, block: set<Key>, since: int)
    requires Jam(Run(steps).tables, block, since)
    requires forall i :: 0 <= i < |more| ==> !more[i].Replay? && !more[i].Skip?
    ensures Jam(Run(steps + more).tables, block, since)
  {
    if more == [] {
      assert steps + more == steps;
    } else {
      var init, last := more[..|more| - 1], more[|more| - 1];
      JamLasts(steps, init, block, since);
      JamLastsOneStep(steps + init, last, block, since);
      assert steps + more == (steps + init) + [last];
    }
  }

  /**
   Starvation: once `limit` due rows are jammed behind dead ones, no later pass with that limit takes a row that
   sorts after them, however long it is due, until an operator replays or skips a delivery.
   */
  lemma {:induction false} StarvesUntilOperator(
    steps: seq<Step>, more: seq<Step>, block: set<Key>, since: int,
    locked: set<Key>, now: int, limit: nat, batch: seq<Key>, h: Key)
    requires Jam(Run(steps).tables, block, since) && |block| >= limit
    requires forall i :: 0 <= i < |more| ==> !more[i].Replay? && !more[i].Skip?
    requires Linked(Run(steps + more).tables) && IsBatch(Run(steps + more).tables, locked, now, limit, batch)
    requires since <= now && block !! locked
    requires h in Run(steps + more).tables.rows
    requires forall k :: k in block ==>
               k.event in Run(steps + more).tables.events
               && Before(PlaceOf(Run(steps + more).tables, k), PlaceOf(Run(steps + more).tables, h))
    ensures h !in Takeable(Run(steps + more).tables, Members(batch), now)
  {
    JamLasts(steps, more, block, since);
    JamStarves(Run(steps + more).tables, block, since, locked, now, limit, batch, h);
  }
}
