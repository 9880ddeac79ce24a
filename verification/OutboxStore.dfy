/** The repository methods over the two outbox tables, each proved against its table function. */
module OutboxStore {
  import opened Base
  import opened OutboxTables
  import opened OutboxOrder

  class Store {
    var events: map<string, Event>
    var rows: map<Key, Delivery>

    ghost function View(): Tables
      reads this
    {
      Tables(events, rows)
    }

    constructor ()
      ensures View() == Tables(map[], map[])
    {
      events, rows := map[], map[];
    }

    method NextSequence(aggregate: string) returns (n: nat)
      ensures n == HighestSequence(events, aggregate) + 1
    {
      var highest, todo := 0, events.Keys;
      while todo != {}
        invariant todo <= events.Keys
        invariant IsHighest(map e | e in events && e !in todo :: events[e], aggregate, highest)
        decreases todo
      {
        var e :| e in todo;
        ghost var seen := map f | f in events && f !in todo :: events[f];
        ghost var seen' := map f | f in events && f !in todo - {e} :: events[f];
        assert forall f :: f in seen' <==> f in seen || f == e;
        if events[e].aggregate == aggregate && events[e].sequence > highest {
          highest := events[e].sequence;
          assert seen'[e].sequence == highest;
        } else if highest != 0 {
          ghost var w :| w in seen && seen[w].aggregate == aggregate && seen[w].sequence == highest;
          assert w in seen' && seen'[w] == seen[w];
        }
        todo := todo - {e};
      }
      assert (map e | e in events && e !in todo :: events[e]) == events;
      assert IsHighest(events, aggregate, HighestSequence(events, aggregate));
      n := highest + 1;
    }

    method Publish(id: string, aggregate: string, consumers: set<string>, now: int) returns (ok: bool)
      modifies this
      ensures ok == (id !in old(events))
      ensures View() == Published(old(View()), id, aggregate, consumers, now)
    {
      if id in events {
        return false;
      }
      var sequence := NextSequence(aggregate);
      events := events[id := Event(aggregate, sequence, now)];
      var todo, done := consumers, {};
      while todo != {}
        invariant done == consumers - todo && todo <= consumers
        invariant events == old(events)[id := Event(aggregate, sequence, now)]
        invariant rows == old(rows) + NewRows(id, done)
        decreases todo
      {
        var c :| c in todo;
        NewRowsGrow(old(rows), id, done, c);
        rows := rows[Key(id, c) := Delivery(Pending, 0, None)];
        todo, done := todo - {c}, done + {c};
      }
      assert done == consumers;
      ok := true;
    }

    method MinUndeliveredSequence(consumer: string, aggregate: string) returns (m: Option<nat>)
      requires Linked(View())
      ensures IsMinUndelivered(View(), consumer, aggregate, m)
    {
      m := None;
      var todo := rows.Keys;
      while todo != {}
        invariant todo <= rows.Keys
        invariant forall k :: k in rows && k !in todo && InStream(View(), k, consumer, aggregate) ==>
                    rows[k].status.Accepted() || (m.Some? && m.value <= events[k.event].sequence)
        invariant m.Some? ==> exists k :: k in rows && InStream(View(), k, consumer, aggregate)
                                          && !rows[k].status.Accepted() && events[k.event].sequence == m.value
        decreases todo
      {
        var k :| k in todo;
        if k.consumer == consumer && events[k.event].aggregate == aggregate && !rows[k].status.Accepted() {
          assert InStream(View(), k, consumer, aggregate);
          if m.None? || events[k.event].sequence < m.value {
            m := Some(events[k.event].sequence);
          }
        }
        todo := todo - {k};
      }
    }

    /** The row of `todo` that the query lists first. */
    method FirstOf(todo: set<Key>) returns (k: Key)
      requires Linked(View()) && todo != {} && todo <= rows.Keys
      ensures k in todo && forall l :: l in todo && l != k ==> Before(PlaceOf(View(), k), PlaceOf(View(), l))
    {
      k :| k in todo;
      var rest := todo - {k};
      while rest != {}
        invariant rest <= todo && k in todo && k !in rest
        invariant forall l :: l in todo && l !in rest && l != k ==> Before(PlaceOf(View(), k), PlaceOf(View(), l))
        decreases rest
      {
        var l :| l in rest;
        rest := rest - {l};
        ghost var p, q := PlaceOf(View(), l), PlaceOf(View(), k);
        BeforeOrders(p, q, p);
        if Before(Place(events[l.event].occurredAt, events[l.event].sequence, l.event, l.consumer),
                  Place(events[k.event].occurredAt, events[k.event].sequence, k.event, k.consumer)) {
          forall m | m in todo && m !in rest && m != l ensures Before(p, PlaceOf(View(), m)) {
            BeforeOrders(p, q, PlaceOf(View(), m));
          }
          k := l;
        }
      }
    }

    /** The locking query: due rows that are not locked, ordered and cut at the limit. */
    method SelectBatch(locked: set<Key>, limit: nat, now: int) returns (batch: seq<Key>)
      requires Linked(View())
      ensures IsBatch(View(), locked, now, limit, batch)
    {
      batch := [];
      var todo := set k | k in rows && k !in locked && Due(rows[k], now);
      while |batch| < limit && todo != {}
        invariant |batch| <= limit && todo <= Eligible(View(), locked, now)
        invariant forall k :: k in Eligible(View(), locked, now) <==> k in todo || k in batch
        invariant forall a :: 0 <= a < |batch| ==> batch[a] in rows && batch[a].event in events
        invariant forall a, b :: 0 <= a < b < |batch| ==> Before(PlaceOf(View(), batch[a]), PlaceOf(View(), batch[b]))
        invariant forall a, k :: 0 <= a < |batch| && k in todo ==> Before(PlaceOf(View(), batch[a]), PlaceOf(View(), k))
        decreases limit - |batch|
      {
        var k := FirstOf(todo);
        batch := batch + [k];
        todo := todo - {k};
      }
    }

    /** One reservation transaction: the batch, taken where the ordering gate allows and otherwise left untouched. */
    method ReserveBatch(locked: set<Key>, limit: nat, now: int)
      returns (batch: seq<Key>, reserved: set<Key>, deferred: set<Key>)
      requires Linked(View())
      modifies this
      ensures old(IsBatch(View(), locked, now, limit, batch))
      ensures View() == Reserved(old(View()), Members(batch), now)
      ensures reserved == old(Takeable(View(), Members(batch), now))
      ensures reserved !! deferred && reserved + deferred == Members(batch)
    {
      batch := SelectBatch(locked, limit, now);
      forall a, b | 0 <= a < b < |batch| ensures batch[a] != batch[b] {
        BeforeOrders(PlaceOf(View(), batch[a]), PlaceOf(View(), batch[b]), PlaceOf(View(), batch[b]));
      }
      reserved, deferred := TakeHeads(batch, now);
    }

    /** The ordering gate of one candidate: its sequence is the smallest that is not accepted. */
    method MayTake(k: Key) returns (ok: bool)
      requires Linked(View()) && k in rows && !rows[k].status.Accepted()
      ensures ok == HeadOfStream(View(), k)
    {
      var minimum := MinUndeliveredSequence(k.consumer, events[k.event].aggregate);
      MinimumDecidesGate(View(), k, minimum);
      ok := minimum == None || minimum.value == events[k.event].sequence;
    }

    /** The loop over the candidates: the heads of their streams are leased, the others deferred. */
    method TakeHeads(candidates: seq<Key>, now: int) returns (reserved: set<Key>, deferred: set<Key>)
      requires Linked(View())
      requires forall k :: k in candidates ==> k in rows && Due(rows[k], now)
      requires forall a, b :: 0 <= a < b < |candidates| ==> candidates[a] != candidates[b]
      modifies this
      ensures View() == Reserved(old(View()), Members(candidates), now)
      ensures reserved == old(Takeable(View(), Members(candidates), now))
      ensures reserved !! deferred && reserved + deferred == Members(candidates)
    {
      reserved, deferred := {}, {};
      ghost var before := View();
      for i := 0 to |candidates|
        invariant View() == before.(rows := WithLeases(before.rows, reserved, now))
        invariant reserved + deferred == Members(candidates[..i])
        invariant forall k :: k in reserved ==> HeadOfStream(before, k)
        invariant forall k :: k in deferred ==> !HeadOfStream(before, k)
      {
        var k := candidates[i];
        assert k !in candidates[..i] && candidates[..i + 1] == candidates[..i] + [k];
        GateIgnoresLeases(before, reserved, now, k);
        var ok := MayTake(k);
        if ok {
          LeaseOneMore(before.rows, reserved, k, now);
          rows := rows[k := Leased(rows[k], now)];
          reserved := reserved + {k};
        } else {
          deferred := deferred + {k};
        }
      }
      assert candidates[..|candidates|] == candidates;
    }

    /** The guarded outcome update; `ok` is false when an operator's decision got there first. */
    method CommitOutcome(k: Key, outcome: Delivery) returns (ok: bool)
      modifies this
      ensures View() == Committed(old(View()), k, outcome)
      ensures ok == (k in old(rows) && old(rows)[k].status.Reservable())
    {
      ok := k in rows && rows[k].status.Reservable();
      if ok {
        rows := rows[k := outcome];
      }
    }

    method ReplayEvent(id: string, consumer: Option<string>) returns (replayed: set<Key>)
      modifies this
      ensures View() == Replayed(old(View()), id, consumer)
      ensures replayed == set k | k in old(rows) && Replayable(k, old(rows)[k], id, consumer)
    {
      replayed := set k | k in rows && Replayable(k, rows[k], id, consumer);
      rows := map k | k in rows :: if k in replayed then Delivery(Pending, 0, None) else rows[k];
    }

    method SkipDelivery(k: Key) returns (previous: Option<Status>)
      modifies this
      ensures View() == Skipped(old(View()), k)
      ensures previous.Some? <==> k in old(rows) && !old(rows)[k].status.Accepted()
      ensures previous.Some? ==> previous.value == old(rows)[k].status
    {
      if k !in rows || rows[k].status.Accepted() {
        return None;
      }
      previous := Some(rows[k].status);
      rows := rows[k := rows[k].(status := Waived)];
    }

    method CleanupExpired(now: int) returns (deleted: set<string>)
      requires Linked(View())
      modifies this
      ensures View() == Cleaned(old(View()), now)
      ensures deleted == set e | e in old(events) && old(Expired(View(), e, now))
    {
      var open := set k | k in rows && !rows[k].status.Accepted() :: k.event;
      deleted := set e | e in events && events[e].occurredAt + RETENTION_SECONDS <= now && e !in open;
      assert forall e :: e in deleted <==> Expired(View(), e, now);
      events := map e | e in events && e !in deleted :: events[e];
      rows := map k | k in rows && k.event !in deleted :: rows[k];
    }
  }
}
