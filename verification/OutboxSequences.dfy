/**
 The numbers of events within their streams, over every run: how they grow, and when retention makes them repeat.
 */
module OutboxSequences {
  import opened OutboxTables
  import opened OutboxRuns

  /**
   The cleanup leaves a stream its largest sequence: it has none, or an event that carries it is not due for deletion.
   */
  ghost predicate KeepsLargest(t: Tables, now: int, aggregate: string) {
    var top := HighestSequence(t.events, aggregate);
    top == 0
    || exists e :: e in t.events && t.events[e].aggregate == aggregate && t.events[e].sequence == top
                 && !Expired(t, e, now)
  }

  lemma {:induction false} HighestIs(events: map<string, Event>, aggregate: string, m: nat)
    requires IsHighest(events, aggregate, m)
    ensures HighestSequence(events, aggregate) == m
  {
    assert IsHighest(events, aggregate, HighestSequence(events, aggregate));
  }

  lemma {:induction false} CleanupKeepsHighest(t: Tables, now: int, aggregate: string)
    ensures HighestSequence(Cleaned(t, now).events, aggregate) == HighestSequence(t.events, aggregate)
            <==> KeepsLargest(t, now, aggregate)
    ensures HighestSequence(Cleaned(t, now).events, aggregate) <= HighestSequence(t.events, aggregate)
  {
    var top, left := HighestSequence(t.events, aggregate), HighestSequence(Cleaned(t, now).events, aggregate);
    assert IsHighest(t.events, aggregate, top) && IsHighest(Cleaned(t, now).events, aggregate, left);
    if KeepsLargest(t, now, aggregate) && top != 0 {
      var e :| e in t.events && t.events[e].aggregate == aggregate && t.events[e].sequence == top
               && !Expired(t, e, now);
      assert e in Cleaned(t, now).events;
    }
  }

  lemma {:induction false} HighestAfterPublish(
    t: Tables, id: string, stream: string, consumers: set<string>, now: int, aggregate: string)
    requires id !in t.events
    ensures HighestSequence(Published(t, id, stream, consumers, now).events, aggregate)
            == HighestSequence(t.events, aggregate) + if stream == aggregate then 1 else 0
  {
    var events := Published(t, id, stream, consumers, now).events;
    var top := HighestSequence(t.events, aggregate);
    assert IsHighest(t.events, aggregate, top);
    if stream == aggregate {
      assert events[id].sequence == top + 1;
    } else if top != 0 {
      var e :| e in t.events && t.events[e].aggregate == aggregate && t.events[e].sequence == top;
      assert events[e] == t.events[e];
    }
    HighestIs(events, aggregate, if stream == aggregate then top + 1 else top);
  }

  /** Every number ever given in the stream is at most the largest one stored, and they grow with publication. */
  ghost predicate Growing(s: System, aggregate: string) {
    var born := s.journal.born;
    && (forall e :: e in born && born[e].aggregate == aggregate ==>
          born[e].sequence <= HighestSequence(s.tables.events, aggregate))
    && (forall e, f :: e in born && f in born && born[e].aggregate == born[f].aggregate == aggregate ==>
          (born[e].index < born[f].index ==> born[e].sequence < born[f].sequence))
  }

  lemma {:induction false} PublishKeepsGrowing(
    s: System, id: string, stream: string, consumers: set<string>, now: int, aggregate: string)
    requires Inv(s) && Growing(s, aggregate)
    ensures Growing(PublishStep(s, id, stream, consumers, now), aggregate)
  {
    if id !in s.journal.born && id !in s.tables.events {
      HighestAfterPublish(s.tables, id, stream, consumers, now, aggregate);
      var s' := PublishStep(s, id, stream, consumers, now);
      OneMoreGrows(s, s', id, s'.journal.born[id], aggregate);
    }
  }

  lemma {:induction false} OneMoreGrows(s: System, s': System, id: string, birth: Birth, aggregate: string)
    requires Growing(s, aggregate) && id !in s.journal.born && s'.journal.born == s.journal.born[id := birth]
    requires forall e :: e in s.journal.born ==> s.journal.born[e].index < birth.index
    requires var top, top' := HighestSequence(s.tables.events, aggregate), HighestSequence(s'.tables.events, aggregate);
             if birth.aggregate == aggregate then birth.sequence == top' == top + 1 else top' == top
    ensures Growing(s', aggregate)
  {
    var born' := s'.journal.born;
    forall e, f | e in born' && f in born' && born'[e].aggregate == born'[f].aggregate == aggregate
                  && born'[e].index < born'[f].index
      ensures born'[e].sequence < born'[f].sequence
    {
      assert e in s.journal.born;
    }
  }

  /** Numbers and the largest stored one are all that matters. */
  lemma {:induction false} SameNumbersGrow(s: System, s': System, aggregate: string)
    requires Growing(s, aggregate) && s'.journal.born == s.journal.born
    requires HighestSequence(s'.tables.events, aggregate) == HighestSequence(s.tables.events, aggregate)
    ensures Growing(s', aggregate)
  {
  }

  lemma {:induction false} StepKeepsGrowing(s: System, step: Step, aggregate: string)
    requires Inv(s) && Growing(s, aggregate)
    requires step.Cleanup? ==> KeepsLargest(s.tables, step.now, aggregate)
    ensures Growing(Next(s, step), aggregate)
  {
    var s' := Next(s, step);
    if step.Publish? {
      PublishKeepsGrowing(s, step.id, step.aggregate, step.consumers, step.now, aggregate);
      assert s' == PublishStep(s, step.id, step.aggregate, step.consumers, step.now);
    } else if step.Cleanup? {
      CleanupKeepsHighest(s.tables, step.now, aggregate);
      assert s' == s.(tables := Cleaned(s.tables, step.now));
      SameNumbersGrow(s, s', aggregate);
    } else {
      EventsStay(s, step);
      SameNumbersGrow(s, s', aggregate);
    }
  }

  lemma {:induction false} EventsStay(s: System, step: Step)
    requires !step.Publish? && !step.Cleanup?
    ensures Next(s, step).tables.events == s.tables.events && Next(s, step).journal.born == s.journal.born
  {
  }

  /** As long as every cleanup leaves the stream its largest sequence, numbers grow with publication. */
  lemma {:induction false} SequencesGrowWhileKept(steps: seq<Step>, aggregate: string)
    requires forall i :: 0 <= i < |steps| && steps[i].Cleanup? ==>
               KeepsLargest(Run(steps[..i]).tables, steps[i].now, aggregate)
    ensures Growing(Run(steps), aggregate)
  {
    if steps != [] {
      var init, last := steps[..|steps| - 1], steps[|steps| - 1];
      forall i | 0 <= i < |init| && init[i].Cleanup?
        ensures KeepsLargest(Run(init[..i]).tables, init[i].now, aggregate)
      {
        assert init[..i] == steps[..i] && init[i] == steps[i];
      }
      SequencesGrowWhileKept(init, aggregate);
      RunKeeps(init);
      StepKeepsGrowing(Run(init), last, aggregate);
    }
  }

  // ----- after a cleanup

  /** After a cleanup that empties a stream, its next event does not outnumber any earlier one of the stream. */
  lemma {:induction false} SequenceRestartsAfterCleanup(
    steps: seq<Step>, now: int, id: string, aggregate: string, consumers: set<string>, earlier: string)
    requires id !in Run(steps).journal.born && earlier in Run(steps).journal.born
    requires Run(steps).journal.born[earlier].aggregate == aggregate
    requires
      var t := Run(steps).tables;
      forall e :: e in t.events && t.events[e].aggregate == aggregate ==> Expired(t, e, now)
    ensures
      var born := Run(steps + [Cleanup(now), Publish(id, aggregate, consumers, now)]).journal.born;
      && id in born && earlier in born && born[earlier].index < born[id].index
      && born[id].sequence == 1 <= born[earlier].sequence
  {
    RunKeeps(steps);
    SequencesPositive(steps, earlier);
    var c, p := Cleanup(now), Publish(id, aggregate, consumers, now);
    assert (steps + [c, p])[..|steps| + 1] == steps + [c] && (steps + [c])[..|steps|] == steps;
    var s := Run(steps + [c]);
    assert s == Next(Run(steps), c);
    assert forall e :: e in s.tables.events ==> s.tables.events[e].aggregate != aggregate;
    assert Run(steps + [c, p]) == Next(s, p);
  }

  /** The number that the event published right after a cleanup gets. */
  ghost function NextNumber(t: Tables, now: int, aggregate: string): nat {
    HighestSequence(Cleaned(t, now).events, aggregate) + 1
  }

  lemma {:induction false} NextNumberIsGiven(
    s: System, now: int, id: string, aggregate: string, consumers: set<string>, later: int)
    requires Inv(s) && id !in s.journal.born
    ensures var born := Next(Next(s, Cleanup(now)), Publish(id, aggregate, consumers, later)).journal.born;
            id in born && born[id].sequence == NextNumber(s.tables, now, aggregate)
  {
    var c := s.(tables := Cleaned(s.tables, now));
    assert Next(s, Cleanup(now)) == c;
    assert id !in c.tables.events;
  }

  /** It outnumbers everything that was stored before exactly if the cleanup left the largest sequence. */
  lemma {:induction false} NextNumberIsLargestExactly(t: Tables, now: int, aggregate: string)
    ensures KeepsLargest(t, now, aggregate)
            <==> forall e :: e in t.events && t.events[e].aggregate == aggregate ==>
                   t.events[e].sequence < NextNumber(t, now, aggregate)
  {
    CleanupKeepsHighest(t, now, aggregate);
    assert IsHighest(t.events, aggregate, HighestSequence(t.events, aggregate));
  }

  /** One event and its delivery, waived and cleaned up past its retention. */
  ghost function Forgotten(first: string, aggregate: string, consumer: string): System {
    var published := PublishStep(Empty, first, aggregate, {consumer}, 0);
    var waived := SkipStep(published, Key(first, consumer));
    waived.(tables := Cleaned(waived.tables, RETENTION_SECONDS))
  }

  lemma {:induction false} NothingIsLeft(first: string, aggregate: string, consumer: string)
    ensures var s := Forgotten(first, aggregate, consumer);
            && s.tables.events == map[]
            && s.journal.born == map[first := Birth(aggregate, {consumer}, 0, 1)] && s.journal.count == 1
  {
    HighestIs(map[], aggregate, 0);
    var published := PublishStep(Empty, first, aggregate, {consumer}, 0);
    assert published.tables.events == map[first := Event(aggregate, 1, 0)];
    assert published.tables.rows.Keys == {Key(first, consumer)};
    var waived := SkipStep(published, Key(first, consumer));
    assert waived.tables.events == published.tables.events;
    assert waived.tables.rows.Keys == {Key(first, consumer)} && waived.tables.rows[Key(first, consumer)].status.Waived?;
  }

  lemma {:induction false} ForgottenIsReached(first: string, aggregate: string, consumer: string)
    returns (steps: seq<Step>)
    ensures Run(steps) == Forgotten(first, aggregate, consumer)
  {
    var empty: seq<Step> := [];
    var publish, skip := Publish(first, aggregate, {consumer}, 0), Skip(Key(first, consumer));
    RunSnoc(empty, publish);
    RunSnoc(empty + [publish], skip);
    RunSnoc(empty + [publish] + [skip], Cleanup(RETENTION_SECONDS));
    steps := empty + [publish] + [skip] + [Cleanup(RETENTION_SECONDS)];
  }

  /** After that the next event of the stream gets the number again. */
  lemma {:induction false} NumberIsRepeated(first: string, second: string, aggregate: string, consumer: string)
    returns (steps: seq<Step>)
    requires first != second
    ensures var born := Run(steps).journal.born;
            && first in born && second in born && born[first].aggregate == born[second].aggregate == aggregate
            && born[first].index < born[second].index && born[first].sequence == born[second].sequence == 1
  {
    var before := ForgottenIsReached(first, aggregate, consumer);
    NothingIsLeft(first, aggregate, consumer);
    HighestIs(map[], aggregate, 0);
    var again := Publish(second, aggregate, {consumer}, RETENTION_SECONDS);
    RunSnoc(before, again);
    steps := before + [again];
    assert Run(steps)
           == PublishStep(Forgotten(first, aggregate, consumer), second, aggregate, {consumer}, RETENTION_SECONDS);
  }

  lemma {:induction false} SequencesPositive(steps: seq<Step>, e: string)
    requires e in Run(steps).journal.born
    ensures Run(steps).journal.born[e].sequence >= 1
  {
    if steps != [] && e in Run(steps[..|steps| - 1]).journal.born {
      SequencesPositive(steps[..|steps| - 1], e);
    }
  }
}
