/**
 One external effect under crash and retry: the ledger row, the marker lookup and the call, over every sequence of
 attempts that may die at any point.  The ledger row stays locked for an attempt, so attempts do not interleave.
 */
module Effects {
  import opened Base

  /** Where an attempt ends; only one that `Commits` reaches its end, with durable ledger writes and an answer. */
  datatype Fate = DiesBeforeCall | CallFails | DiesAfterCall | Commits

  /** One attempt; `sees` tells whether the lookup finds an effect that is there. */
  datatype Attempt = Attempt(sees: bool, fate: Fate)

  /** The reference the ledger holds, the effects that exist, and what the callers were told. */
  datatype World = World(ledger: Option<nat>, effects: seq<nat>, answers: seq<nat>)

  const Empty: World := World(None, [], [])

  /** References are numbered as the external system creates them. */
  function Ensure(w: World, a: Attempt): World {
    if w.ledger.Some? then
      if a.fate.Commits? then w.(answers := w.answers + [w.ledger.value]) else w
    else if a.sees && w.effects != [] then
      if a.fate.Commits? then World(Some(w.effects[0]), w.effects, w.answers + [w.effects[0]]) else w
    else
      var ref := |w.effects|;
      match a.fate
      case DiesBeforeCall => w
      case CallFails => w
      case DiesAfterCall => w.(effects := w.effects + [ref])
      case Commits => World(Some(ref), w.effects + [ref], w.answers + [ref])
  }

  function Run(attempts: seq<Attempt>): World {
    if attempts == [] then Empty else Ensure(Run(attempts[..|attempts| - 1]), attempts[|attempts| - 1])
  }

  /** The attempt looks up an effect that is there and does not see it. */
  predicate Misses(w: World, a: Attempt) { w.ledger.None? && w.effects != [] && !a.sees }

  /** How many lookups missed an effect that was there. */
  function Missed(attempts: seq<Attempt>): nat {
    if attempts == [] then 0
    else
      var init, last := attempts[..|attempts| - 1], attempts[|attempts| - 1];
      Missed(init) + if Misses(Run(init), last) then 1 else 0
  }

  /** Every answer is the same existing reference, the one in the ledger. */
  ghost predicate Consistent(w: World) {
    && (w.ledger.Some? ==> w.ledger.value in w.effects)
    && (w.ledger.None? ==> w.answers == [])
    && forall i :: 0 <= i < |w.answers| ==> w.ledger == Some(w.answers[i])
  }

  /** At most one effect, plus one for every lookup that missed an effect that was there. */
  lemma {:induction false} AtMostOncePlusMissed(attempts: seq<Attempt>)
    ensures |Run(attempts).effects| <= 1 + Missed(attempts)
    ensures Consistent(Run(attempts))
  {
    if attempts != [] {
      var init, last := attempts[..|attempts| - 1], attempts[|attempts| - 1];
      AtMostOncePlusMissed(init);
      var w := Run(init);
      assert w.effects != [] ==> w.effects[0] in w.effects;
      assert |w.effects| in w.effects + [|w.effects|];
    }
  }

  /** With a lookup that always sees, the effect happens at most once whatever dies where, and all callers agree. */
  lemma {:induction false} AtMostOnce(attempts: seq<Attempt>)
    requires forall i :: 0 <= i < |attempts| ==> attempts[i].sees
    ensures |Run(attempts).effects| <= 1
    ensures forall i :: 0 <= i < |Run(attempts).answers| ==> Run(attempts).effects == [Run(attempts).answers[i]]
  {
    NeverMissed(attempts);
    AtMostOncePlusMissed(attempts);
  }

  lemma {:induction false} NeverMissed(attempts: seq<Attempt>)
    requires forall i :: 0 <= i < |attempts| ==> attempts[i].sees
    ensures Missed(attempts) == 0
  {
    if attempts != [] {
      NeverMissed(attempts[..|attempts| - 1]);
    }
  }

  function MissingRun(n: nat): seq<Attempt> {
    if n == 0 then [Attempt(true, DiesAfterCall)] else MissingRun(n - 1) + [Attempt(false, DiesAfterCall)]
  }

  /** One more lookup that misses leaves one more effect, as long as nothing was committed. */
  lemma {:induction false} MissRepeats(attempts: seq<Attempt>)
    requires Run(attempts).ledger.None? && Run(attempts).effects != []
    ensures var more := attempts + [Attempt(false, DiesAfterCall)];
            && Run(more).ledger.None? && |Run(more).effects| == |Run(attempts).effects| + 1
            && Missed(more) == Missed(attempts) + 1
  {
    assert (attempts + [Attempt(false, DiesAfterCall)])[..|attempts|] == attempts;
  }

  /** The bound is reached: `n` lookups that miss can leave `n + 1` effects. */
  lemma {:induction false} MissedLookupsRepeat(n: nat)
    ensures Missed(MissingRun(n)) == n && |Run(MissingRun(n)).effects| == n + 1 && Run(MissingRun(n)).ledger.None?
  {
    if n == 0 {
      assert MissingRun(0)[..0] == [];
    } else {
      MissedLookupsRepeat(n - 1);
      MissRepeats(MissingRun(n - 1));
    }
  }

  /** How many attempts reach their end. */
  function Finished(attempts: seq<Attempt>): nat {
    if attempts == [] then 0
    else Finished(attempts[..|attempts| - 1]) + if attempts[|attempts| - 1].fate.Commits? then 1 else 0
  }

  /** Once some attempt commits, no later attempt touches the external system again. */
  lemma {:induction false} CommittedForGood(before: seq<Attempt>, after: seq<Attempt>)
    requires Run(before).ledger.Some?
    ensures Run(before + after).ledger == Run(before).ledger && Run(before + after).effects == Run(before).effects
    ensures |Run(before + after).answers| == |Run(before).answers| + Finished(after)
  {
    if after == [] {
      assert before + after == before;
    } else {
      CommittedForGood(before, after[..|after| - 1]);
      assert (before + after)[..|before + after| - 1] == before + after[..|after| - 1];
    }
  }

  // ----- what the attempts did

  /** Some attempt got as far as a made call, or further. */
  ghost predicate Touched(attempts: seq<Attempt>) {
    exists i :: 0 <= i < |attempts| && (attempts[i].fate.DiesAfterCall? || attempts[i].fate.Commits?)
  }

  ghost predicate Committed(attempts: seq<Attempt>) {
    exists i :: 0 <= i < |attempts| && attempts[i].fate.Commits?
  }

  /**
   The world after any attempts: an effect exists exactly if one got past its call, the ledger holds a reference exactly
   if one reached its end, and every attempt that reached its end has an answer.
   */
  lemma {:induction false} WorldExactly(attempts: seq<Attempt>)
    ensures var w := Run(attempts);
            && (w.effects != [] <==> Touched(attempts))
            && (w.ledger.Some? <==> Committed(attempts))
            && |w.answers| == Finished(attempts)
            && (forall i, j :: 0 <= i < j < |w.effects| ==> w.effects[i] != w.effects[j])
  {
    if attempts != [] {
      var n := |attempts| - 1;
      var init, last := attempts[..n], attempts[n];
      WorldExactly(init);
      AtMostOncePlusMissed(init);
      NumberedInOrder(init);
      assert Touched(attempts) <==> Touched(init) || last.fate.DiesAfterCall? || last.fate.Commits? by {
        TouchedSnoc(init, last);
        assert init + [last] == attempts;
      }
      assert Committed(attempts) <==> Committed(init) || last.fate.Commits? by {
        TouchedSnoc(init, last);
        assert init + [last] == attempts;
      }
      NumberedInOrder(attempts);
    }
  }

  lemma {:induction false} TouchedSnoc(init: seq<Attempt>, last: Attempt)
    ensures Touched(init + [last]) <==> Touched(init) || last.fate.DiesAfterCall? || last.fate.Commits?
    ensures Committed(init + [last]) <==> Committed(init) || last.fate.Commits?
  {
    var all := init + [last];
    assert all[|init|] == last;
    if i :| 0 <= i < |init| && (init[i].fate.DiesAfterCall? || init[i].fate.Commits?) {
      assert all[i] == init[i];
    }
    if i :| 0 <= i < |init| && init[i].fate.Commits? {
      assert all[i] == init[i];
    }
  }

  lemma {:induction false} NumberedInOrder(attempts: seq<Attempt>)
    ensures forall i :: 0 <= i < |Run(attempts).effects| ==> Run(attempts).effects[i] == i
  {
    if attempts != [] {
      NumberedInOrder(attempts[..|attempts| - 1]);
    }
  }

  /**
   With a lookup that always sees, the outcome is exact: one effect if some attempt got past its call and none
   otherwise, and every attempt that reached its end was told the reference of that one effect.
   */
  lemma {:induction false} ExactlyOnceWhenSeen(attempts: seq<Attempt>)
    requires forall i :: 0 <= i < |attempts| ==> attempts[i].sees
    ensures |Run(attempts).effects| == if Touched(attempts) then 1 else 0
    ensures |Run(attempts).answers| == Finished(attempts)
    ensures forall i :: 0 <= i < |Run(attempts).answers| ==> Run(attempts).effects == [Run(attempts).answers[i]]
  {
    AtMostOnce(attempts);
    WorldExactly(attempts);
  }

  // ----- the call

  /** The ledger row and the external system as one attempt after another changes them. */
  class Ledger {
    var ledger: Option<nat>
    var effects: seq<nat>
    var answers: seq<nat>

    ghost function View(): World
      reads this
    {
      World(ledger, effects, answers)
    }

    constructor ()
      ensures View() == Empty
    {
      ledger, effects, answers := None, [], [];
    }

    method LookUp(sees: bool) returns (found: Option<nat>)
      ensures found == if sees && effects != [] then Some(effects[0]) else None
    {
      found := if sees && effects != [] then Some(effects[0]) else None;
    }

    method EnsureEffect(a: Attempt) returns (answer: Option<nat>)
      modifies this
      ensures View() == old(Ensure(View(), a))
      ensures answer.Some? ==> ledger == answer && answers == old(answers) + [answer.value]
      ensures answer.None? ==> answers == old(answers)
    {
      if ledger.Some? {
        if !a.fate.Commits? {
          return None;
        }
        answers := answers + [ledger.value];
        return ledger;
      }
      var existing := LookUp(a.sees);
      if existing.None? {
        if a.fate.DiesBeforeCall? || a.fate.CallFails? {
          return None;
        }
        existing := Some(|effects|);
        effects := effects + [|effects|];
      }
      if !a.fate.Commits? {
        return None;
      }
      ledger := existing;
      answers := answers + [existing.value];
      return existing;
    }
  }
}
