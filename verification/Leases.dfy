/** The lease of a run with its fencing token, and the status writes the token and the revision guard. */
module Leases {
  import opened Base
  import opened L = Lifecycle

  datatype Lease = Lease(owner: string, token: nat, expires: int)

  /** A lease handed out: `epoch` counts the releases before it. */
  datatype Grant = Grant(owner: string, token: nat, epoch: nat)

  /** A status write; `reached` is the revision its run has in memory, zero for a writer that reports none. */
  datatype Write = Write(token: nat, expected: nat, target: RunStatus, reached: nat)

  /** The revision an accepted write leaves: one more, or what the run reached in memory if that is higher. */
  function LeftBy(w: Write): nat { if w.reached > w.expected + 1 then w.reached else w.expected + 1 }

  /** The rows of one run, with what happened to them so far. */
  datatype Rows = Rows(
    now: int,
    lease: Option<Lease>,
    status: RunStatus,
    revision: nat,
    epoch: nat,
    grants: seq<Grant>,
    writes: seq<Write>)

  datatype Step =
    | Tick(elapsed: nat)
    | Acquire(owner: string, ttl: int)
    | Renew(owner: string, token: nat, ttl: int)
    | Release(owner: string, token: nat)
    | UpdateStatus(write: Write)

  datatype Error = LeaseLost | StaleToken | StaleRevision | IllegalStatus

  function FreshRows(now: int): Rows { Rows(now, None, RunStatus.Pending, 1, 0, [], []) }

  predicate Grantable(r: Rows, owner: string) {
    r.lease.None? || r.lease.value.expires <= r.now || r.lease.value.owner == owner
  }

  function NextToken(r: Rows): nat { if r.lease.None? then 1 else r.lease.value.token + 1 }

  function Granted(r: Rows, owner: string, ttl: int): Rows {
    r.(lease := Some(Lease(owner, NextToken(r), r.now + ttl)),
       grants := r.grants + [Grant(owner, NextToken(r), r.epoch)])
  }

  predicate Holds(r: Rows, owner: string, token: nat) {
    r.lease.Some? && r.lease.value.owner == owner && r.lease.value.token == token
  }

  /** The write presents the token of the lease row, whoever presents it and however old the row is. */
  predicate PassesFence(r: Rows, token: nat) { r.lease.Some? && r.lease.value.token == token }

  function Verdict(r: Rows, w: Write): Result<(), Error> {
    if !PassesFence(r, w.token) then Err(StaleToken)
    else if r.revision != w.expected then Err(StaleRevision)
    else if RunPath(r.status, w.target).Err? then Err(IllegalStatus)
    else Ok(())
  }

  function Next(r: Rows, step: Step): Rows {
    match step
    case Tick(elapsed) => r.(now := r.now + elapsed)
    case Acquire(owner, ttl) => if Grantable(r, owner) then Granted(r, owner, ttl) else r
    case Renew(owner, token, ttl) =>
      if Holds(r, owner, token) then r.(lease := Some(r.lease.value.(expires := r.now + ttl))) else r
    case Release(owner, token) =>
      if Holds(r, owner, token) then r.(lease := None, epoch := r.epoch + 1) else r
    case UpdateStatus(w) =>
      if Verdict(r, w).Ok? then r.(status := w.target, revision := LeftBy(w), writes := r.writes + [w]) else r
  }

  function Run(now: int, steps: seq<Step>): Rows {
    if steps == [] then FreshRows(now) else Next(Run(now, steps[..|steps| - 1]), steps[|steps| - 1])
  }

  // ----- the invariant

  /** How many leases were handed out in the epoch. */
  function CountIn(grants: seq<Grant>, epoch: nat): nat {
    if grants == [] then 0
    else CountIn(grants[..|grants| - 1], epoch) + if grants[|grants| - 1].epoch == epoch then 1 else 0
  }

  /** Each token is the ordinal of its grant within its epoch, and epochs only grow. */
  ghost predicate Numbered(grants: seq<Grant>, epoch: nat) {
    && (forall i :: 0 <= i < |grants| ==> grants[i].token == 1 + CountIn(grants[..i], grants[i].epoch))
    && (forall i, j :: 0 <= i < j < |grants| ==> grants[i].epoch <= grants[j].epoch)
    && (forall i :: 0 <= i < |grants| ==> grants[i].epoch <= epoch)
  }

  ghost predicate RowIsNewest(r: Rows) {
    && (r.lease.Some? ==> r.lease.value.token == CountIn(r.grants, r.epoch) >= 1)
    && (r.lease.None? ==> CountIn(r.grants, r.epoch) == 0)
  }

  /** Each write saw the revision the one before it left. */
  ghost predicate WritesInOrder(writes: seq<Write>, revision: nat) {
    && (forall k :: 1 <= k < |writes| ==> writes[k].expected == LeftBy(writes[k - 1]))
    && (revision == if writes == [] then 1 else LeftBy(writes[|writes| - 1]))
    && (forall i, k :: 0 <= i < k < |writes| ==> writes[i].expected < writes[k].expected)
    && (forall i :: 0 <= i < |writes| ==> writes[i].expected < revision)
  }

  ghost predicate Inv(r: Rows) {
    Numbered(r.grants, r.epoch) && RowIsNewest(r) && WritesInOrder(r.writes, r.revision)
  }

  lemma {:induction false} NoneIn(grants: seq<Grant>, epoch: nat)
    requires forall i :: 0 <= i < |grants| ==> grants[i].epoch < epoch
    ensures CountIn(grants, epoch) == 0
  {
    if grants != [] {
      NoneIn(grants[..|grants| - 1], epoch);
    }
  }

  lemma {:induction false} CountGrows(grants: seq<Grant>, epoch: nat, i: nat)
    requires i <= |grants|
    ensures CountIn(grants[..i], epoch) <= CountIn(grants, epoch)
  {
    if i < |grants| {
      CountGrows(grants[..|grants| - 1], epoch, i);
      assert grants[..|grants| - 1][..i] == grants[..i];
    } else {
      assert grants[..i] == grants;
    }
  }

  lemma {:induction false} GrantNumbered(grants: seq<Grant>, g: Grant)
    requires Numbered(grants, g.epoch) && g.token == 1 + CountIn(grants, g.epoch)
    ensures Numbered(grants + [g], g.epoch) && CountIn(grants + [g], g.epoch) == g.token
  {
    var all := grants + [g];
    assert all[..|grants|] == grants;
    forall i | 0 <= i < |all| ensures all[i].token == 1 + CountIn(all[..i], all[i].epoch) {
      if i < |grants| {
        assert all[..i] == grants[..i];
      }
    }
  }

  lemma {:induction false} AcquireKeeps(r: Rows, owner: string, ttl: int)
    requires Inv(r)
    ensures Inv(Granted(r, owner, ttl))
  {
    GrantNumbered(r.grants, Grant(owner, NextToken(r), r.epoch));
  }

  lemma {:induction false} UpdateKeeps(r: Rows, w: Write)
    requires Inv(r)
    ensures Inv(Next(r, UpdateStatus(w)))
  {
    if Verdict(r, w).Ok? {
      var writes := r.writes + [w];
      forall k | 1 <= k < |writes| ensures writes[k].expected == LeftBy(writes[k - 1]) {
        if k < |r.writes| {
          assert r.writes[k].expected == LeftBy(r.writes[k - 1]);
        }
      }
    }
  }

  lemma {:induction false} ReleaseKeeps(r: Rows, owner: string, token: nat)
    requires Inv(r)
    ensures Inv(Next(r, Step.Release(owner, token)))
  {
    NoneIn(r.grants, r.epoch + 1);
    assert Numbered(r.grants, r.epoch + 1);
  }

  lemma {:induction false} NextKeeps(r: Rows, step: Step)
    requires Inv(r)
    ensures Inv(Next(r, step))
  {
    match step
    case Tick(_) =>
    case Acquire(owner, ttl) => AcquireKeeps(r, owner, ttl);
    case Renew(_, _, _) =>
    case Release(owner, token) => ReleaseKeeps(r, owner, token);
    case UpdateStatus(w) => UpdateKeeps(r, w);
  }

  lemma {:induction false} RunKeeps(now: int, steps: seq<Step>)
    ensures Inv(Run(now, steps))
  {
    if steps != [] {
      RunKeeps(now, steps[..|steps| - 1]);
      NextKeeps(Run(now, steps[..|steps| - 1]), steps[|steps| - 1]);
    }
  }

  ghost predicate Reachable(r: Rows) { exists now, steps :: Run(now, steps) == r }

  lemma {:induction false} ReachableInv(r: Rows)
    requires Reachable(r)
    ensures Inv(r)
  {
    var now, steps :| Run(now, steps) == r;
    RunKeeps(now, steps);
  }

  // ----- who holds the lease

  /** An acquisition is granted exactly if there is no lease, it has expired, or it is the caller's own. */
  lemma {:induction false} GrantedExactly(r: Rows, owner: string, ttl: int)
    ensures var r' := Next(r, Acquire(owner, ttl));
            var free := r.lease.None? || r.lease.value.expires <= r.now || r.lease.value.owner == owner;
            var token := if r.lease.None? then 1 else r.lease.value.token + 1;
            && (!free ==> r' == r)
            && (free ==> r' == r.(lease := Some(Lease(owner, token, r.now + ttl)),
                                  grants := r.grants + [Grant(owner, token, r.epoch)]))
  {
  }

  /** Only the owner with its token prolongs or ends a lease, even an expired one. */
  lemma {:induction false} HolderExactly(r: Rows, owner: string, token: nat, ttl: int)
    ensures var renewed, released := Next(r, Renew(owner, token, ttl)), Next(r, Step.Release(owner, token));
            if exists expires :: r.lease == Some(Lease(owner, token, expires))
            then renewed == r.(lease := Some(Lease(owner, token, r.now + ttl)))
                 && released == r.(lease := None, epoch := r.epoch + 1)
            else renewed == r && released == r
  {
    if Holds(r, owner, token) {
      assert r.lease == Some(Lease(owner, token, r.lease.value.expires));
    }
  }

  /** A status write is accepted exactly under the live token, at the current revision, along the table. */
  lemma {:induction false} WrittenExactly(r: Rows, w: Write)
    ensures var r' := Next(r, UpdateStatus(w));
            if r.lease.Some? && r.lease.value.token == w.token && w.expected == r.revision
               && RunPath(r.status, w.target).Ok?
            then r' == r.(status := w.target, revision := r'.revision, writes := r.writes + [w])
                 && r'.revision >= r.revision + 1 && r'.revision >= w.reached
                 && (r'.revision == r.revision + 1 || r'.revision == w.reached)
            else r' == r
  {
  }

  function Elapsed(steps: seq<Step>): nat {
    if steps == [] then 0
    else Elapsed(steps[..|steps| - 1]) + if steps[|steps| - 1].Tick? then steps[|steps| - 1].elapsed else 0
  }

  /** Time passes only by itself. */
  lemma {:induction false} ClockExactly(now: int, steps: seq<Step>)
    ensures Run(now, steps).now == now + Elapsed(steps)
  {
    if steps != [] {
      ClockExactly(now, steps[..|steps| - 1]);
    }
  }

  lemma {:induction false} StepEpoch(r: Rows, step: Step)
    ensures Next(r, step).epoch >= r.epoch
    ensures Next(r, step).epoch == r.epoch && r.lease.Some? ==> Next(r, step).lease.Some?
    ensures Next(r, step).epoch != r.epoch ==>
              r.lease.Some? && step == Step.Release(r.lease.value.owner, r.lease.value.token)
              && Next(r, step).epoch == r.epoch + 1
  {
  }

  lemma {:induction false} EpochsGrow(now: int, steps: seq<Step>, i: nat, j: nat)
    requires i <= j <= |steps|
    ensures Run(now, steps[..i]).epoch <= Run(now, steps[..j]).epoch
    ensures Run(now, steps[..i]).epoch == Run(now, steps[..j]).epoch && Run(now, steps[..i]).lease.Some? ==>
              Run(now, steps[..j]).lease.Some?
  {
    if i < j {
      EpochsGrow(now, steps, i, j - 1);
      assert steps[..j][..j - 1] == steps[..j - 1];
      StepEpoch(Run(now, steps[..j - 1]), steps[j - 1]);
    }
  }

  /** A lease that was not released goes over to somebody else only once it has expired. */
  lemma {:induction false} TakenOverAfterExpiry(now: int, steps: seq<Step>, i: nat, j: nat) returns (m: nat)
    requires i <= j <= |steps| && Run(now, steps[..i]).epoch == Run(now, steps[..j]).epoch
    requires Run(now, steps[..i]).lease.Some? && Run(now, steps[..j]).lease.Some?
    requires Run(now, steps[..i]).lease.value.owner != Run(now, steps[..j]).lease.value.owner
    ensures i <= m < j && steps[m].Acquire? && steps[m].owner != Run(now, steps[..i]).lease.value.owner
    ensures var r := Run(now, steps[..m]);
            && r.lease.Some? && r.lease.value.owner == Run(now, steps[..i]).lease.value.owner
            && r.lease.value.expires <= r.now
  {
    m := j - 1;
    EpochsGrow(now, steps, i, m);
    EpochsGrow(now, steps, m, j);
    assert steps[..j][..m] == steps[..m];
    if Run(now, steps[..m]).lease.value.owner != Run(now, steps[..i]).lease.value.owner {
      m := TakenOverAfterExpiry(now, steps, i, m);
    }
  }

  /** A lease row disappears only by a release of its own holder. */
  lemma {:induction false} ReleasedByHolder(now: int, steps: seq<Step>, i: nat, j: nat) returns (m: nat)
    requires i <= j <= |steps| && Run(now, steps[..i]).epoch < Run(now, steps[..j]).epoch
    ensures i <= m < j && Run(now, steps[..m]).epoch == Run(now, steps[..i]).epoch
    ensures var l := Run(now, steps[..m]).lease; l.Some? && steps[m] == Step.Release(l.value.owner, l.value.token)
  {
    m := j - 1;
    assert steps[..j][..m] == steps[..m];
    StepEpoch(Run(now, steps[..m]), steps[m]);
    EpochsGrow(now, steps, i, m);
    if Run(now, steps[..i]).epoch < Run(now, steps[..m]).epoch {
      m := ReleasedByHolder(now, steps, i, m);
    }
  }

  /** The expiry of a lease is what its owner's last acquisition or renewal gave it. */
  lemma {:induction false} ExpiryIsLastRenewal(now: int, steps: seq<Step>) returns (q: nat)
    requires Run(now, steps).lease.Some?
    ensures q < |steps| && (steps[q].Acquire? || steps[q].Renew?)
    ensures var l := Run(now, steps).lease.value;
            steps[q].owner == l.owner && l.expires == Run(now, steps[..q]).now + steps[q].ttl
    ensures forall m :: q < m <= |steps| ==> Run(now, steps[..m]).lease == Run(now, steps).lease
  {
    q := |steps| - 1;
    var before := Run(now, steps[..q]);
    assert steps[..|steps|] == steps;
    if (steps[q].Acquire? || steps[q].Renew?) && Next(before, steps[q]) != before {
    } else {
      var n := q;
      assert before.lease == Run(now, steps).lease;
      q := ExpiryIsLastRenewal(now, steps[..n]);
      assert steps[..n][..q] == steps[..q];
      forall m | q < m <= |steps| ensures Run(now, steps[..m]).lease == Run(now, steps).lease {
        if m <= n {
          assert steps[..n][..m] == steps[..m];
        } else {
          assert steps[..m] == steps;
        }
      }
    }
  }

  // ----- what the token guarantees

  /** As long as nobody releases, each acquisition gets a larger token. */
  lemma {:induction false} TokensGrow(r: Rows, i: nat, j: nat)
    requires Reachable(r) && i < j < |r.grants| && r.grants[i].epoch == r.grants[j].epoch
    ensures r.grants[i].token < r.grants[j].token
  {
    ReachableInv(r);
    var epoch := r.grants[i].epoch;
    assert r.grants[..i + 1][..i] == r.grants[..i];
    CountGrows(r.grants[..j], epoch, i + 1);
    assert r.grants[..j][..i + 1] == r.grants[..i + 1];
  }

  /**
   Which holders get through: of the leases handed out since the last release only the newest, and of those before
   it the ones whose ordinal in their own epoch equals the number handed out in this one.
   */
  lemma {:induction false} FenceExactly(r: Rows, i: nat)
    requires Reachable(r) && i < |r.grants|
    ensures r.grants[i].epoch == r.epoch ==> (PassesFence(r, r.grants[i].token) <==> i == |r.grants| - 1)
    ensures PassesFence(r, r.grants[i].token)
            <==> r.lease.Some? && 1 + CountIn(r.grants[..i], r.grants[i].epoch) == CountIn(r.grants, r.epoch)
  {
    ReachableInv(r);
    if r.grants[i].epoch == r.epoch {
      NewestInEpoch(r, i);
    }
  }

  lemma {:induction false} NewestCounts(grants: seq<Grant>, epoch: nat)
    requires Numbered(grants, epoch) && grants != [] && grants[|grants| - 1].epoch == epoch
    ensures grants[|grants| - 1].token == CountIn(grants, epoch)
  {
  }

  lemma {:induction false} NewestInEpoch(r: Rows, i: nat)
    requires Reachable(r) && i < |r.grants| && r.grants[i].epoch == r.epoch
    ensures PassesFence(r, r.grants[i].token) <==> i == |r.grants| - 1
  {
    ReachableInv(r);
    var n := |r.grants| - 1;
    assert r.grants[n].epoch == r.epoch;
    NewestCounts(r.grants, r.epoch);
    if i < n {
      TokensGrow(r, i, n);
    }
  }

  /**
   A release deletes the row, so the next acquisition starts again at one: a holder that lost its lease long ago but
   was the first of its epoch passes the fence again, beside the new holder.
   */
  lemma {:induction false} OldTokenPassesAgain(r: Rows, i: nat, owner: string, ttl: int)
    requires Reachable(r) && i < |r.grants| && r.grants[i].token == 1 && r.lease.Some?
    ensures var r' := Next(Next(r, Step.Release(r.lease.value.owner, r.lease.value.token)), Acquire(owner, ttl));
            && |r'.grants| == |r.grants| + 1 && r'.grants[i] == r.grants[i]
            && r'.lease == Some(Lease(owner, 1, r.now + ttl)) && PassesFence(r', r'.grants[i].token)
  {
  }

  /** The shortest run into it: one lease taken, released, and taken by somebody else. */
  lemma {:induction false} ReleasedTokenRun(now: int, first: string, ttl: int, second: string, ttl': int)
    ensures var taken := Run(now, [Acquire(first, ttl)]);
            var r := Next(Next(taken, Step.Release(first, 1)), Acquire(second, ttl'));
            && Reachable(taken) && taken.grants == [Grant(first, 1, 0)] && taken.lease.Some?
            && r.lease == Some(Lease(second, 1, now + ttl')) && r.grants == [Grant(first, 1, 0), Grant(second, 1, 1)]
            && PassesFence(r, taken.grants[0].token)
  {
    var steps := [Acquire(first, ttl)];
    assert steps[..0] == [];
    assert Run(now, steps) == Next(Run(now, []), steps[0]);
  }

  /** What still holds then: every accepted write saw the revision the write before it left, so none is lost. */
  lemma {:induction false} NoLostUpdate(r: Rows, i: nat, j: nat)
    requires Reachable(r) && i < j < |r.writes|
    ensures r.writes[i + 1].expected == LeftBy(r.writes[i]) && r.writes[i].expected < r.writes[j].expected < r.revision
  {
    ReachableInv(r);
  }

  // ----- the rows the calls write

  class Repository {
    var now: int
    var lease: Option<Lease>
    var status: RunStatus
    var revision: nat
    ghost var epoch: nat
    ghost var grants: seq<Grant>
    ghost var writes: seq<Write>

    ghost function View(): Rows
      reads this
    {
      Rows(now, lease, status, revision, epoch, grants, writes)
    }

    constructor (now: int)
      ensures View() == FreshRows(now)
    {
      this.now, lease, status, revision := now, None, RunStatus.Pending, 1;
      epoch, grants, writes := 0, [], [];
    }

    /** One upsert: insert with token one, or take over an expired or own lease with the next token. */
    method AcquireLease(owner: string, ttl: int) returns (token: Result<nat, Error>)
      modifies this
      ensures View() == old(Next(View(), Acquire(owner, ttl)))
      ensures token == old(if Grantable(View(), owner) then Ok(NextToken(View())) else Err(Error.LeaseLost))
    {
      var granted := 1;
      if lease.Some? {
        if !(lease.value.expires <= now || lease.value.owner == owner) {
          return Err(Error.LeaseLost);
        }
        granted := lease.value.token + 1;
      }
      lease := Some(Lease(owner, granted, now + ttl));
      grants := grants + [Grant(owner, granted, epoch)];
      token := Ok(granted);
    }

    method RenewLease(owner: string, token: nat, ttl: int) returns (r: Result<nat, Error>)
      modifies this
      ensures View() == old(Next(View(), Renew(owner, token, ttl)))
      ensures r == old(if Holds(View(), owner, token) then Ok(token) else Err(Error.LeaseLost))
    {
      if lease.Some? && lease.value.owner == owner && lease.value.token == token {
        lease := Some(lease.value.(expires := now + ttl));
        r := Ok(token);
      } else {
        r := Err(Error.LeaseLost);
      }
    }

    method ReleaseLease(owner: string, token: nat) returns (released: bool)
      modifies this
      ensures View() == old(Next(View(), Step.Release(owner, token)))
      ensures released == old(Holds(View(), owner, token))
    {
      released := lease.Some? && lease.value.owner == owner && lease.value.token == token;
      if released {
        lease := None;
        epoch := epoch + 1;
      }
    }

    method WriteStatus(target: RunStatus, expected: nat, token: nat, reached: nat) returns (r: Result<(), Error>)
      modifies this
      ensures View() == old(Next(View(), UpdateStatus(Write(token, expected, target, reached))))
      ensures r == old(Verdict(View(), Write(token, expected, target, reached)))
    {
      if lease.None? || lease.value.token != token {
        return Err(StaleToken);
      }
      if revision != expected {
        return Err(StaleRevision);
      }
      if RunPath(status, target).Err? {
        return Err(IllegalStatus);
      }
      status := target;
      revision := revision + 1;
      if reached > revision {
        revision := reached;
      }
      writes := writes + [Write(token, expected, target, reached)];
      r := Ok(());
    }
  }
}
