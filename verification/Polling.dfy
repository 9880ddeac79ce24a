/**
 The data-fetching hook with its polling chain: effect cycles, timers, requests in flight, visibility of the
 tab and cancellation, under every interleaving of those events.
 */
module Polling {
  import opened Base

  /** One run of the fetch effect; `shown` counts the returns to a visible tab it saw while live. */
  datatype Cycle = Cycle(poll: bool, cancelled: bool, timer: bool, hasData: bool, shown: nat)

  /** Requests are numbered in the order they are issued. */
  datatype Request = Request(id: nat, cycle: nat, background: bool)

  datatype Hook = Hook(
    cycles: seq<Cycle>,
    visible: bool,
    inflight: set<Request>,
    nextId: nat,
    loading: bool,
    error: bool,
    updatedAt: Option<int>,
    updates: seq<Request>)   // the requests whose result was written to `data`, in order

  /** The request whose result is on the screen. */
  function Data(h: Hook): Option<Request> {
    if h.updates == [] then None else Some(h.updates[|h.updates| - 1])
  }

  datatype Event =
    | Restart(poll: bool)                 // mount, changed dependencies or reload()
    | Unmount
    | Fires(cycle: nat)                   // the timer of a cycle elapses
    | Succeeds(request: Request, now: int)
    | Fails(request: Request)
    | Visibility(visible: bool)

  const Fresh: Hook := Hook([], true, {}, 0, true, false, None, [])

  function ArmPolling(h: Hook, c: nat): Hook
    requires c < |h.cycles|
  {
    var k := h.cycles[c];
    if !k.poll || k.cancelled || !h.visible then h else h.(cycles := h.cycles[c := k.(timer := true)])
  }

  function Refresh(h: Hook, c: nat, background: bool): Hook {
    h.(inflight := h.inflight + {Request(h.nextId, c, background)}, nextId := h.nextId + 1)
  }

  function CleanUp(h: Hook): Hook {
    if h.cycles == [] then h
    else
      var last := |h.cycles| - 1;
      h.(cycles := h.cycles[last := h.cycles[last].(cancelled := true, timer := false)])
  }

  function RestartStep(h: Hook, poll: bool): Hook {
    var h' := CleanUp(h);
    Refresh(h'.(cycles := h'.cycles + [Cycle(poll, false, false, false, 0)]), |h'.cycles|, false)
  }

  function FiresStep(h: Hook, c: nat): Hook {
    if c >= |h.cycles| || !h.cycles[c].timer then h
    else
      var h' := h.(cycles := h.cycles[c := h.cycles[c].(timer := false)]);
      if !h.cycles[c].cancelled && h.visible then Refresh(h', c, true) else h'
  }

  function SucceedsStep(h: Hook, r: Request, now: int): Hook {
    if r !in h.inflight || r.cycle >= |h.cycles| then h
    else
      var h' := h.(inflight := h.inflight - {r});
      if h.cycles[r.cycle].cancelled then h'
      else ArmPolling(h'.(cycles := h.cycles[r.cycle := h.cycles[r.cycle].(hasData := true)],
                          loading := false, error := false, updatedAt := Some(now), updates := h.updates + [r]),
                      r.cycle)
  }

  function FailsStep(h: Hook, r: Request): Hook {
    if r !in h.inflight || r.cycle >= |h.cycles| then h
    else
      var h' := h.(inflight := h.inflight - {r});
      if h.cycles[r.cycle].cancelled then h'
      else if h.cycles[r.cycle].hasData then (if r.background then ArmPolling(h', r.cycle) else h')
      else h'.(error := true, loading := false)
  }

  /** The tab changes state and the listener of the live cycle, if it polls, runs. */
  function VisibilityStep(h: Hook, visible: bool): Hook {
    if visible == h.visible then h
    else
      var h' := h.(visible := visible);
      if h.cycles == [] then h'
      else
        var last := |h.cycles| - 1;
        var k := h.cycles[last];
        if k.cancelled || !k.poll then h'
        else if !visible then h'.(cycles := h.cycles[last := k.(timer := false)])
        else Refresh(h'.(cycles := h.cycles[last := k.(timer := false, shown := k.shown + 1)]), last, true)
  }

  function Next(h: Hook, e: Event): Hook {
    match e
    case Restart(poll) => RestartStep(h, poll)
    case Unmount => CleanUp(h)
    case Fires(c) => FiresStep(h, c)
    case Succeeds(r, now) => SucceedsStep(h, r, now)
    case Fails(r) => FailsStep(h, r)
    case Visibility(visible) => VisibilityStep(h, visible)
  }

  function Run(events: seq<Event>): Hook {
    if events == [] then Fresh else Next(Run(events[..|events| - 1]), events[|events| - 1])
  }

  // ----- the invariant

  ghost predicate Live(h: Hook) {
    h.cycles != [] && !h.cycles[|h.cycles| - 1].cancelled
  }

  /** The cycle that may still write, when one does. */
  ghost function Last(h: Hook): Cycle
    requires h.cycles != []
  {
    h.cycles[|h.cycles| - 1]
  }

  ghost function InFlight(h: Hook): set<Request> {
    set r | r in h.inflight && r.cycle == |h.cycles| - 1
  }

  function Timers(k: Cycle): nat { if k.timer then 1 else 0 }

  ghost predicate OnlyLastLives(h: Hook) {
    && (forall c :: 0 <= c < |h.cycles| - 1 ==> h.cycles[c].cancelled)
    && (forall c :: 0 <= c < |h.cycles| && h.cycles[c].timer ==>
          !h.cycles[c].cancelled && h.cycles[c].poll && h.cycles[c].hasData && h.visible)
  }

  ghost predicate RequestsOk(h: Hook) {
    && (forall r :: r in h.inflight ==> r.id < h.nextId && r.cycle < |h.cycles|)
    && (forall r :: r in h.updates ==> r.id < h.nextId && r.cycle < |h.cycles|)
  }

  ghost predicate BackgroundInFlight(h: Hook) {
    exists r :: r in InFlight(h) && r.background
  }

  /** The polling chain has a next link. */
  ghost predicate Alive(h: Hook) {
    Live(h) && Last(h).poll && h.visible && Last(h).hasData ==> Last(h).timer || BackgroundInFlight(h)
  }

  ghost predicate Bounded(h: Hook) {
    Live(h) ==> |InFlight(h)| + Timers(Last(h)) <= 1 + Last(h).shown
  }

  /** Issued in this order, unless their common cycle saw a return to visible. */
  ghost predicate InOrder(h: Hook, first: Request, second: Request) {
    first.id < second.id
    || (first.cycle == second.cycle < |h.cycles| && h.cycles[first.cycle].shown >= 1)
  }

  ghost predicate Ordered(h: Hook) {
    forall i, j :: 0 <= i < j < |h.updates| ==> InOrder(h, h.updates[i], h.updates[j])
  }

  ghost predicate FlightAfterUpdates(h: Hook) {
    Live(h) ==> forall u, r :: u in h.updates && r in InFlight(h) ==> InOrder(h, u, r)
  }

  ghost predicate Screen(h: Hook) {
    && (Live(h) && Last(h).hasData ==> !h.error)
    && (h.updates != [] ==> !h.loading && h.updatedAt.Some?)
    && (forall c :: 0 <= c < |h.cycles| && h.cycles[c].hasData ==> h.updates != [])
  }

  ghost predicate Inv(h: Hook) {
    && OnlyLastLives(h) && RequestsOk(h) && Alive(h) && Bounded(h)
    && Ordered(h) && FlightAfterUpdates(h) && Screen(h)
  }

  // ----- each event keeps it

  lemma {:induction false} FlightGains(h: Hook, h': Hook, r: Request)
    requires |h'.cycles| == |h.cycles| && h'.inflight == h.inflight + {r} && r !in h.inflight
    requires r.cycle == |h.cycles| - 1
    ensures InFlight(h') == InFlight(h) + {r} && |InFlight(h')| == |InFlight(h)| + 1
  {
    assert InFlight(h') == InFlight(h) + {r};
  }

  lemma {:induction false} FlightLoses(h: Hook, h': Hook, r: Request)
    requires |h'.cycles| == |h.cycles| && h'.inflight == h.inflight - {r} && r in h.inflight
    ensures InFlight(h') == InFlight(h) - {r}
    ensures r.cycle == |h.cycles| - 1 ==> |InFlight(h')| == |InFlight(h)| - 1
    ensures r.cycle != |h.cycles| - 1 ==> InFlight(h') == InFlight(h)
  {
    assert InFlight(h') == InFlight(h) - {r};
    if r.cycle == |h.cycles| - 1 {
      assert r in InFlight(h);
    }
  }

  /** Updates keep their order as long as no count of returns drops. */
  lemma {:induction false} OrderCarriesOver(h: Hook, h': Hook)
    requires Ordered(h) && h'.updates == h.updates && |h'.cycles| >= |h.cycles|
    requires forall c :: 0 <= c < |h.cycles| ==> h'.cycles[c].shown >= h.cycles[c].shown
    ensures Ordered(h')
  {
    forall i, j | 0 <= i < j < |h.updates| ensures InOrder(h', h.updates[i], h.updates[j]) {
      assert InOrder(h, h.updates[i], h.updates[j]);
    }
  }

  lemma {:induction false} CleanUpKeeps(h: Hook)
    requires Inv(h)
    ensures Inv(CleanUp(h)) && !Live(CleanUp(h))
  {
    OrderCarriesOver(h, CleanUp(h));
  }

  lemma {:induction false} NewCycleKeeps(h: Hook, poll: bool)
    requires Inv(h) && !Live(h)
    ensures Inv(Refresh(h.(cycles := h.cycles + [Cycle(poll, false, false, false, 0)]), |h.cycles|, false))
  {
    var h' := Refresh(h.(cycles := h.cycles + [Cycle(poll, false, false, false, 0)]), |h.cycles|, false);
    OrderCarriesOver(h, h');
    OnlyFirstFetch(h, h', Request(h.nextId, |h.cycles|, false));
    forall c | 0 <= c < |h'.cycles| - 1 ensures h'.cycles[c].cancelled {
      assert h'.cycles[c] == h.cycles[c];
    }
  }

  lemma {:induction false} OnlyFirstFetch(h: Hook, h': Hook, r: Request)
    requires forall q :: q in h.inflight ==> q.cycle < |h.cycles|
    requires |h'.cycles| == |h.cycles| + 1 && h'.inflight == h.inflight + {r} && r.cycle == |h.cycles|
    ensures InFlight(h') == {r}
  {
  }

  lemma {:induction false} RestartKeeps(h: Hook, poll: bool)
    requires Inv(h)
    ensures Inv(RestartStep(h, poll))
  {
    CleanUpKeeps(h);
    NewCycleKeeps(CleanUp(h), poll);
  }

  /** The live cycle issues a background request; `n` is its new count of returns to visible. */
  ghost function RefreshLast(h: Hook, visible: bool, n: nat): Hook
    requires h.cycles != []
  {
    var last := |h.cycles| - 1;
    Refresh(h.(visible := visible, cycles := h.cycles[last := Last(h).(timer := false, shown := n)]), last, true)
  }

  /** A new request of the live cycle that replaces its timer, or adds to the returns, keeps the invariant. */
  lemma {:induction false} RefreshKeeps(h: Hook, h': Hook)
    requires Inv(h) && Live(h) && h'.visible
    requires var last := |h.cycles| - 1;
             exists n: nat :: h' == RefreshLast(h, h'.visible, n) && n + Timers(Last(h)) == Last(h).shown + 1
    ensures Inv(h')
  {
    var r := Request(h.nextId, |h.cycles| - 1, true);
    OrderCarriesOver(h, h');
    FlightGains(h, h', r);
    assert r in InFlight(h');
    forall u, q | u in h'.updates && q in InFlight(h') ensures InOrder(h', u, q) {
      if q != r { assert InOrder(h, u, q); }
    }
  }

  lemma {:induction false} FiresKeeps(h: Hook, c: nat)
    requires Inv(h)
    ensures Inv(FiresStep(h, c))
  {
    if c < |h.cycles| && h.cycles[c].timer {
      var h' := FiresStep(h, c);
      assert c == |h.cycles| - 1;
      assert h' == RefreshLast(h, h'.visible, Last(h).shown);
      RefreshKeeps(h, h');
    }
  }

  /** A settled request leaves the flight. */
  ghost function Landed(h: Hook, r: Request): Hook { h.(inflight := h.inflight - {r}) }

  /** In a cycle without a return to visible, a request in flight is alone and no timer is pending. */
  lemma {:induction false} SoleRequest(h: Hook, r: Request)
    requires Inv(h) && Live(h) && r in InFlight(h) && Last(h).shown == 0
    ensures InFlight(h) == {r} && !Last(h).timer
  {
    var rest := InFlight(h) - {r};
    assert |rest| == |InFlight(h)| - 1;
    assert rest == {};
  }

  /** A request of a cancelled cycle settles: nothing but the flight changes. */
  lemma {:induction false} StaleKeeps(h: Hook, r: Request)
    requires Inv(h) && r in h.inflight && h.cycles[r.cycle].cancelled
    ensures Inv(Landed(h, r))
  {
    var h' := Landed(h, r);
    FlightLoses(h, h', r);
    OrderCarriesOver(h, h');
    if Live(h) {
      assert InFlight(h') == InFlight(h);
      forall u, q | u in h'.updates && q in InFlight(h') ensures InOrder(h', u, q) {
        assert InOrder(h, u, q);
      }
    }
  }

  lemma {:induction false} WriteKeepsOrder(h: Hook, r: Request, h': Hook)
    requires Inv(h) && Live(h) && r in InFlight(h)
    requires h'.updates == h.updates + [r] && |h'.cycles| == |h.cycles| && h'.inflight == h.inflight - {r}
    requires forall c :: 0 <= c < |h.cycles| ==> h'.cycles[c].shown == h.cycles[c].shown
    requires Live(h')
    ensures Ordered(h') && FlightAfterUpdates(h')
  {
    forall i, j | 0 <= i < j < |h'.updates| ensures InOrder(h', h'.updates[i], h'.updates[j]) {
      if j < |h.updates| {
        assert InOrder(h, h.updates[i], h.updates[j]);
      } else {
        assert h.updates[i] in h.updates;
        assert InOrder(h, h.updates[i], r);
      }
    }
    FlightLoses(h, h', r);
    forall u, q | u in h'.updates && q in InFlight(h') ensures InOrder(h', u, q) {
      if u in h.updates {
        assert InOrder(h, u, q);
      } else if Last(h).shown == 0 {
        SoleRequest(h, r);
      }
    }
  }

  lemma {:induction false} SucceedsKeeps(h: Hook, r: Request, now: int)
    requires Inv(h)
    ensures Inv(SucceedsStep(h, r, now))
  {
    if r in h.inflight {
      var h' := SucceedsStep(h, r, now);
      if h.cycles[r.cycle].cancelled {
        StaleKeeps(h, r);
      } else {
        assert r in InFlight(h);
        WriteKeepsOrder(h, r, h');
        FlightLoses(h, h', r);
      }
    }
  }

  lemma {:induction false} FailsKeeps(h: Hook, r: Request)
    requires Inv(h)
    ensures Inv(FailsStep(h, r))
  {
    if r in h.inflight {
      var h' := FailsStep(h, r);
      if h.cycles[r.cycle].cancelled {
        StaleKeeps(h, r);
      } else {
        FlightLoses(h, h', r);
        OrderCarriesOver(h, h');
        forall u, q | u in h'.updates && q in InFlight(h') ensures InOrder(h', u, q) {
          assert InOrder(h, u, q);
        }
        if BackgroundInFlight(h) && !r.background {
          var b :| b in InFlight(h) && b.background;
          assert b in InFlight(h');
        }
      }
    }
  }

  lemma {:induction false} HideKeeps(h: Hook)
    requires Inv(h)
    ensures Inv(VisibilityStep(h, false))
  {
    var h' := VisibilityStep(h, false);
    OrderCarriesOver(h, h');
    assert InFlight(h') == InFlight(h);
    forall u, q | Live(h) && u in h'.updates && q in InFlight(h') ensures InOrder(h', u, q) {
      assert InOrder(h, u, q);
    }
  }

  lemma {:induction false} ShowKeeps(h: Hook)
    requires Inv(h)
    ensures Inv(VisibilityStep(h, true))
  {
    var h' := VisibilityStep(h, true);
    if !h.visible && Live(h) && Last(h).poll {
      var last := |h.cycles| - 1;
      assert h' == RefreshLast(h, h'.visible, Last(h).shown + 1);
      RefreshKeeps(h, h');
    } else {
      OrderCarriesOver(h, h');
      assert InFlight(h') == InFlight(h);
      forall u, q | Live(h) && u in h'.updates && q in InFlight(h') ensures InOrder(h', u, q) {
        assert InOrder(h, u, q);
      }
    }
  }

  lemma {:induction false} NextKeeps(h: Hook, e: Event)
    requires Inv(h)
    ensures Inv(Next(h, e))
  {
    match e
    case Restart(poll) => RestartKeeps(h, poll);
    case Unmount => CleanUpKeeps(h);
    case Fires(c) => FiresKeeps(h, c);
    case Succeeds(r, now) => SucceedsKeeps(h, r, now);
    case Fails(r) => FailsKeeps(h, r);
    case Visibility(visible) => if visible { ShowKeeps(h); } else { HideKeeps(h); }
  }

  lemma {:induction false} RunKeeps(events: seq<Event>)
    ensures Inv(Run(events))
  {
    if events != [] {
      RunKeeps(events[..|events| - 1]);
      NextKeeps(Run(events[..|events| - 1]), events[|events| - 1]);
    }
  }

  // ----- what holds in every state a run can reach

  ghost predicate Reachable(h: Hook) {
    exists events :: Run(events) == h
  }

  lemma {:induction false} ReachableInv(h: Hook)
    requires Reachable(h)
    ensures Inv(h)
  {
    var events :| Run(events) == h;
    RunKeeps(events);
  }

  /** A visible, polling, live cycle that ever succeeded has its next refresh pending or under way. */
  lemma {:induction false} NeverDies(h: Hook)
    requires Reachable(h)
    requires h.visible && Live(h) && Last(h).poll && Last(h).hasData
    ensures Last(h).timer || exists r :: r in h.inflight && r.cycle == |h.cycles| - 1 && r.background
  {
    ReachableInv(h);
    if BackgroundInFlight(h) {
      var r :| r in InFlight(h) && r.background;
      assert r in h.inflight && r.cycle == |h.cycles| - 1 && r.background;
    }
  }

  /** Requests in flight and the pending timer of the live cycle, against the returns it saw. */
  lemma {:induction false} OverlapBound(h: Hook)
    requires Reachable(h) && Live(h)
    ensures |set r | r in h.inflight && r.cycle == |h.cycles| - 1| + Timers(Last(h)) <= 1 + Last(h).shown
  {
    ReachableInv(h);
    assert InFlight(h) == set r | r in h.inflight && r.cycle == |h.cycles| - 1;
  }

  /** One mount, then a tab hidden and shown `n` times while nothing settles. */
  function Flips(n: nat): seq<Event> {
    if n == 0 then [Restart(true)] else Flips(n - 1) + [Visibility(false), Visibility(true)]
  }

  ghost predicate Piled(h: Hook, n: nat) {
    && |h.cycles| == 1 && Live(h) && Last(h).poll && Last(h).shown == n && h.visible && h.nextId == n + 1
    && |h.inflight| == n + 1
    && forall r :: r in h.inflight ==> r.cycle == 0 && r.id < h.nextId
  }

  /** One flip of the tab adds one request to the live cycle and settles none. */
  lemma {:induction false} FlipAddsRequest(h: Hook, n: nat)
    requires Piled(h, n)
    ensures Piled(VisibilityStep(VisibilityStep(h, false), true), n + 1)
  {
    var hidden := VisibilityStep(h, false);
    assert hidden.inflight == h.inflight && hidden.nextId == h.nextId && Last(hidden) == Last(h).(timer := false);
    var r := Request(h.nextId, |h.cycles| - 1, true);
    assert r !in h.inflight;
  }

  lemma {:induction false} RunAppendsTwo(events: seq<Event>, e: Event, f: Event)
    ensures Run(events + [e, f]) == Next(Next(Run(events), e), f)
  {
    var all := events + [e, f];
    assert all[..|all| - 1] == events + [e];
    assert (events + [e])[..|events|] == events;
  }

  lemma {:induction false} PileGrows(events: seq<Event>, n: nat)
    requires Piled(Run(events), n)
    ensures Piled(Run(events + [Visibility(false), Visibility(true)]), n + 1)
  {
    RunAppendsTwo(events, Visibility(false), Visibility(true));
    FlipAddsRequest(Run(events), n);
  }

  lemma {:induction false} MountPiles()
    ensures Piled(Run([Restart(true)]), 0)
  {
    var events := [Restart(true)];
    assert events[..0] == [];
    assert Run(events) == RestartStep(Fresh, true);
  }

  /** The bound is reached for every number of returns: `n` of them put `n + 1` requests in flight. */
  lemma {:induction false} OverlapBoundIsReached(n: nat)
    ensures Piled(Run(Flips(n)), n)
  {
    if n == 0 {
      MountPiles();
    } else {
      OverlapBoundIsReached(n - 1);
      PileGrows(Flips(n - 1), n - 1);
    }
  }

  ghost predicate NoReturnIn(h: Hook, c: nat) {
    c < |h.cycles| && h.cycles[c].shown == 0
  }

  /** Without a return to visible in its cycle, what is on the screen was issued after all that was there before. */
  lemma {:induction false} DataIsNewest(h: Hook)
    requires Reachable(h) && h.updates != [] && NoReturnIn(h, h.updates[|h.updates| - 1].cycle)
    ensures forall i :: 0 <= i < |h.updates| - 1 ==> h.updates[i].id < h.updates[|h.updates| - 1].id
  {
    ReachableInv(h);
    var last := |h.updates| - 1;
    forall i | 0 <= i < last ensures h.updates[i].id < h.updates[last].id {
      assert InOrder(h, h.updates[i], h.updates[last]);
    }
  }

  /** A live polling tab that is hidden and shown again has one more request in flight, a background one. */
  lemma {:induction false} ShownAgain(h: Hook)
    requires h.visible && Live(h) && Last(h).poll
    ensures var back := Next(Next(h, Visibility(false)), Visibility(true));
            && |back.cycles| == |h.cycles| && back.visible && Live(back) && Last(back).poll
            && back.inflight == h.inflight + {Request(h.nextId, |h.cycles| - 1, true)} && back.updates == h.updates
  {
    var hidden := VisibilityStep(h, false);
    assert |hidden.cycles| == |h.cycles| && !hidden.visible && Live(hidden) && Last(hidden).poll;
  }

  /** A success of the live cycle lands. */
  lemma {:induction false} Lands(h: Hook, r: Request, t: int)
    requires Live(h) && r in h.inflight && r.cycle == |h.cycles| - 1
    ensures var h' := Next(h, Succeeds(r, t));
            && |h'.cycles| == |h.cycles| && Live(h') && Last(h').hasData && !h'.error
            && (Last(h').timer <==> (Last(h).poll && h.visible) || Last(h).timer)
            && h'.inflight == h.inflight - {r} && h'.updates == h.updates + [r]
  {
  }

  /** One return is enough to lose that: whatever is in flight can land after the refresh the return issues. */
  lemma {:induction false} OvertakenAfterReturn(h: Hook, r: Request, t: int, t': int)
    requires Reachable(h)
    requires h.visible && Live(h) && Last(h).poll && r in h.inflight && r.cycle == |h.cycles| - 1
    ensures var newer := Request(h.nextId, |h.cycles| - 1, true);
            var back := Next(Next(h, Visibility(false)), Visibility(true));
            var late := Next(Next(back, Succeeds(newer, t)), Succeeds(r, t'));
            late.updates == h.updates + [newer, r] && r.id < newer.id
  {
    ReachableInv(h);
    var newer := Request(h.nextId, |h.cycles| - 1, true);
    var back := Next(Next(h, Visibility(false)), Visibility(true));
    ShownAgain(h);
    Lands(back, newer, t);
    Lands(Next(back, Succeeds(newer, t)), r, t');
  }

  /** While the tab stays hidden no timer is pending and only the first fetch of a new cycle is issued. */
  lemma {:induction false} HiddenTabIsQuiet(h: Hook, e: Event)
    requires Reachable(h) && !h.visible && !Next(h, e).visible
    ensures forall c :: 0 <= c < |h.cycles| ==> !h.cycles[c].timer
    ensures forall r :: r in Next(h, e).inflight && r !in h.inflight ==> e.Restart? && !r.background
  {
    ReachableInv(h);
  }

  /** The chain of a live polling cycle is off: it never succeeded, and nothing of it is pending or under way. */
  ghost predicate Off(h: Hook) {
    Live(h) && Last(h).poll && !Last(h).hasData && !Last(h).timer && InFlight(h) == {}
  }

  /** What ends that: a restart, an unmount, or a hidden tab that becomes visible. */
  predicate Wakes(h: Hook, e: Event) {
    e.Restart? || e.Unmount? || (e == Visibility(true) && !h.visible)
  }

  lemma {:induction false} WakesUp(h: Hook, e: Event)
    requires Inv(h) && Off(h) && Wakes(h, e)
    ensures !Off(Next(h, e))
  {
    var h' := Next(h, e);
    if e.Restart? {
      assert Request(h.nextId, |h.cycles|, false) in InFlight(h');
    } else if e.Visibility? {
      assert Request(h.nextId, |h.cycles| - 1, true) in InFlight(h');
    }
  }

  lemma {:induction false} StaysOff(h: Hook, e: Event)
    requires Inv(h) && Off(h) && !Wakes(h, e)
    ensures Off(Next(h, e)) && Next(h, e).inflight <= h.inflight && Next(h, e).updates == h.updates
  {
    var h' := Next(h, e);
    if e.Succeeds? || e.Fails? {
      if e.request in h.inflight {
        assert e.request !in InFlight(h);
        assert h' == h.(inflight := h.inflight - {e.request});
      }
    } else if e.Visibility? {
      assert h'.inflight == h.inflight && h'.updates == h.updates;
    } else {
      assert h' == h;
    }
    assert InFlight(h') <= InFlight(h);
  }

  /** In a reachable state the chain stays off under exactly the events that do not wake it. */
  lemma {:induction false} OffExactly(h: Hook, e: Event)
    requires Reachable(h) && Off(h)
    ensures Off(Next(h, e)) <==> !Wakes(h, e)
  {
    ReachableInv(h);
    if Wakes(h, e) {
      WakesUp(h, e);
    } else {
      StaysOff(h, e);
    }
  }

  /** No event of `more` wakes the chain. */
  ghost predicate Undisturbed(before: seq<Event>, more: seq<Event>) {
    forall k :: 0 <= k < |more| ==> !Wakes(Run(before + more[..k]), more[k])
  }

  /** Over any number of such events nothing is fetched and nothing changes on the screen. */
  lemma {:induction false} OffUntilWoken(before: seq<Event>, more: seq<Event>)
    requires Off(Run(before)) && Undisturbed(before, more)
    ensures Off(Run(before + more)) && Run(before + more).updates == Run(before).updates
    ensures Run(before + more).inflight <= Run(before).inflight
  {
    if more == [] {
      assert before + more == before;
    } else {
      var n := |more| - 1;
      UndisturbedInit(before, more);
      OffUntilWoken(before, more[..n]);
      RunSplits(before, more);
      RunKeeps(before + more[..n]);
      StaysOff(Run(before + more[..n]), more[n]);
    }
  }

  lemma {:induction false} UndisturbedInit(before: seq<Event>, more: seq<Event>)
    requires more != [] && Undisturbed(before, more)
    ensures Undisturbed(before, more[..|more| - 1])
  {
    var init := more[..|more| - 1];
    forall k | 0 <= k < |init| ensures !Wakes(Run(before + init[..k]), init[k]) {
      assert init[..k] == more[..k] && init[k] == more[k];
    }
  }

  /** The shortest run into that state: the first fetch fails. */
  lemma {:induction false} LostInitialLoad()
    ensures var h := Run([Restart(true), Fails(Request(0, 0, false))]);
            Reachable(h) && Off(h) && h.visible && h.error && !h.loading
  {
    var first, events := [Restart(true)], [Restart(true), Fails(Request(0, 0, false))];
    assert first[..0] == [] && events[..1] == first;
    var mounted := RestartStep(Fresh, true);
    assert Run(first) == Next(Run([]), first[0]) == mounted;
    assert Request(0, 0, false) in mounted.inflight;
    assert Run(events) == FailsStep(mounted, Request(0, 0, false));
    assert mounted.inflight == {Request(0, 0, false)};
  }

  /** From there the next return to visible fetches, and a success starts the chain again. */
  lemma {:induction false} ReturnRevivesTheChain(h: Hook, t: int)
    requires Reachable(h) && h.visible && Off(h)
    ensures var back := Next(Next(h, Visibility(false)), Visibility(true));
            var settled := Next(back, Succeeds(Request(h.nextId, |h.cycles| - 1, true), t));
            Last(settled).hasData && Last(settled).timer && !settled.error
  {
    ShownAgain(h);
    Lands(Next(Next(h, Visibility(false)), Visibility(true)), Request(h.nextId, |h.cycles| - 1, true), t);
  }

  /** Over all cycles together at most one timer is pending, and it belongs to the cycle that was not cleaned up. */
  lemma {:induction false} OneTimerOverall(h: Hook, c: nat, d: nat)
    requires Reachable(h)
    requires c < |h.cycles| && d < |h.cycles| && h.cycles[c].timer && h.cycles[d].timer
    ensures c == d == |h.cycles| - 1 && !h.cycles[c].cancelled && h.visible
  {
    ReachableInv(h);
  }

  /** An error is shown only while the live cycle has never succeeded. */
  lemma {:induction false} NoErrorOverData(h: Hook)
    requires Reachable(h) && Live(h) && Last(h).hasData
    ensures !h.error && Data(h).Some? && !h.loading
  {
    ReachableInv(h);
  }

  // ----- what the callers asked for

  /** What each restart of the run said about polling, in order. */
  function Asked(events: seq<Event>): seq<bool> {
    if events == [] then []
    else
      var last := events[|events| - 1];
      Asked(events[..|events| - 1]) + if last.Restart? then [last.poll] else []
  }

  /** Each restart begins one cycle, and the cycle polls exactly if the restart said so. */
  lemma {:induction false} CyclesAsAsked(events: seq<Event>)
    ensures |Run(events).cycles| == |Asked(events)|
    ensures forall c :: 0 <= c < |Asked(events)| ==> Run(events).cycles[c].poll == Asked(events)[c]
  {
    if events != [] {
      var init, last := events[..|events| - 1], events[|events| - 1];
      CyclesAsAsked(init);
      StepKeepsAsked(Run(init), last);
      assert Asked(events) == Asked(init) + if last.Restart? then [last.poll] else [];
    }
  }

  lemma {:induction false} StepKeepsAsked(h: Hook, e: Event)
    ensures var h' := Next(h, e);
            && |h'.cycles| == |h.cycles| + (if e.Restart? then 1 else 0)
            && (forall c :: 0 <= c < |h.cycles| ==> h'.cycles[c].poll == h.cycles[c].poll)
            && (e.Restart? ==> h'.cycles[|h.cycles|].poll == e.poll)
  {
    match e
    case Restart(_) =>
    case Unmount =>
    case Fires(_) =>
    case Succeeds(_, _) =>
    case Fails(_) =>
    case Visibility(_) =>
  }

  /** Only polling cycles have a timer or issue background requests. */
  ghost predicate OnlyPollersPoll(h: Hook) {
    && (forall c :: 0 <= c < |h.cycles| && h.cycles[c].timer ==> h.cycles[c].poll)
    && (forall r :: r in h.inflight && r.background ==> r.cycle < |h.cycles| && h.cycles[r.cycle].poll)
    && (forall r :: r in h.updates && r.background ==> r.cycle < |h.cycles| && h.cycles[r.cycle].poll)
  }

  lemma {:induction false} StepKeepsPollers(h: Hook, e: Event)
    requires OnlyPollersPoll(h)
    ensures OnlyPollersPoll(Next(h, e))
  {
    StepKeepsAsked(h, e);
    TimersWherePolling(h, e);
    RequestsWherePolling(h, e);
  }

  lemma {:induction false} TimersWherePolling(h: Hook, e: Event)
    requires forall c :: 0 <= c < |h.cycles| && h.cycles[c].timer ==> h.cycles[c].poll
    ensures forall c :: 0 <= c < |Next(h, e).cycles| && Next(h, e).cycles[c].timer ==> Next(h, e).cycles[c].poll
  {
    match e
    case Restart(_) =>
    case Unmount =>
    case Fires(_) =>
    case Succeeds(_, _) =>
    case Fails(_) =>
    case Visibility(_) =>
  }

  /** A new background request belongs to a polling cycle, and only what was in flight is shown. */
  lemma {:induction false} RequestsWherePolling(h: Hook, e: Event)
    requires forall c :: 0 <= c < |h.cycles| && h.cycles[c].timer ==> h.cycles[c].poll
    ensures forall r :: r in Next(h, e).inflight && r !in h.inflight && r.background ==>
              r.cycle < |h.cycles| && h.cycles[r.cycle].poll
    ensures forall r :: r in Next(h, e).updates ==> r in h.updates || r in h.inflight
  {
    match e
    case Restart(_) =>
    case Unmount =>
    case Fires(_) =>
    case Succeeds(_, _) =>
    case Fails(_) =>
    case Visibility(_) =>
  }

  /** A page that does not poll never does, whatever happens to its tab: no timer, and no fetch but the first. */
  lemma {:induction false} QuietUnlessAsked(events: seq<Event>, c: nat)
    requires c < |Asked(events)| && !Asked(events)[c]
    ensures c < |Run(events).cycles| && !Run(events).cycles[c].timer
    ensures forall r :: (r in Run(events).inflight || r in Run(events).updates) && r.cycle == c ==> !r.background
  {
    CyclesAsAsked(events);
    PollersOverRuns(events);
  }

  lemma {:induction false} PollersOverRuns(events: seq<Event>)
    ensures OnlyPollersPoll(Run(events))
  {
    if events != [] {
      PollersOverRuns(events[..|events| - 1]);
      StepKeepsPollers(Run(events[..|events| - 1]), events[|events| - 1]);
    }
  }

  /** The state of the tab as the events tell it. */
  function Shown(events: seq<Event>): bool {
    if events == [] then true
    else if events[|events| - 1].Visibility? then events[|events| - 1].visible
    else Shown(events[..|events| - 1])
  }

  /** How often the tab went from hidden to visible since the last restart. */
  function Returns(events: seq<Event>): nat {
    if events == [] || events[|events| - 1].Restart? then 0
    else
      var init := events[..|events| - 1];
      Returns(init) + if events[|events| - 1] == Visibility(true) && !Shown(init) then 1 else 0
  }

  /** The live cycle saw exactly the returns since it began. */
  lemma {:induction false} ReturnsCounted(events: seq<Event>)
    ensures var h := Run(events);
            h.visible == Shown(events) && (Live(h) && Last(h).poll ==> Last(h).shown == Returns(events))
  {
    if events != [] {
      var init := events[..|events| - 1];
      ReturnsCounted(init);
      RunKeeps(init);
      StepCountsReturns(Run(init), events[|events| - 1]);
    }
  }

  lemma {:induction false} StepCountsReturns(h: Hook, e: Event)
    requires Inv(h)
    ensures var h' := Next(h, e);
            && h'.visible == (if e.Visibility? then e.visible else h.visible)
            && (Live(h') && Last(h').poll && !e.Restart? ==>
                  Live(h) && Last(h).poll
                  && Last(h').shown == Last(h).shown + if e == Visibility(true) && !h.visible then 1 else 0)
            && (e.Restart? ==> Live(h') && Last(h').shown == 0)
  {
    match e
    case Succeeds(r, now) =>
      if r in h.inflight { assert r.cycle < |h.cycles|; }
    case Fails(r) =>
      if r in h.inflight { assert r.cycle < |h.cycles|; }
    case _ =>
  }

  /** The loader shows exactly until the first result or error. */
  lemma {:induction false} LoaderExactly(events: seq<Event>)
    ensures Run(events).loading <==> Run(events).updates == [] && !Run(events).error
  {
    if events != [] {
      LoaderExactly(events[..|events| - 1]);
      StepKeepsLoader(Run(events[..|events| - 1]), events[|events| - 1]);
    }
  }

  lemma {:induction false} StepKeepsLoader(h: Hook, e: Event)
    requires h.loading <==> h.updates == [] && !h.error
    ensures Next(h, e).loading <==> Next(h, e).updates == [] && !Next(h, e).error
  {
  }

  /** The error is cleared by a success of the live cycle, set by its failure without data, and otherwise stays. */
  lemma {:induction false} ErrorMovesExactly(h: Hook, e: Event)
    requires Reachable(h)
    ensures Next(h, e).error <==>
              if e.Succeeds? && Live(h) && e.request in InFlight(h) then false
              else h.error || (e.Fails? && Live(h) && e.request in InFlight(h) && !Last(h).hasData)
  {
    ReachableInv(h);
  }

  // ----- what holds from one state of a run to every later one

  /** The screen never falls back: no loader after the first settle, no lost update, no blank. */
  ghost predicate Forward(h: Hook, h': Hook) {
    && (!h.loading ==> !h'.loading)
    && h.updates <= h'.updates
    && (Data(h).Some? ==> Data(h').Some? && h'.updatedAt.Some?)
  }

  /** Cycle `c` was cleaned up, and since `h` it changed nothing: no timer, no write. */
  ghost predicate Silent(h: Hook, h': Hook, c: nat) {
    && c < |h.cycles| <= |h'.cycles| && h'.cycles[c] == h.cycles[c]
    && h'.cycles[c].cancelled && !h'.cycles[c].timer
    && |h.updates| <= |h'.updates|
    && forall i :: |h.updates| <= i < |h'.updates| ==> h'.updates[i].cycle != c
  }

  /** `data` and `updatedAt` change together, and only when a request of the live cycle succeeds. */
  lemma {:induction false} OnlySuccessUpdates(h: Hook, e: Event)
    requires Reachable(h)
    ensures var h' := Next(h, e);
            if h'.updates == h.updates then h'.updatedAt == h.updatedAt
            else e.Succeeds? && e.request in InFlight(h) && Live(h)
                 && h'.updates == h.updates + [e.request] && h'.updatedAt == Some(e.now)
  {
    ReachableInv(h);
    if e.Succeeds? && e.request in h.inflight {
      assert e.request.cycle < |h.cycles|;
    }
  }

  /**
   A failed fetch never touches the data; it shows an error exactly if the live cycle has none to show, and it leaves
   every timer alone unless it was a background refresh.
   */
  lemma {:induction false} FailureKeepsTheScreen(h: Hook, r: Request)
    requires Reachable(h) && r in h.inflight
    ensures var h' := Next(h, Fails(r));
            && h'.updates == h.updates && h'.updatedAt == h.updatedAt && h'.inflight == h.inflight - {r}
            && (h'.error <==> h.error || (Live(h) && r in InFlight(h) && !Last(h).hasData))
            && (!r.background ==> h'.cycles == h.cycles)
  {
    ReachableInv(h);
  }

  lemma {:induction false} StepForward(h: Hook, e: Event)
    requires Inv(h) && Inv(Next(h, e))
    ensures Forward(h, Next(h, e))
  {
  }

  /** Only the live cycle writes. */
  lemma {:induction false} StepSilent(h: Hook, e: Event, c: nat)
    requires Inv(h) && c < |h.cycles| && h.cycles[c].cancelled
    ensures Silent(h, Next(h, e), c)
  {
    if e.Succeeds? && e.request in h.inflight {
      assert e.request.cycle < |h.cycles|;
    }
  }

  lemma {:induction false} SilentTransitive(h: Hook, h': Hook, h'': Hook, c: nat)
    requires Silent(h, h', c) && Silent(h', h'', c) && h'.updates <= h''.updates
    ensures Silent(h, h'', c)
  {
    forall i | |h.updates| <= i < |h''.updates| ensures h''.updates[i].cycle != c {
      if i < |h'.updates| {
        assert h''.updates[i] == h'.updates[i];
      }
    }
  }

  lemma {:induction false} RunSplits(before: seq<Event>, after: seq<Event>)
    requires after != []
    ensures Run(before + after) == Next(Run(before + after[..|after| - 1]), after[|after| - 1])
  {
    assert (before + after)[..|before + after| - 1] == before + after[..|after| - 1];
  }

  lemma {:induction false} ScreenNeverFallsBack(before: seq<Event>, after: seq<Event>)
    ensures Forward(Run(before), Run(before + after))
  {
    if after == [] {
      assert before + after == before;
      RunKeeps(before);
    } else {
      var last := |after| - 1;
      ScreenNeverFallsBack(before, after[..last]);
      RunSplits(before, after);
      var mid := Run(before + after[..last]);
      RunKeeps(before + after[..last]);
      NextKeeps(mid, after[last]);
      StepForward(mid, after[last]);
    }
  }

  lemma {:induction false} CleanedUpCycleIsSilent(before: seq<Event>, after: seq<Event>, c: nat)
    requires c < |Run(before).cycles| && Run(before).cycles[c].cancelled
    ensures Silent(Run(before), Run(before + after), c)
  {
    if after == [] {
      assert before + after == before;
      RunKeeps(before);
    } else {
      var last := |after| - 1;
      CleanedUpCycleIsSilent(before, after[..last], c);
      RunSplits(before, after);
      var mid := Run(before + after[..last]);
      RunKeeps(before + after[..last]);
      StepSilent(mid, after[last], c);
      NextKeeps(mid, after[last]);
      StepForward(mid, after[last]);
      SilentTransitive(Run(before), mid, Next(mid, after[last]), c);
    }
  }

  // ----- the hook itself

  /** The effect closures of the hook: the variables of every cycle and the state they write. */
  class Poller {
    var cycles: seq<Cycle>
    var visible: bool
    var inflight: set<Request>
    var nextId: nat
    var loading: bool
    var error: bool
    var updatedAt: Option<int>
    var updates: seq<Request>

    ghost function View(): Hook
      reads this
    {
      Hook(cycles, visible, inflight, nextId, loading, error, updatedAt, updates)
    }

    constructor ()
      ensures View() == Fresh
    {
      cycles, visible, inflight, nextId := [], true, {}, 0;
      loading, error, updatedAt, updates := true, false, None, [];
    }

    method SetTimer(c: nat, timer: bool)
      requires c < |cycles|
      modifies this
      ensures View() == old(View()).(cycles := old(cycles)[c := old(cycles)[c].(timer := timer)])
    {
      cycles := cycles[c := cycles[c].(timer := timer)];
    }

    method Arm(c: nat)
      requires c < |cycles|
      modifies this
      ensures View() == ArmPolling(old(View()), c)
    {
      if !cycles[c].poll || cycles[c].cancelled || !visible {
        return;
      }
      SetTimer(c, false);
      SetTimer(c, true);
    }

    method Issue(c: nat, background: bool)
      modifies this
      ensures View() == Refresh(old(View()), c, background)
    {
      inflight := inflight + {Request(nextId, c, background)};
      nextId := nextId + 1;
    }

    method Stop()
      modifies this
      ensures View() == CleanUp(old(View()))
    {
      if cycles != [] {
        var last := |cycles| - 1;
        cycles := cycles[last := cycles[last].(cancelled := true)];
        SetTimer(last, false);
      }
    }

    method StartCycle(poll: bool)
      modifies this
      ensures View() == RestartStep(old(View()), poll)
    {
      Stop();
      cycles := cycles + [Cycle(poll, false, false, false, 0)];
      Issue(|cycles| - 1, false);
    }

    method TimerElapsed(c: nat)
      modifies this
      ensures View() == FiresStep(old(View()), c)
    {
      if c < |cycles| && cycles[c].timer {
        SetTimer(c, false);
        if !cycles[c].cancelled && visible {
          Issue(c, true);
        }
      }
    }

    method Resolved(r: Request, now: int)
      modifies this
      ensures View() == SucceedsStep(old(View()), r, now)
    {
      if r !in inflight || r.cycle >= |cycles| {
        return;
      }
      inflight := inflight - {r};
      if cycles[r.cycle].cancelled {
        return;
      }
      cycles := cycles[r.cycle := cycles[r.cycle].(hasData := true)];
      updates := updates + [r];
      error := false;
      loading := false;
      updatedAt := Some(now);
      Arm(r.cycle);
    }

    method Rejected(r: Request)
      modifies this
      ensures View() == FailsStep(old(View()), r)
    {
      if r !in inflight || r.cycle >= |cycles| {
        return;
      }
      inflight := inflight - {r};
      if cycles[r.cycle].cancelled {
        return;
      }
      if cycles[r.cycle].hasData {
        if r.background {
          Arm(r.cycle);
        }
        return;
      }
      error := true;
      loading := false;
    }

    method OnVisibilityChange(now: bool)
      modifies this
      ensures View() == VisibilityStep(old(View()), now)
    {
      if now == visible {
        return;
      }
      visible := now;
      if cycles == [] {
        return;
      }
      var last := |cycles| - 1;
      if cycles[last].cancelled || !cycles[last].poll {
        return;
      }
      if !visible {
        SetTimer(last, false);
      } else {
        cycles := cycles[last := cycles[last].(shown := cycles[last].shown + 1)];
        SetTimer(last, false);
        Issue(last, true);
      }
    }
  }
}
