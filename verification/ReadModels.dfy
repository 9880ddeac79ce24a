/** Insertion-ordered dictionaries, as the read models fill them: a later value replaces an earlier one in place. */
module OrderedDict {
  import opened Base

  type Dict<K, V> = seq<(K, V)>

  function Index<K(==), V>(d: Dict<K, V>, k: K): (i: nat)
    ensures i <= |d|
    ensures i < |d| ==> d[i].0 == k
    ensures forall j :: 0 <= j < i ==> d[j].0 != k
  {
    if d == [] then 0 else if d[0].0 == k then 0 else 1 + Index(d[1..], k)
  }

  function Put<K(==), V>(d: Dict<K, V>, k: K, v: V): Dict<K, V> {
    var i := Index(d, k);
    if i < |d| then d[i := (k, v)] else d + [(k, v)]
  }

  function PutAll<K(==), V>(d: Dict<K, V>, items: seq<(K, V)>): Dict<K, V> {
    if items == [] then d
    else
      var last := items[|items| - 1];
      Put(PutAll(d, items[..|items| - 1]), last.0, last.1)
  }

  /** What filling an empty dictionary with `items` leaves. */
  function Filled<K(==), V>(items: seq<(K, V)>): Dict<K, V> {
    PutAll([], items)
  }

  // ----- the reference: last occurrences, in the order of first occurrences

  function Latest<K(==), V>(items: seq<(K, V)>, k: K): Option<V> {
    if items == [] then None
    else if items[|items| - 1].0 == k then Some(items[|items| - 1].1)
    else Latest(items[..|items| - 1], k)
  }

  predicate Mentions<K(==), V>(items: seq<(K, V)>, k: K) {
    exists i :: 0 <= i < |items| && items[i].0 == k
  }

  /** Position of the first pair with key `k`. */
  ghost predicate FirstAt<K, V>(items: seq<(K, V)>, k: K, i: nat) {
    i < |items| && items[i].0 == k && forall j :: 0 <= j < i ==> items[j].0 != k
  }

  ghost predicate Distinct<K, V>(d: Dict<K, V>) {
    forall i, j :: 0 <= i < j < |d| ==> d[i].0 != d[j].0
  }

  lemma {:induction false} LatestIsLast<K, V>(items: seq<(K, V)>, k: K)
    ensures Latest(items, k).None? <==> !Mentions(items, k)
    ensures Latest(items, k).Some? ==>
              exists i :: 0 <= i < |items| && items[i] == (k, Latest(items, k).value)
                && forall j :: i < j < |items| ==> items[j].0 != k
  {
    if items != [] {
      var n := |items| - 1;
      var init := items[..n];
      if items[n].0 == k {
        assert items[n] == (k, Latest(items, k).value);
      } else {
        LatestIsLast(init, k);
        if Latest(init, k).Some? {
          var i :| 0 <= i < |init| && init[i] == (k, Latest(init, k).value)
                   && forall j :: i < j < |init| ==> init[j].0 != k;
          assert items[i] == (k, Latest(items, k).value);
          assert forall j :: i < j < |items| && j < n ==> items[j] == init[j];
        } else {
          assert forall i :: 0 <= i < n ==> items[i] == init[i];
        }
      }
    }
  }

  lemma {:induction false} PutKeeps<K, V>(d: Dict<K, V>, k: K, v: V)
    requires Distinct(d)
    ensures Distinct(Put(d, k, v)) && Mentions(Put(d, k, v), k)
    ensures forall x :: Mentions(Put(d, k, v), x) <==> x == k || Mentions(d, x)
  {
    var i := Index(d, k);
    var e := Put(d, k, v);
    assert e[i] == (k, v);
    forall x | Mentions(d, x) ensures Mentions(e, x) {
      var j :| 0 <= j < |d| && d[j].0 == x;
      assert e[j].0 == x;
    }
  }

  /** Each key appears once, with its last value. */
  lemma {:induction false} FilledHoldsLatest<K, V>(items: seq<(K, V)>)
    ensures Distinct(Filled(items))
    ensures forall k, v :: (k, v) in Filled(items) <==> Latest(items, k) == Some(v)
  {
    if items != [] {
      var n := |items| - 1;
      var init := items[..n];
      FilledHoldsLatest(init);
      var d := Filled(init);
      var (k, v) := items[n];
      PutKeeps(d, k, v);
      var i := Index(d, k);
      var e := Put(d, k, v);
      forall k', v' ensures (k', v') in e <==> Latest(items, k') == Some(v') {
        if k' == k {
          if (k', v') in e {
            var j :| 0 <= j < |e| && e[j] == (k', v');
            assert j == i;
          }
          assert e[i] == (k, v);
        } else if (k', v') in d {
          var j :| 0 <= j < |d| && d[j] == (k', v');
          assert e[j] == (k', v');
        }
      }
    }
  }

  /** Keys stand in the order of their first occurrences. */
  ghost predicate FirstOrder<K(!new), V>(items: seq<(K, V)>, d: Dict<K, V>) {
    && (forall k :: Mentions(items, k) <==> Mentions(d, k))
    && (forall a, b, i, j :: 0 <= a < b < |d| && FirstAt(items, d[a].0, i) && FirstAt(items, d[b].0, j) ==> i < j)
  }

  lemma {:induction false} FilledInFirstOrder<K(!new), V>(items: seq<(K, V)>)
    ensures FirstOrder(items, Filled(items))
  {
    if items != [] {
      var n := |items| - 1;
      var init := items[..n];
      FilledInFirstOrder(init);
      FilledHoldsLatest(init);
      FirstOrderStep(init, Filled(init), items[n]);
      assert items == init + [items[n]];
    }
  }

  lemma {:induction false} FirstOrderStep<K(!new), V>(items: seq<(K, V)>, d: Dict<K, V>, x: (K, V))
    requires FirstOrder(items, d) && Distinct(d)
    ensures FirstOrder(items + [x], Put(d, x.0, x.1))
  {
    var all := items + [x];
    var e := Put(d, x.0, x.1);
    PutKeeps(d, x.0, x.1);
    forall k ensures Mentions(all, k) <==> Mentions(e, k) {
      MentionsAppend(items, x, k);
    }
    forall a, b, i, j | 0 <= a < b < |e| && FirstAt(all, e[a].0, i) && FirstAt(all, e[b].0, j) ensures i < j {
      MentionedFirst(items, d, a, e[a].0, x, i);
      MentionedFirst(items, d, b, e[b].0, x, j);
    }
  }

  lemma {:induction false} MentionsAppend<K, V>(items: seq<(K, V)>, x: (K, V), k: K)
    ensures Mentions(items + [x], k) <==> Mentions(items, k) || x.0 == k
  {
    var all := items + [x];
    if Mentions(items, k) {
      var i :| 0 <= i < |items| && items[i].0 == k;
      assert all[i].0 == k;
    }
    assert all[|items|] == x;
  }

  /** A key already in the dictionary has its first occurrence among the earlier pairs; a new key has it last. */
  lemma {:induction false} MentionedFirst<K(!new), V>(
    items: seq<(K, V)>, d: Dict<K, V>, a: nat, k: K, x: (K, V), i: nat)
    requires FirstOrder(items, d) && FirstAt(items + [x], k, i)
    requires a < |d| ==> d[a].0 == k
    requires a >= |d| ==> !Mentions(d, k)
    ensures a < |d| ==> FirstAt(items, k, i)
    ensures a >= |d| ==> i == |items|
  {
    var all := items + [x];
    assert forall j :: 0 <= j < |items| ==> all[j] == items[j];
    if a < |d| {
      assert Mentions(d, k);
      var j :| 0 <= j < |items| && items[j].0 == k;
      assert all[j].0 == k;
    }
  }

  // ----- appending

  lemma {:induction false} PutTwice<K, V>(d: Dict<K, V>, k: K, v: V, w: V)
    ensures Put(Put(d, k, v), k, w) == Put(d, k, w)
  {
    var i := Index(d, k);
    var e := Put(d, k, v);
    assert e[i].0 == k;
    assert forall j :: 0 <= j < i ==> e[j] == d[j];
  }

  lemma {:induction false} PutsCommute<K, V>(d: Dict<K, V>, k: K, v: V, k': K, v': V)
    requires k != k' && Mentions(d, k)
    ensures Put(Put(d, k, v), k', v') == Put(Put(d, k', v'), k, v)
  {
    var i, j := Index(d, k), Index(d, k');
    assert i < |d|;
    SameIndex(d, Put(d, k', v'), k);
    SameIndex(d, Put(d, k, v), k');
  }

  /** Writing another key moves no position. */
  lemma {:induction false} SameIndex<K, V>(d: Dict<K, V>, e: Dict<K, V>, k: K)
    requires |d| <= |e| <= |d| + 1 && forall i :: 0 <= i < |d| ==> d[i].0 == e[i].0
    requires |e| == |d| + 1 ==> e[|d|].0 != k
    ensures Index(d, k) < |d| ==> Index(e, k) == Index(d, k)
    ensures Index(d, k) == |d| ==> Index(e, k) == |e|
  {
  }

  lemma {:induction false} PutAllPut<K, V>(d: Dict<K, V>, e: Dict<K, V>, k: K, v: V)
    requires Distinct(e)
    ensures PutAll(d, Put(e, k, v)) == Put(PutAll(d, e), k, v)
  {
    var i := Index(e, k);
    if i == |e| {
      assert Put(e, k, v)[..|e|] == e;
    } else {
      var n := |e| - 1;
      var init, last := e[..n], e[n];
      assert e == init + [last];
      assert Distinct(init);
      if i == n {
        assert Put(e, k, v) == init + [(k, v)] && (init + [(k, v)])[..n] == init;
        PutTwice(PutAll(d, init), k, last.1, v);
      } else {
        PutInside(init, last, k, v);
        PutAllPut(d, init, k, v);
        PutAllMentions(d, init, i);
        PutsCommute(PutAll(d, init), k, v, last.0, last.1);
      }
    }
  }

  /** Replacing a value before the last pair leaves the last pair alone. */
  lemma {:induction false} PutInside<K, V>(init: Dict<K, V>, last: (K, V), k: K, v: V)
    requires Index(init + [last], k) < |init|
    ensures Index(init, k) == Index(init + [last], k) && init[Index(init, k)].0 == k
    ensures Put(init + [last], k, v)[..|init|] == Put(init, k, v)
    ensures |Put(init + [last], k, v)| == |init| + 1 && Put(init + [last], k, v)[|init|] == last
  {
    var e := init + [last];
    var i := Index(e, k);
    assert init[i] == e[i];
    assert forall j :: 0 <= j < |init| ==> init[j] == e[j];
  }

  lemma {:induction false} PutAllConcat<K, V>(d: Dict<K, V>, xs: seq<(K, V)>, ys: seq<(K, V)>)
    ensures PutAll(d, xs + ys) == PutAll(PutAll(d, xs), ys)
  {
    if ys == [] {
      assert xs + ys == xs;
    } else {
      PutAllConcat(d, xs, ys[..|ys| - 1]);
      assert (xs + ys)[..|xs + ys| - 1] == xs + ys[..|ys| - 1];
    }
  }

  lemma {:induction false} PutAllMentions<K, V>(d: Dict<K, V>, items: seq<(K, V)>, i: nat)
    requires i < |items|
    ensures Mentions(PutAll(d, items), items[i].0)
  {
    var n := |items| - 1;
    var (k, v) := items[n];
    var before := PutAll(d, items[..n]);
    var at := Index(before, k);
    assert Put(before, k, v)[at] == (k, v);
    if i < n {
      PutAllMentions(d, items[..n], i);
      var j :| 0 <= j < |before| && before[j].0 == items[i].0;
      assert Put(before, k, v)[j].0 == items[i].0;
    }
  }

  /** Filling with `xs + ys` is filling with `xs`, overridden by what `ys` alone would leave. */
  lemma {:induction false} FilledConcat<K, V>(xs: seq<(K, V)>, ys: seq<(K, V)>)
    ensures Filled(xs + ys) == PutAll(Filled(xs), Filled(ys))
  {
    if ys == [] {
      assert xs + ys == xs;
    } else {
      var n := |ys| - 1;
      FilledConcat(xs, ys[..n]);
      FilledHoldsLatest(ys[..n]);
      PutAllPut(Filled(xs), Filled(ys[..n]), ys[n].0, ys[n].1);
      assert (xs + ys)[..|xs + ys| - 1] == xs + ys[..n];
    }
  }

  // ----- reading a dictionary

  lemma {:induction false} LatestOfFilled<K, V>(items: seq<(K, V)>, k: K)
    ensures Latest(Filled(items), k) == Latest(items, k)
  {
    FilledHoldsLatest(items);
    var d := Filled(items);
    LatestIsLast(d, k);
    if Latest(items, k).Some? {
      assert (k, Latest(items, k).value) in d;
    }
  }

  /** The values of the keys of `order` that are present, in that order. */
  function Select<K(==), V>(d: seq<(K, V)>, order: seq<K>): seq<V> {
    if order == [] then []
    else
      var found := Latest(d, order[|order| - 1]);
      Select(d, order[..|order| - 1]) + if found.Some? then [found.value] else []
  }

  /** A selection from the filled dictionary is the selection of last occurrences. */
  lemma {:induction false} SelectLatest<K, V>(items: seq<(K, V)>, order: seq<K>)
    ensures Select(Filled(items), order) == Select(items, order)
  {
    if order != [] {
      SelectLatest(items, order[..|order| - 1]);
      LatestOfFilled(items, order[|order| - 1]);
    }
  }

  /** The keys of `order` that are present, in that order: the keys of the selection. */
  function Kept<K(==), V>(d: seq<(K, V)>, order: seq<K>): seq<K> {
    if order == [] then []
    else Kept(d, order[..|order| - 1]) + if Latest(d, order[|order| - 1]).Some? then [order[|order| - 1]] else []
  }

  /** The selection holds, at each kept key, its last value. */
  lemma {:induction false} SelectKeeps<K, V>(d: seq<(K, V)>, order: seq<K>)
    ensures |Select(d, order)| == |Kept(d, order)|
    ensures forall i :: 0 <= i < |Kept(d, order)| ==> Latest(d, Kept(d, order)[i]) == Some(Select(d, order)[i])
    ensures forall k :: k in Kept(d, order) <==> k in order && Latest(d, k).Some?
  {
    if order != [] {
      var init, last := order[..|order| - 1], order[|order| - 1];
      SelectKeeps(d, init);
      assert order == init + [last];
    }
  }

  lemma {:induction false} SelectedAt<K, V>(d: seq<(K, V)>, order: seq<K>, k: K, v: V)
    requires k in order && Latest(d, k) == Some(v)
    ensures v in Select(d, order)
  {
    SelectKeeps(d, order);
    var i :| 0 <= i < |Kept(d, order)| && Kept(d, order)[i] == k;
    assert Select(d, order)[i] == v;
  }

  /** Two kept keys stand at two places of the order, in the same sequence. */
  lemma {:induction false} KeptInOrder<K, V>(d: seq<(K, V)>, order: seq<K>, i: nat, j: nat) returns (a: nat, b: nat)
    requires i <= j < |Kept(d, order)|
    ensures a <= b < |order| && order[a] == Kept(d, order)[i] && order[b] == Kept(d, order)[j]
    ensures i < j ==> a < b
  {
    var n := |order| - 1;
    var init := order[..n];
    if j < |Kept(d, init)| {
      a, b := KeptInOrder(d, init, i, j);
    } else if i < j {
      a, b := KeptInOrder(d, init, i, i);
      b := n;
    } else {
      a, b := n, n;
    }
  }

  /** When every latest value is good, a bad value exists exactly if one was superseded. */
  lemma {:induction false} BadIsSuperseded<K, V>(items: seq<(K, V)>, bad: V -> bool)
    requires forall p :: p in Filled(items) ==> !bad(p.1)
    ensures (exists i :: 0 <= i < |items| && bad(items[i].1))
            <==> exists i, j :: 0 <= i < j < |items| && items[i].0 == items[j].0 && bad(items[i].1)
  {
    if i :| 0 <= i < |items| && bad(items[i].1) {
      var (k, v) := items[i];
      LatestIsLast(items, k);
      FilledHoldsLatest(items);
      assert Mentions(items, k);
      var j :| 0 <= j < |items| && items[j] == (k, Latest(items, k).value)
               && forall m :: j < m < |items| ==> items[m].0 != k;
      assert items[j] in Filled(items);
      assert i < j;
    }
  }
}

/** What a stage attempt leaves behind. */
module StageResults {
  import opened Base
  import L = Lifecycle
  import A = Approvals

  datatype Severity = Blocker | Major | Minor | Info

  datatype FindingStatus = Open | Resolved | Waived | Obsolete

  datatype Finding = Finding(id: string, severity: Severity, status: FindingStatus)

  datatype Evidence = Evidence(id: string, required: bool, available: bool)

  datatype GateStatus = Pending | Passed | Failed | Skipped

  datatype GateResult = GateResult(gate: A.Gate, status: GateStatus, sha: Option<string>)

  datatype StopOutcome = Blocked | Failed | Canceled

  datatype Action =
    | ExecuteStage(next: L.Stage)
    | WaitForInput
    | WaitForCi
    | Rework(round: nat)
    | PhaseRound
    | RequestApproval
    | Merge
    | ReleaseNow
    | Stop(outcome: StopOutcome)

  /** What an attempt reports to have used. */
  datatype Usage = Usage(prompt: nat, completion: nat, total: Option<nat>, cost: Option<real>)

  datatype StageResult = StageResult(
    stage: L.Stage,
    attempt: nat,
    status: L.StageStatus,
    action: Action,
    evidence: seq<Evidence>,
    findings: seq<Finding>,
    gates: seq<GateResult>,
    escalations: seq<string>,   // declared escalations, each with its reason
    usage: Option<Usage>)

  predicate Escalates(r: StageResult) { r.escalations != [] }

  /** The reported total, or its two parts where none is reported. */
  function TokensOf(r: StageResult): nat {
    match r.usage
    case None => 0
    case Some(u) => if u.total.Some? then u.total.value else u.prompt + u.completion
  }

  function CostOf(r: StageResult): real {
    if r.usage.Some? && r.usage.value.cost.Some? then r.usage.value.cost.value else 0.0
  }

  predicate Offends(f: Finding) { f.severity.Blocker? && f.status.Open? }

  predicate Missing(e: Evidence) { e.required && !e.available }
}

/** The read side of a run against the invariants that gate its completion. */
module ReadModels {
  import opened Base
  import opened OrderedDict
  import opened StageResults
  import L = Lifecycle
  import A = Approvals

  // ----- what the loops visit, in order

  function FindingPairs(fs: seq<Finding>): seq<(string, Finding)> {
    if fs == [] then [] else FindingPairs(fs[..|fs| - 1]) + [(fs[|fs| - 1].id, fs[|fs| - 1])]
  }

  function FindingsOf(results: seq<StageResult>): seq<(string, Finding)> {
    if results == [] then []
    else FindingsOf(results[..|results| - 1]) + FindingPairs(results[|results| - 1].findings)
  }

  function EvidencePairs(es: seq<Evidence>): seq<(string, Evidence)> {
    if es == [] then [] else EvidencePairs(es[..|es| - 1]) + [(es[|es| - 1].id, es[|es| - 1])]
  }

  function EvidenceOf(results: seq<StageResult>): seq<(string, Evidence)> {
    if results == [] then []
    else EvidenceOf(results[..|results| - 1]) + EvidencePairs(results[|results| - 1].evidence)
  }

  function GatePairs(gs: seq<GateResult>): seq<(A.Gate, GateResult)> {
    if gs == [] then [] else GatePairs(gs[..|gs| - 1]) + [(gs[|gs| - 1].gate, gs[|gs| - 1])]
  }

  function GatesOf(results: seq<StageResult>): seq<(A.Gate, GateResult)> {
    if results == [] then []
    else GatesOf(results[..|results| - 1]) + GatePairs(results[|results| - 1].gates)
  }

  function StagesOf(results: seq<StageResult>): seq<(L.Stage, StageResult)> {
    if results == [] then []
    else StagesOf(results[..|results| - 1]) + [(results[|results| - 1].stage, results[|results| - 1])]
  }

  lemma {:induction false} InitOfConcat<T>(xs: seq<T>, ys: seq<T>)
    requires ys != []
    ensures (xs + ys)[..|xs + ys| - 1] == xs + ys[..|ys| - 1] && (xs + ys)[|xs + ys| - 1] == ys[|ys| - 1]
  {
  }

  lemma {:induction false} ConcatAssociates<T>(xs: seq<T>, ys: seq<T>, zs: seq<T>)
    ensures (xs + ys) + zs == xs + (ys + zs)
  {
  }

  lemma {:induction false} FindingsConcat(xs: seq<StageResult>, ys: seq<StageResult>)
    ensures FindingsOf(xs + ys) == FindingsOf(xs) + FindingsOf(ys)
  {
    if ys == [] {
      assert xs + ys == xs;
    } else {
      var init := ys[..|ys| - 1];
      var own := FindingPairs(ys[|ys| - 1].findings);
      FindingsConcat(xs, init);
      InitOfConcat(xs, ys);
      ConcatAssociates(FindingsOf(xs), FindingsOf(init), own);
    }
  }

  lemma {:induction false} EvidenceConcat(xs: seq<StageResult>, ys: seq<StageResult>)
    ensures EvidenceOf(xs + ys) == EvidenceOf(xs) + EvidenceOf(ys)
  {
    if ys == [] {
      assert xs + ys == xs;
    } else {
      var init := ys[..|ys| - 1];
      var own := EvidencePairs(ys[|ys| - 1].evidence);
      EvidenceConcat(xs, init);
      InitOfConcat(xs, ys);
      ConcatAssociates(EvidenceOf(xs), EvidenceOf(init), own);
    }
  }

  lemma {:induction false} GatesConcat(xs: seq<StageResult>, ys: seq<StageResult>)
    ensures GatesOf(xs + ys) == GatesOf(xs) + GatesOf(ys)
  {
    if ys == [] {
      assert xs + ys == xs;
    } else {
      var init := ys[..|ys| - 1];
      var own := GatePairs(ys[|ys| - 1].gates);
      GatesConcat(xs, init);
      InitOfConcat(xs, ys);
      ConcatAssociates(GatesOf(xs), GatesOf(init), own);
    }
  }

  lemma {:induction false} StagesConcat(xs: seq<StageResult>, ys: seq<StageResult>)
    ensures StagesOf(xs + ys) == StagesOf(xs) + StagesOf(ys)
  {
    if ys == [] {
      assert xs + ys == xs;
    } else {
      StagesConcat(xs, ys[..|ys| - 1]);
      assert (xs + ys)[..|xs + ys| - 1] == xs + ys[..|ys| - 1];
    }
  }

  /** Every read model of `xs + ys` is the one of `xs` overridden by the one of `ys`. */
  lemma {:induction false} ReadModelsConcat(xs: seq<StageResult>, ys: seq<StageResult>)
    ensures Filled(FindingsOf(xs + ys)) == PutAll(Filled(FindingsOf(xs)), Filled(FindingsOf(ys)))
    ensures Filled(EvidenceOf(xs + ys)) == PutAll(Filled(EvidenceOf(xs)), Filled(EvidenceOf(ys)))
    ensures Filled(GatesOf(xs + ys)) == PutAll(Filled(GatesOf(xs)), Filled(GatesOf(ys)))
    ensures Filled(StagesOf(xs + ys)) == PutAll(Filled(StagesOf(xs)), Filled(StagesOf(ys)))
  {
    FindingsConcat(xs, ys);
    EvidenceConcat(xs, ys);
    GatesConcat(xs, ys);
    StagesConcat(xs, ys);
    FilledConcat(FindingsOf(xs), FindingsOf(ys));
    FilledConcat(EvidenceOf(xs), EvidenceOf(ys));
    FilledConcat(GatesOf(xs), GatesOf(ys));
    FilledConcat(StagesOf(xs), StagesOf(ys));
  }

  // ----- the last word on an id, attempt by attempt

  /** Finding `j` of attempt `i` is the last one with this id. */
  ghost predicate LastFinding(results: seq<StageResult>, id: string, i: nat, j: nat) {
    && i < |results| && j < |results[i].findings| && results[i].findings[j].id == id
    && (forall m :: j < m < |results[i].findings| ==> results[i].findings[m].id != id)
    && forall l, m :: i < l < |results| && 0 <= m < |results[l].findings| ==> results[l].findings[m].id != id
  }

  /** Item `j` of attempt `i` is the last one with this id. */
  ghost predicate LastEvidence(results: seq<StageResult>, id: string, i: nat, j: nat) {
    && i < |results| && j < |results[i].evidence| && results[i].evidence[j].id == id
    && (forall m :: j < m < |results[i].evidence| ==> results[i].evidence[m].id != id)
    && forall l, m :: i < l < |results| && 0 <= m < |results[l].evidence| ==> results[l].evidence[m].id != id
  }

  /** Report `j` of attempt `i` is the last one on this gate. */
  ghost predicate LastReport(results: seq<StageResult>, gate: A.Gate, i: nat, j: nat) {
    && i < |results| && j < |results[i].gates| && results[i].gates[j].gate == gate
    && (forall m :: j < m < |results[i].gates| ==> results[i].gates[m].gate != gate)
    && forall l, m :: i < l < |results| && 0 <= m < |results[l].gates| ==> results[l].gates[m].gate != gate
  }

  lemma {:induction false} FindingPairAt(fs: seq<Finding>)
    ensures |FindingPairs(fs)| == |fs|
    ensures forall j :: 0 <= j < |fs| ==> FindingPairs(fs)[j] == (fs[j].id, fs[j])
  {
    if fs != [] {
      FindingPairAt(fs[..|fs| - 1]);
    }
  }

  lemma {:induction false} EvidencePairAt(es: seq<Evidence>)
    ensures |EvidencePairs(es)| == |es|
    ensures forall j :: 0 <= j < |es| ==> EvidencePairs(es)[j] == (es[j].id, es[j])
  {
    if es != [] {
      EvidencePairAt(es[..|es| - 1]);
    }
  }

  lemma {:induction false} GatePairAt(gs: seq<GateResult>)
    ensures |GatePairs(gs)| == |gs|
    ensures forall j :: 0 <= j < |gs| ==> GatePairs(gs)[j] == (gs[j].gate, gs[j])
  {
    if gs != [] {
      GatePairAt(gs[..|gs| - 1]);
    }
  }

  lemma {:induction false} LatestOfConcat<K, V>(xs: seq<(K, V)>, ys: seq<(K, V)>, k: K)
    ensures Latest(xs + ys, k) == if Mentions(ys, k) then Latest(ys, k) else Latest(xs, k)
  {
    if ys == [] {
      assert xs + ys == xs;
    } else {
      var init, last := ys[..|ys| - 1], ys[|ys| - 1];
      assert xs + ys == (xs + init) + [last] && (xs + ys)[..|xs + ys| - 1] == xs + init;
      LatestOfConcat(xs, init, k);
      LatestIsLast(ys, k);
      LatestIsLast(init, k);
    }
  }

  /** The finding the screens show under an id is the one reported last, over all attempts. */
  lemma {:induction false} LatestFindingIsLast(results: seq<StageResult>, id: string, i: nat, j: nat)
    requires LastFinding(results, id, i, j)
    ensures Latest(FindingsOf(results), id) == Some(results[i].findings[j])
  {
    var n := |results| - 1;
    var own := FindingPairs(results[n].findings);
    FindingPairAt(results[n].findings);
    LatestOfConcat(FindingsOf(results[..n]), own, id);
    if i == n {
      assert own[j].0 == id;
      LatestAt(own, id, j);
    } else {
      assert !Mentions(own, id);
      LatestFindingIsLast(results[..n], id, i, j);
    }
  }

  lemma {:induction false} LatestEvidenceIsLast(results: seq<StageResult>, id: string, i: nat, j: nat)
    requires LastEvidence(results, id, i, j)
    ensures Latest(EvidenceOf(results), id) == Some(results[i].evidence[j])
  {
    var n := |results| - 1;
    var own := EvidencePairs(results[n].evidence);
    EvidencePairAt(results[n].evidence);
    LatestOfConcat(EvidenceOf(results[..n]), own, id);
    if i == n {
      assert own[j].0 == id;
      LatestAt(own, id, j);
    } else {
      assert !Mentions(own, id);
      LatestEvidenceIsLast(results[..n], id, i, j);
    }
  }

  lemma {:induction false} LatestReportIsLast(results: seq<StageResult>, gate: A.Gate, i: nat, j: nat)
    requires LastReport(results, gate, i, j)
    ensures Latest(GatesOf(results), gate) == Some(results[i].gates[j])
  {
    var n := |results| - 1;
    var own := GatePairs(results[n].gates);
    GatePairAt(results[n].gates);
    LatestOfConcat(GatesOf(results[..n]), own, gate);
    if i == n {
      assert own[j].0 == gate;
      LatestAt(own, gate, j);
    } else {
      assert !Mentions(own, gate);
      LatestReportIsLast(results[..n], gate, i, j);
    }
  }

  lemma {:induction false} LatestStageIsLast(results: seq<StageResult>, i: nat)
    requires i < |results| && forall l :: i < l < |results| ==> results[l].stage != results[i].stage
    ensures Latest(StagesOf(results), results[i].stage) == Some(results[i])
  {
    if i < |results| - 1 {
      LatestStageIsLast(results[..|results| - 1], i);
    }
  }

  lemma {:induction false} LatestAt<K, V>(items: seq<(K, V)>, k: K, j: nat)
    requires j < |items| && items[j].0 == k && forall m :: j < m < |items| ==> items[m].0 != k
    ensures Latest(items, k) == Some(items[j].1)
  {
    if j < |items| - 1 {
      LatestAt(items[..|items| - 1], k, j);
    }
  }

  // ----- the loops

  method FindingsById(results: seq<StageResult>) returns (d: Dict<string, Finding>)
    ensures d == Filled(FindingsOf(results))
    ensures Distinct(d) && FirstOrder(FindingsOf(results), d)
    ensures forall id, v :: (id, v) in d <==> Latest(FindingsOf(results), id) == Some(v)
  {
    d := [];
    for i := 0 to |results|
      invariant d == Filled(FindingsOf(results[..i]))
    {
      var fs := results[i].findings;
      ghost var before := d;
      for j := 0 to |fs|
        invariant d == PutAll(before, FindingPairs(fs[..j]))
      {
        assert fs[..j + 1][..j] == fs[..j];
        d := Put(d, fs[j].id, fs[j]);
      }
      assert fs[..|fs|] == fs && results[..i + 1][..i] == results[..i];
      PutAllConcat([], FindingsOf(results[..i]), FindingPairs(fs));
    }
    assert results[..|results|] == results;
    FilledHoldsLatest(FindingsOf(results));
    FilledInFirstOrder(FindingsOf(results));
  }

  method EvidenceById(results: seq<StageResult>) returns (d: Dict<string, Evidence>)
    ensures d == Filled(EvidenceOf(results))
    ensures Distinct(d) && FirstOrder(EvidenceOf(results), d)
    ensures forall id, v :: (id, v) in d <==> Latest(EvidenceOf(results), id) == Some(v)
  {
    d := [];
    for i := 0 to |results|
      invariant d == Filled(EvidenceOf(results[..i]))
    {
      var es := results[i].evidence;
      ghost var before := d;
      for j := 0 to |es|
        invariant d == PutAll(before, EvidencePairs(es[..j]))
      {
        assert es[..j + 1][..j] == es[..j];
        d := Put(d, es[j].id, es[j]);
      }
      assert es[..|es|] == es && results[..i + 1][..i] == results[..i];
      PutAllConcat([], EvidenceOf(results[..i]), EvidencePairs(es));
    }
    assert results[..|results|] == results;
    FilledHoldsLatest(EvidenceOf(results));
    FilledInFirstOrder(EvidenceOf(results));
  }

  function GateName(g: A.Gate): string {
    match g
    case Specification => "specification"
    case Planning => "planning"
    case Code => "code"
    case Ui => "ui"
    case Review => "review"
    case Verification => "verification"
    case Release => "release"
  }

  /** The gates sorted by their names. */
  const GatesByName: seq<A.Gate> :=
    [A.Gate.Code, A.Gate.Planning, A.Gate.Release, A.Gate.Review, A.Gate.Specification, A.Gate.Ui, A.Gate.Verification]

  const CanonicalStages: seq<L.Stage> :=
    [L.Specification, L.Planning, L.Construction, L.ReviewVerification, L.Release]

  /** Smaller at position `p`, the first where they differ. */
  predicate SmallerAt(a: string, b: string, p: nat) {
    p < |a| && p < |b| && a[..p] == b[..p] && a[p] < b[p]
  }

  /** The name of `g` sorts before that of `h`. */
  ghost predicate NamedBefore(g: A.Gate, h: A.Gate) {
    exists p: nat :: SmallerAt(GateName(g), GateName(h), p)
  }

  lemma {:induction false} GatesByNameIsSorted(i: nat, j: nat)
    requires i < j < |GatesByName|
    ensures NamedBefore(GatesByName[i], GatesByName[j])
  {
    assert GateName(A.Gate.Release)[..2] == "re" == GateName(A.Gate.Review)[..2];
    assert SmallerAt(GateName(GatesByName[i]), GateName(GatesByName[j]), 0)
        || SmallerAt(GateName(GatesByName[i]), GateName(GatesByName[j]), 2);
  }

  lemma {:induction false} CanonicalIsSorted(i: nat, j: nat)
    requires i < j < |CanonicalStages|
    ensures L.Position(CanonicalStages[i]) < L.Position(CanonicalStages[j])
  {
  }

  lemma {:induction false} OrdersAreComplete(g: A.Gate, s: L.Stage)
    ensures g in GatesByName && s in CanonicalStages
  {
    assert GatesByName[0] == A.Gate.Code && GatesByName[1] == A.Gate.Planning && GatesByName[2] == A.Gate.Release
        && GatesByName[3] == A.Gate.Review && GatesByName[4] == A.Gate.Specification && GatesByName[5] == A.Gate.Ui
        && GatesByName[6] == A.Gate.Verification;
    assert CanonicalStages[0] == L.Specification && CanonicalStages[1] == L.Planning
        && CanonicalStages[2] == L.Construction && CanonicalStages[3] == L.ReviewVerification
        && CanonicalStages[4] == L.Release;
  }

  lemma {:induction false} GatePairsKeyed(gs: seq<GateResult>)
    ensures forall p :: p in GatePairs(gs) ==> p.0 == p.1.gate
  {
    if gs != [] {
      GatePairsKeyed(gs[..|gs| - 1]);
    }
  }

  lemma {:induction false} GatesKeyed(results: seq<StageResult>)
    ensures forall p :: p in GatesOf(results) ==> p.0 == p.1.gate
  {
    if results != [] {
      GatesKeyed(results[..|results| - 1]);
      GatePairsKeyed(results[|results| - 1].gates);
    }
  }

  lemma {:induction false} StagesKeyed(results: seq<StageResult>)
    ensures forall p :: p in StagesOf(results) ==> p.0 == p.1.stage
  {
    if results != [] {
      StagesKeyed(results[..|results| - 1]);
    }
  }

  /** The last value of a key comes from a pair with that key. */
  lemma {:induction false} LatestPair<K, V>(items: seq<(K, V)>, k: K)
    ensures Latest(items, k).Some? ==> (k, Latest(items, k).value) in items
  {
    LatestIsLast(items, k);
  }

  /** Exactly one result for each gate that was ever reported, its last one, ordered by gate name. */
  ghost predicate LatestByName(results: seq<StageResult>, r: seq<GateResult>) {
    && (forall v :: v in r <==> Latest(GatesOf(results), v.gate) == Some(v))
    && (forall i, j :: 0 <= i < j < |r| ==> NamedBefore(r[i].gate, r[j].gate))
  }

  lemma {:induction false} SelectedGates(results: seq<StageResult>)
    ensures LatestByName(results, Select(GatesOf(results), GatesByName))
  {
    var items := GatesOf(results);
    var r, keys := Select(items, GatesByName), Kept(items, GatesByName);
    SelectKeeps(items, GatesByName);
    GatesKeyed(results);
    forall i | 0 <= i < |r| ensures keys[i] == r[i].gate {
      LatestPair(items, keys[i]);
    }
    forall v: GateResult | Latest(items, v.gate) == Some(v) ensures v in r {
      OrdersAreComplete(v.gate, L.Release);
      SelectedAt(items, GatesByName, v.gate, v);
    }
    forall i, j | 0 <= i < j < |r| ensures NamedBefore(r[i].gate, r[j].gate) {
      var a, b := KeptInOrder(items, GatesByName, i, j);
      GatesByNameIsSorted(a, b);
    }
  }

  method LatestGateResults(results: seq<StageResult>) returns (r: seq<GateResult>)
    ensures LatestByName(results, r)
  {
    var latest: Dict<A.Gate, GateResult> := [];
    for i := 0 to |results|
      invariant latest == Filled(GatesOf(results[..i]))
    {
      var gs := results[i].gates;
      ghost var before := latest;
      for j := 0 to |gs|
        invariant latest == PutAll(before, GatePairs(gs[..j]))
      {
        assert gs[..j + 1][..j] == gs[..j];
        latest := Put(latest, gs[j].gate, gs[j]);
      }
      assert gs[..|gs|] == gs && results[..i + 1][..i] == results[..i];
      PutAllConcat([], GatesOf(results[..i]), GatePairs(gs));
    }
    assert results[..|results|] == results;
    SelectLatest(GatesOf(results), GatesByName);
    SelectedGates(results);
    r := Select(latest, GatesByName);
  }

  /** Exactly one result for each stage that was ever attempted, its last one, in canonical order. */
  ghost predicate LatestInOrder(results: seq<StageResult>, r: seq<StageResult>) {
    && (forall v :: v in r <==> Latest(StagesOf(results), v.stage) == Some(v))
    && (forall i, j :: 0 <= i < j < |r| ==> L.Position(r[i].stage) < L.Position(r[j].stage))
  }

  lemma {:induction false} SelectedStages(results: seq<StageResult>)
    ensures LatestInOrder(results, Select(StagesOf(results), CanonicalStages))
  {
    var items := StagesOf(results);
    var r, keys := Select(items, CanonicalStages), Kept(items, CanonicalStages);
    SelectKeeps(items, CanonicalStages);
    StagesKeyed(results);
    forall i | 0 <= i < |r| ensures keys[i] == r[i].stage {
      LatestPair(items, keys[i]);
    }
    forall v: StageResult | Latest(items, v.stage) == Some(v) ensures v in r {
      OrdersAreComplete(A.Gate.Code, v.stage);
      SelectedAt(items, CanonicalStages, v.stage, v);
    }
    forall i, j | 0 <= i < j < |r| ensures L.Position(r[i].stage) < L.Position(r[j].stage) {
      var a, b := KeptInOrder(items, CanonicalStages, i, j);
      CanonicalIsSorted(a, b);
    }
  }

  method TraceChain(results: seq<StageResult>) returns (r: seq<StageResult>)
    ensures LatestInOrder(results, r)
  {
    var latest: Dict<L.Stage, StageResult> := [];
    for i := 0 to |results|
      invariant latest == Filled(StagesOf(results[..i]))
    {
      assert results[..i + 1][..i] == results[..i];
      ghost var all := StagesOf(results[..i + 1]);
      assert all[..|all| - 1] == StagesOf(results[..i]);
      latest := Put(latest, results[i].stage, results[i]);
    }
    assert results[..|results|] == results;
    SelectLatest(StagesOf(results), CanonicalStages);
    SelectedStages(results);
    r := Select(latest, CanonicalStages);
  }

  // ----- open blockers

  function OffendingIn(d: Dict<string, Finding>): nat {
    if d == [] then 0
    else OffendingIn(d[..|d| - 1]) + if Offends(d[|d| - 1].1) then 1 else 0
  }

  function OpenBlockerCount(results: seq<StageResult>): nat {
    OffendingIn(Filled(FindingsOf(results)))
  }

  ghost function OffendingIds(d: Dict<string, Finding>): set<string> {
    set p | p in d && Offends(p.1) :: p.0
  }

  lemma {:induction false} OffendingInCounts(d: Dict<string, Finding>)
    requires Distinct(d)
    ensures OffendingIn(d) == |OffendingIds(d)|
  {
    if d != [] {
      var init, last := d[..|d| - 1], d[|d| - 1];
      assert Distinct(init);
      OffendingInCounts(init);
      assert d == init + [last];
      if Offends(last.1) {
        assert OffendingIds(d) == OffendingIds(init) + {last.0};
        assert last.0 !in OffendingIds(init);
      } else {
        assert OffendingIds(d) == OffendingIds(init);
      }
    }
  }

  ghost predicate LatestOffends(results: seq<StageResult>, id: string) {
    Latest(FindingsOf(results), id).Some? && Offends(Latest(FindingsOf(results), id).value)
  }

  /** The count is the number of ids whose last finding is an open blocker. */
  lemma {:induction false} OpenBlockerCountIsExact(results: seq<StageResult>)
    ensures var ids := OffendingIds(Filled(FindingsOf(results)));
            OpenBlockerCount(results) == |ids| && forall id :: id in ids <==> LatestOffends(results, id)
  {
    var items := FindingsOf(results);
    FilledHoldsLatest(items);
    OffendingInCounts(Filled(items));
    forall id | LatestOffends(results, id) ensures id in OffendingIds(Filled(items)) {
      assert (id, Latest(items, id).value) in Filled(items);
    }
  }

  // ----- the completion invariant

  datatype Violation = EvidenceUnavailable(id: string, stage: L.Stage) | BlockerOpen(id: string, stage: L.Stage)

  function EvidenceViolations(stage: L.Stage, es: seq<Evidence>): seq<Violation> {
    if es == [] then []
    else EvidenceViolations(stage, es[..|es| - 1])
         + if Missing(es[|es| - 1]) then [EvidenceUnavailable(es[|es| - 1].id, stage)] else []
  }

  function FindingViolations(stage: L.Stage, fs: seq<Finding>): seq<Violation> {
    if fs == [] then []
    else FindingViolations(stage, fs[..|fs| - 1])
         + if Offends(fs[|fs| - 1]) then [BlockerOpen(fs[|fs| - 1].id, stage)] else []
  }

  function ResultViolations(r: StageResult): seq<Violation> {
    EvidenceViolations(r.stage, r.evidence) + FindingViolations(r.stage, r.findings)
  }

  function Violations(results: seq<StageResult>): seq<Violation> {
    if results == [] then []
    else Violations(results[..|results| - 1]) + ResultViolations(results[|results| - 1])
  }

  function CompletionViolations(status: L.RunStatus, results: seq<StageResult>): seq<Violation> {
    if status != L.RunStatus.Succeeded then [] else Violations(results)
  }

  method AppendViolations(vs0: seq<Violation>, result: StageResult) returns (vs: seq<Violation>)
    ensures vs == vs0 + ResultViolations(result)
  {
    var es, fs := result.evidence, result.findings;
    vs := vs0;
    for j := 0 to |es|
      invariant vs == vs0 + EvidenceViolations(result.stage, es[..j])
    {
      assert es[..j + 1][..j] == es[..j];
      if es[j].required && !es[j].available {
        vs := vs + [EvidenceUnavailable(es[j].id, result.stage)];
      }
    }
    assert es[..|es|] == es;
    ghost var middle := vs;
    for j := 0 to |fs|
      invariant vs == middle + FindingViolations(result.stage, fs[..j])
    {
      assert fs[..j + 1][..j] == fs[..j];
      if fs[j].severity.Blocker? && fs[j].status.Open? {
        vs := vs + [BlockerOpen(fs[j].id, result.stage)];
      }
    }
    assert fs[..|fs|] == fs;
  }

  method FindCompletionViolations(status: L.RunStatus, results: seq<StageResult>) returns (vs: seq<Violation>)
    ensures vs == CompletionViolations(status, results)
  {
    if status != L.RunStatus.Succeeded {
      return [];
    }
    vs := [];
    for i := 0 to |results|
      invariant vs == Violations(results[..i])
    {
      vs := AppendViolations(vs, results[i]);
      assert results[..i + 1][..i] == results[..i];
    }
    assert results[..|results|] == results;
  }

  /** Appending results never removes a violation. */
  lemma {:induction false} ViolationsConcat(xs: seq<StageResult>, ys: seq<StageResult>)
    ensures Violations(xs + ys) == Violations(xs) + Violations(ys)
  {
    if ys == [] {
      assert xs + ys == xs;
    } else {
      var init, last := ys[..|ys| - 1], ys[|ys| - 1];
      var own := ResultViolations(last);
      assert (xs + ys)[..|xs + ys| - 1] == xs + init;
      ViolationsConcat(xs, init);
      assert Violations(xs + ys) == Violations(xs + init) + own;
      assert Violations(ys) == Violations(init) + own;
      assert (Violations(xs) + Violations(init)) + own == Violations(xs) + (Violations(init) + own);
    }
  }

  ghost predicate NoneMissing(items: seq<(string, Evidence)>) {
    forall i :: 0 <= i < |items| ==> !Missing(items[i].1)
  }

  ghost predicate NoneOffends(items: seq<(string, Finding)>) {
    forall i :: 0 <= i < |items| ==> !Offends(items[i].1)
  }

  lemma {:induction false} NoEvidenceViolations(stage: L.Stage, es: seq<Evidence>)
    ensures EvidenceViolations(stage, es) == [] <==> NoneMissing(EvidencePairs(es))
  {
    if es != [] {
      var n := |es| - 1;
      NoEvidenceViolations(stage, es[..n]);
      NoneMissingConcat(EvidencePairs(es[..n]), [(es[n].id, es[n])]);
      assert NoneMissing([(es[n].id, es[n])]) <==> !Missing([(es[n].id, es[n])][0].1);
    }
  }

  lemma {:induction false} NoFindingViolations(stage: L.Stage, fs: seq<Finding>)
    ensures FindingViolations(stage, fs) == [] <==> NoneOffends(FindingPairs(fs))
  {
    if fs != [] {
      var n := |fs| - 1;
      NoFindingViolations(stage, fs[..n]);
      NoneOffendsConcat(FindingPairs(fs[..n]), [(fs[n].id, fs[n])]);
      assert NoneOffends([(fs[n].id, fs[n])]) <==> !Offends([(fs[n].id, fs[n])][0].1);
    }
  }

  lemma {:induction false} NoneMissingConcat(a: seq<(string, Evidence)>, b: seq<(string, Evidence)>)
    ensures NoneMissing(a + b) <==> NoneMissing(a) && NoneMissing(b)
  {
    assert forall i :: 0 <= i < |a| ==> (a + b)[i] == a[i];
    assert forall i :: 0 <= i < |b| ==> (a + b)[|a| + i] == b[i];
  }

  lemma {:induction false} NoneOffendsConcat(a: seq<(string, Finding)>, b: seq<(string, Finding)>)
    ensures NoneOffends(a + b) <==> NoneOffends(a) && NoneOffends(b)
  {
    assert forall i :: 0 <= i < |a| ==> (a + b)[i] == a[i];
    assert forall i :: 0 <= i < |b| ==> (a + b)[|a| + i] == b[i];
  }

  /** No violation means that no attempt ever reported missing evidence or an open blocker. */
  lemma {:induction false} NoViolations(results: seq<StageResult>)
    ensures Violations(results) == [] <==> NoneMissing(EvidenceOf(results)) && NoneOffends(FindingsOf(results))
  {
    if results != [] {
      var n := |results| - 1;
      NoViolations(results[..n]);
      NoEvidenceViolations(results[n].stage, results[n].evidence);
      NoFindingViolations(results[n].stage, results[n].findings);
      NoneMissingConcat(EvidenceOf(results[..n]), EvidencePairs(results[n].evidence));
      NoneOffendsConcat(FindingsOf(results[..n]), FindingPairs(results[n].findings));
    }
  }

  /** Exactly what is reported: each open blocker and each required item that is not available, of every attempt. */
  lemma {:induction false} ViolationsExactly(results: seq<StageResult>, id: string, stage: L.Stage)
    ensures BlockerOpen(id, stage) in Violations(results) <==> exists i: nat :: ReportsBlocker(results, id, stage, i)
    ensures EvidenceUnavailable(id, stage) in Violations(results) <==>
              exists i: nat :: ReportsMissing(results, id, stage, i)
  {
    if results != [] {
      var n := |results| - 1;
      var init := results[..n];
      ViolationsExactly(init, id, stage);
      FindingViolationsExactly(results[n].stage, results[n].findings, id, stage);
      EvidenceViolationsExactly(results[n].stage, results[n].evidence, id, stage);
      ReportsSnoc(results, id, stage);
    }
  }

  ghost predicate ReportsBlocker(results: seq<StageResult>, id: string, stage: L.Stage, i: nat) {
    && i < |results| && results[i].stage == stage
    && Finding(id, Blocker, FindingStatus.Open) in results[i].findings
  }

  ghost predicate ReportsMissing(results: seq<StageResult>, id: string, stage: L.Stage, i: nat) {
    i < |results| && results[i].stage == stage && Evidence(id, true, false) in results[i].evidence
  }

  lemma {:induction false} ReportsSnoc(results: seq<StageResult>, id: string, stage: L.Stage)
    requires results != []
    ensures var n := |results| - 1;
            var init := results[..n];
            && ((exists i: nat :: ReportsBlocker(results, id, stage, i)) <==>
                  (exists i: nat :: ReportsBlocker(init, id, stage, i)) || ReportsBlocker(results, id, stage, n))
            && ((exists i: nat :: ReportsMissing(results, id, stage, i)) <==>
                  (exists i: nat :: ReportsMissing(init, id, stage, i)) || ReportsMissing(results, id, stage, n))
  {
    var n := |results| - 1;
    var init := results[..n];
    assert forall i: nat :: ReportsBlocker(init, id, stage, i) <==> i < n && ReportsBlocker(results, id, stage, i);
    assert forall i: nat :: ReportsMissing(init, id, stage, i) <==> i < n && ReportsMissing(results, id, stage, i);
  }

  lemma {:induction false} FindingViolationsExactly(own: L.Stage, fs: seq<Finding>, id: string, stage: L.Stage)
    ensures BlockerOpen(id, stage) in FindingViolations(own, fs) <==>
              own == stage && Finding(id, Blocker, FindingStatus.Open) in fs
    ensures EvidenceUnavailable(id, stage) !in FindingViolations(own, fs)
  {
    if fs != [] {
      FindingViolationsExactly(own, fs[..|fs| - 1], id, stage);
      assert fs == fs[..|fs| - 1] + [fs[|fs| - 1]];
    }
  }

  lemma {:induction false} EvidenceViolationsExactly(own: L.Stage, es: seq<Evidence>, id: string, stage: L.Stage)
    ensures EvidenceUnavailable(id, stage) in EvidenceViolations(own, es) <==>
              own == stage && Evidence(id, true, false) in es
    ensures BlockerOpen(id, stage) !in EvidenceViolations(own, es)
  {
    if es != [] {
      EvidenceViolationsExactly(own, es[..|es| - 1], id, stage);
      assert es == es[..|es| - 1] + [es[|es| - 1]];
    }
  }

  /** An id counts as an open blocker exactly if the last finding under it, over all attempts, is one. */
  lemma {:induction false} BlockersExactly(results: seq<StageResult>, id: string, i: nat, j: nat)
    requires LastFinding(results, id, i, j)
    ensures id in OffendingIds(Filled(FindingsOf(results))) <==>
              results[i].findings[j].severity == Blocker && results[i].findings[j].status == FindingStatus.Open
  {
    LatestFindingIsLast(results, id, i, j);
    OpenBlockerCountIsExact(results);
  }

  /** What the screens show of a clean run: no open blocker and every required item available. */
  ghost predicate CleanOnScreen(results: seq<StageResult>) {
    && OpenBlockerCount(results) == 0
    && forall p :: p in Filled(EvidenceOf(results)) ==> !Missing(p.1)
  }

  ghost predicate SupersededFinding(items: seq<(string, Finding)>) {
    exists i, j :: 0 <= i < j < |items| && items[i].0 == items[j].0 && Offends(items[i].1)
  }

  ghost predicate SupersededEvidence(items: seq<(string, Evidence)>) {
    exists i, j :: 0 <= i < j < |items| && items[i].0 == items[j].0 && Missing(items[i].1)
  }

  lemma {:induction false} NoBlockersOnScreen(results: seq<StageResult>)
    ensures OpenBlockerCount(results) == 0 <==> forall p :: p in Filled(FindingsOf(results)) ==> !Offends(p.1)
  {
    var d := Filled(FindingsOf(results));
    FilledHoldsLatest(FindingsOf(results));
    OffendingInCounts(d);
    if p :| p in d && Offends(p.1) {
      assert p.0 in OffendingIds(d);
    }
  }

  lemma {:induction false} ValuesComeFromItems<K, V>(items: seq<(K, V)>, p: (K, V))
    requires p in Filled(items)
    ensures p in items
  {
    FilledHoldsLatest(items);
    LatestIsLast(items, p.0);
    assert Latest(items, p.0) == Some(p.1);
  }

  /** A run that may complete is clean on every screen. */
  lemma {:induction false} CompletionIsCleanOnScreen(results: seq<StageResult>)
    requires CompletionViolations(L.RunStatus.Succeeded, results) == []
    ensures CleanOnScreen(results)
  {
    NoViolations(results);
    NoBlockersOnScreen(results);
    forall p | p in Filled(FindingsOf(results)) ensures !Offends(p.1) {
      ValuesComeFromItems(FindingsOf(results), p);
    }
    forall p | p in Filled(EvidenceOf(results)) ensures !Missing(p.1) {
      ValuesComeFromItems(EvidenceOf(results), p);
    }
  }

  /** The converse fails exactly when a later result superseded an offending item under the same id. */
  lemma {:induction false} CleanScreenMayStillViolate(results: seq<StageResult>)
    requires CleanOnScreen(results)
    ensures CompletionViolations(L.RunStatus.Succeeded, results) != []
            <==> SupersededFinding(FindingsOf(results)) || SupersededEvidence(EvidenceOf(results))
  {
    NoViolations(results);
    NoBlockersOnScreen(results);
    BadIsSuperseded(FindingsOf(results), f => Offends(f));
    BadIsSuperseded(EvidenceOf(results), e => Missing(e));
  }
}
