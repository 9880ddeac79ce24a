/** The strings that identify logical operations, their physical attempts and their external effects. */
module Keys {
  import opened Base
  import opened Text
  import L = Lifecycle

  function StageName(s: L.Stage): string {
    match s
    case Specification => "specification"
    case Planning => "planning"
    case Construction => "construction"
    case ReviewVerification => "review_verification"
    case Release => "release"
  }

  function Digits(n: nat): string {
    if n < 10 then [('0' as int + n) as char] else Digits(n / 10) + [('0' as int + n % 10) as char]
  }

  function OperationKey(execution: string, stage: L.Stage, revision: string): string {
    execution + ":" + StageName(stage) + ":" + revision
  }

  function AttemptId(key: string, attempt: nat): string {
    key + ":" + Digits(attempt)
  }

  function EffectKey(key: string, effect: string, target: string): string {
    key + ":" + effect + ":" + target
  }

  predicate ColonFree(s: string) { ':' !in s }

  lemma {:induction false} StageNames(s: L.Stage, t: L.Stage)
    ensures ColonFree(StageName(s)) && 7 <= |StageName(s)| <= 19
    ensures |StageName(s)| == 19 <==> s.ReviewVerification?
    ensures StageName(s) == StageName(t) ==> s == t
  {
    assert |StageName(L.Specification)| == 13 && |StageName(L.Planning)| == 8 && |StageName(L.Construction)| == 12;
    assert |StageName(L.ReviewVerification)| == 19 && |StageName(L.Release)| == 7;
  }

  // ----- decimal numbers

  lemma {:induction false} DigitsColonFree(n: nat)
    ensures ColonFree(Digits(n)) && |Digits(n)| >= 1
  {
    if n >= 10 {
      DigitsColonFree(n / 10);
    }
  }

  lemma {:induction false} DigitsInjective(m: nat, n: nat)
    requires Digits(m) == Digits(n)
    ensures m == n
  {
    var s := Digits(m);
    DigitsColonFree(m / 10);
    DigitsColonFree(n / 10);
    if m >= 10 && n >= 10 {
      assert Digits(m / 10) == s[..|s| - 1] == Digits(n / 10);
      DigitsInjective(m / 10, n / 10);
    }
    assert s[|s| - 1] as int == '0' as int + m % 10 == '0' as int + n % 10;
  }

  function Power10(k: nat): nat { if k == 0 then 1 else 10 * Power10(k - 1) }

  lemma {:induction false} DigitsLength(n: nat, k: nat)
    requires k >= 1
    ensures |Digits(n)| <= k <==> n < Power10(k)
  {
    if n >= 10 {
      DigitsColonFree(n / 10);
      if k > 1 {
        DigitsLength(n / 10, k - 1);
      }
    } else {
      PowerGrows(k - 1);
    }
  }

  lemma {:induction false} PowerGrows(k: nat)
    ensures Power10(k) >= 1
  {
    if k > 0 { PowerGrows(k - 1); }
  }

  // ----- cutting at a colon

  lemma {:induction false} FirstColon(p: string, r: string, k: nat)
    requires ColonFree(p) && k <= |p + ":" + r| - 1 && (p + ":" + r)[k] == ':'
    ensures k >= |p|
  {
  }

  lemma {:induction false} LastColon(p: string, r: string, k: nat)
    requires ColonFree(r) && k <= |p + ":" + r| - 1 && (p + ":" + r)[k] == ':'
    ensures k <= |p|
  {
  }

  lemma {:induction false} CutAt(p: string, r: string)
    ensures var s := p + ":" + r;
            s[|p|] == ':' && s[..|p|] == p && s[|p| + 1..] == r
  {
  }

  lemma {:induction false} FirstCut(p: string, r: string, p': string, r': string)
    requires ColonFree(p) && ColonFree(p') && p + ":" + r == p' + ":" + r'
    ensures p == p' && r == r'
  {
    CutAt(p, r);
    CutAt(p', r');
    FirstColon(p, r, |p'|);
    FirstColon(p', r', |p|);
  }

  lemma {:induction false} LastCut(p: string, r: string, p': string, r': string)
    requires ColonFree(r) && ColonFree(r') && p + ":" + r == p' + ":" + r'
    ensures p == p' && r == r'
  {
    CutAt(p, r);
    CutAt(p', r');
    LastColon(p, r, |p'|);
    LastColon(p', r', |p|);
  }

  /** Where the parts are grouped does not matter. */
  lemma {:induction false} Regroup(a: string, b: string, c: string)
    ensures a + ":" + b + ":" + c == a + ":" + (b + ":" + c)
  {
  }

  // ----- a key names one thing

  /** For every key, colons or not. */
  lemma {:induction false} AttemptIdInjective(key: string, n: nat, key': string, n': nat)
    requires AttemptId(key, n) == AttemptId(key', n')
    ensures key == key' && n == n'
  {
    DigitsColonFree(n);
    DigitsColonFree(n');
    LastCut(key, Digits(n), key', Digits(n'));
    DigitsInjective(n, n');
  }

  lemma {:induction false} OperationKeyInjective(e: string, s: L.Stage, r: string, e': string, s': L.Stage, r': string)
    requires ColonFree(e) && ColonFree(e')
    requires OperationKey(e, s, r) == OperationKey(e', s', r')
    ensures e == e' && s == s' && r == r'
  {
    StageNames(s, s');
    StageNames(s', s);
    Regroup(e, StageName(s), r);
    Regroup(e', StageName(s'), r');
    FirstCut(e, StageName(s) + ":" + r, e', StageName(s') + ":" + r');
    FirstCut(StageName(s), r, StageName(s'), r');
  }

  /** Two cuts of one text at different colons: the longer head holds the shorter one and a middle. */
  lemma {:induction false} LaterCut(p: string, r: string, p': string, r': string) returns (m: string)
    requires |p| < |p'| && p + ":" + r == p' + ":" + r'
    ensures p' == p + ":" + m && r == m + ":" + r'
  {
    CutAt(p, r);
    CutAt(p', r');
    var s := p + ":" + r;
    m := s[|p| + 1..|p'|];
    assert p' == s[..|p|] + [s[|p|]] + m;
    assert r == m + [s[|p'|]] + s[|p'| + 1..];
  }

  /**
   Operation (e, s, r) and a longer execution id e' share a key: e' is e, the stage and possibly more, and what e'
   took over is missing from the front of the other revision.
   */
  ghost predicate Collides(e: string, s: L.Stage, r: string, e': string, s': L.Stage, r': string) {
    || (e' == e + ":" + StageName(s) && r == StageName(s') + ":" + r')
    || exists x :: e' == e + ":" + StageName(s) + ":" + x && r == x + ":" + StageName(s') + ":" + r'
  }

  lemma {:induction false} CollisionsShareKey(e: string, s: L.Stage, r: string, e': string, s': L.Stage, r': string)
    requires Collides(e, s, r, e', s', r')
    ensures OperationKey(e, s, r) == OperationKey(e', s', r') && |e| < |e'|
  {
    var tail := StageName(s') + ":" + r';
    Regroup(e', StageName(s'), r');
    Regroup(e, StageName(s), r);
    if x :| e' == e + ":" + StageName(s) + ":" + x && r == x + ":" + StageName(s') + ":" + r' {
      Regroup(x, StageName(s'), r');
      Regroup(e + ":" + StageName(s), x, tail);
    }
  }

  lemma {:induction false} SharedKeyCollides(e: string, s: L.Stage, r: string, e': string, s': L.Stage, r': string)
    requires |e| < |e'| && OperationKey(e, s, r) == OperationKey(e', s', r')
    ensures Collides(e, s, r, e', s', r')
  {
    var name, tail := StageName(s), StageName(s') + ":" + r';
    StageNames(s, s');
    Regroup(e, name, r);
    Regroup(e', StageName(s'), r');
    var y := LaterCut(e, name + ":" + r, e', tail);
    CutAt(name, r);
    CutAt(y, tail);
    FirstColon(name, r, |y|);
    if |y| > |name| {
      var x := LaterCut(name, r, y, tail);
      Regroup(e, name, x);
      Regroup(x, StageName(s'), r');
      assert Collides(e, s, r, e', s', r');
    }
  }

  /** Two operations share a key exactly if they are the same or one collides with the other. */
  lemma {:induction false} OperationKeysEqualExactly(
    e: string, s: L.Stage, r: string, e': string, s': L.Stage, r': string)
    ensures OperationKey(e, s, r) == OperationKey(e', s', r') <==>
              (e == e' && s == s' && r == r') || Collides(e, s, r, e', s', r') || Collides(e', s', r', e, s, r)
  {
    if OperationKey(e, s, r) == OperationKey(e', s', r') {
      if |e| < |e'| {
        SharedKeyCollides(e, s, r, e', s', r');
      } else if |e'| < |e| {
        SharedKeyCollides(e', s', r', e, s, r);
      } else {
        SameLengthSameOperation(e, s, r, e', s', r');
      }
    }
    if Collides(e, s, r, e', s', r') {
      CollisionsShareKey(e, s, r, e', s', r');
    }
    if Collides(e', s', r', e, s, r) {
      CollisionsShareKey(e', s', r', e, s, r);
    }
  }

  lemma {:induction false} SameLengthSameOperation(
    e: string, s: L.Stage, r: string, e': string, s': L.Stage, r': string)
    requires |e| == |e'| && OperationKey(e, s, r) == OperationKey(e', s', r')
    ensures e == e' && s == s' && r == r'
  {
    StageNames(s, s');
    StageNames(s', s);
    Regroup(e, StageName(s), r);
    Regroup(e', StageName(s'), r');
    CutAt(e, StageName(s) + ":" + r);
    CutAt(e', StageName(s') + ":" + r');
    FirstCut(StageName(s), r, StageName(s'), r');
  }

  /** A pair that shares a key, for every two stages: a colon in an execution id is enough. */
  lemma {:induction false} OperationKeysCollide(e: string, s: L.Stage, s': L.Stage, r': string)
    ensures OperationKey(e, s, StageName(s') + ":" + r') == OperationKey(e + ":" + StageName(s), s', r')
    ensures e != e + ":" + StageName(s)
  {
    CollisionsShareKey(e, s, StageName(s') + ":" + r', e + ":" + StageName(s), s', r');
  }

  lemma {:induction false} EffectIsOperation(e: string, s: L.Stage, r: string, f: string, t: string)
    ensures EffectKey(OperationKey(e, s, r), f, t) == OperationKey(e, s, r + ":" + (f + ":" + t))
  {
    Regroup(OperationKey(e, s, r), f, t);
    Regroup(e + ":" + StageName(s), r, f + ":" + t);
  }

  /** For every target, colons or not. */
  lemma {:induction false} EffectKeyInjective(
    e: string, s: L.Stage, r: string, f: string, t: string,
    e': string, s': L.Stage, r': string, f': string, t': string)
    requires ColonFree(e) && ColonFree(e') && ColonFree(r) && ColonFree(r') && ColonFree(f) && ColonFree(f')
    requires EffectKey(OperationKey(e, s, r), f, t) == EffectKey(OperationKey(e', s', r'), f', t')
    ensures e == e' && s == s' && r == r' && f == f' && t == t'
  {
    var tail := r + ":" + (f + ":" + t);
    var tail' := r' + ":" + (f' + ":" + t');
    EffectIsOperation(e, s, r, f, t);
    EffectIsOperation(e', s', r', f', t');
    OperationKeyInjective(e, s, tail, e', s', tail');
    FirstCut(r, f + ":" + t, r', f' + ":" + t');
    FirstCut(f, t, f', t');
  }

  function Colons(s: string): nat {
    if s == [] then 0 else (if s[0] == ':' then 1 else 0) + Colons(s[1..])
  }

  lemma {:induction false} ColonsConcat(a: string, b: string)
    ensures Colons(a + b) == Colons(a) + Colons(b)
  {
    if a == [] {
      assert a + b == b;
    } else {
      assert (a + b)[1..] == a[1..] + b;
      ColonsConcat(a[1..], b);
    }
  }

  lemma {:induction false} NoColons(s: string)
    requires ColonFree(s)
    ensures Colons(s) == 0
  {
    if s != [] {
      NoColons(s[1..]);
    }
  }

  lemma {:induction false} ColonsBetween(a: string, b: string)
    ensures Colons(a + ":" + b) == Colons(a) + 1 + Colons(b)
  {
    ColonsConcat(a + ":", b);
    ColonsConcat(a, ":");
    assert ":"[1..] == "" && Colons(":") == 1 + Colons("");
  }

  /** Colon-free parts keep the three families apart: two, three and at least four colons. */
  lemma {:induction false} ColonsOfFamilies(e: string, s: L.Stage, r: string, n: nat, f: string, t: string)
    requires ColonFree(e) && ColonFree(r) && ColonFree(f)
    ensures Colons(OperationKey(e, s, r)) == 2
    ensures Colons(AttemptId(OperationKey(e, s, r), n)) == 3
    ensures Colons(EffectKey(OperationKey(e, s, r), f, t)) >= 4
  {
    StageNames(s, s);
    DigitsColonFree(n);
    NoColons(e);
    NoColons(r);
    NoColons(StageName(s));
    NoColons(f);
    NoColons(Digits(n));
    ColonsBetween(e, StageName(s));
    ColonsBetween(e + ":" + StageName(s), r);
    var key := OperationKey(e, s, r);
    ColonsBetween(key, Digits(n));
    ColonsBetween(key, f);
    ColonsBetween(key + ":" + f, t);
  }

  /** No key of one family is a key of another, whatever parts they are built from. */
  lemma {:induction false} NoKeyInTwoFamilies(
    e: string, s: L.Stage, r: string, e': string, s': L.Stage, r': string, n: nat,
    e'': string, s'': L.Stage, r'': string, f: string, t: string)
    requires ColonFree(e) && ColonFree(r) && ColonFree(e') && ColonFree(r')
    requires ColonFree(e'') && ColonFree(r'') && ColonFree(f)
    ensures OperationKey(e, s, r) != AttemptId(OperationKey(e', s', r'), n)
    ensures OperationKey(e, s, r) != EffectKey(OperationKey(e'', s'', r''), f, t)
    ensures AttemptId(OperationKey(e', s', r'), n) != EffectKey(OperationKey(e'', s'', r''), f, t)
  {
    ColonsOfFamilies(e, s, r, n, f, t);
    ColonsOfFamilies(e', s', r', n, f, t);
    ColonsOfFamilies(e'', s'', r'', n, f, t);
  }

  // ----- the columns that store them

  const EXECUTION_ID := 128
  const INPUT_REVISION := 128
  const OPERATION_KEY := 512
  const STAGE_ID := 256
  const ATTEMPT_ID := 640
  const MAX_INTEGER := 0x7fff_ffff

  /** Parts that fit their columns make keys that fit theirs. */
  lemma {:induction false} KeysFit(e: string, s: L.Stage, r: string, n: nat)
    requires |e| <= EXECUTION_ID && |r| <= INPUT_REVISION && n <= MAX_INTEGER
    ensures |OperationKey(e, s, r)| <= OPERATION_KEY
    ensures |AttemptId(OperationKey(e, s, r), n)| <= ATTEMPT_ID
  {
    StageNames(s, s);
    PowerTen();
    DigitsLength(n, 10);
  }

  lemma {:induction false} PowerTen()
    ensures Power10(10) == 10_000_000_000
  {
    assert Power10(5) == 100_000;
    assert Power10(8) == 1000 * Power10(5);
  }

  /** The stage row uses the operation key as its id too, and that column is narrower than the parts allow. */
  lemma {:induction false} StageIdFits(e: string, s: L.Stage, r: string)
    requires |e| <= EXECUTION_ID && |r| <= INPUT_REVISION
    ensures |OperationKey(e, s, r)| <= STAGE_ID <==> |e| + |StageName(s)| + |r| <= 254
    ensures |e| == EXECUTION_ID && |r| == INPUT_REVISION ==> |OperationKey(e, s, r)| > STAGE_ID
  {
    StageNames(s, s);
  }

  // ----- attempts of one operation

  /** Every accepted retry of a stage run opens an attempt whose id no earlier attempt of the operation had. */
  lemma {:induction false} AttemptIdsDistinct(key: string, stage: L.Stage, calls: seq<L.StageCall>, i: nat, j: nat)
    requires i < j < |calls|
    requires calls[i].BeginRetry? && L.Accepts(L.StageAfter(stage, calls[..i]), calls[i])
    requires calls[j].BeginRetry? && L.Accepts(L.StageAfter(stage, calls[..j]), calls[j])
    ensures calls[i].attempt >= 2 && calls[j].attempt > calls[i].attempt
    ensures AttemptId(key, 1) != AttemptId(key, calls[i].attempt)
    ensures AttemptId(key, calls[i].attempt) != AttemptId(key, calls[j].attempt)
  {
    L.AttemptsOnlyGrow(stage, calls, i, j);
    L.StageHistory(stage, calls[..i]);
    if AttemptId(key, calls[i].attempt) == AttemptId(key, calls[j].attempt) {
      AttemptIdInjective(key, calls[i].attempt, key, calls[j].attempt);
    }
    if AttemptId(key, 1) == AttemptId(key, calls[i].attempt) {
      AttemptIdInjective(key, 1, key, calls[i].attempt);
    }
  }

  // ----- reading keys back

  function StageOf(name: string): Option<L.Stage> {
    if name == "specification" then Some(L.Specification)
    else if name == "planning" then Some(L.Planning)
    else if name == "construction" then Some(L.Construction)
    else if name == "review_verification" then Some(L.ReviewVerification)
    else if name == "release" then Some(L.Release)
    else None
  }

  function DigitValue(c: char): nat
    requires '0' <= c <= '9'
  {
    c as int - '0' as int
  }

  predicate Decimal(s: string) { s != "" && forall i :: 0 <= i < |s| ==> '0' <= s[i] <= '9' }

  function Number(s: string): nat
    requires Decimal(s)
  {
    if |s| == 1 then DigitValue(s[0]) else 10 * Number(s[..|s| - 1]) + DigitValue(s[|s| - 1])
  }

  /** Attempt numbers are written in decimal, without leading zeros. */
  lemma {:induction false} DigitsReadBack(n: nat)
    ensures Decimal(Digits(n)) && Number(Digits(n)) == n
    ensures n > 0 ==> Digits(n)[0] != '0'
  {
    if n >= 10 {
      DigitsReadBack(n / 10);
      var s := Digits(n);
      assert s[..|s| - 1] == Digits(n / 10);
    }
  }

  lemma {:induction false} SplitFirst(p: string, rest: string)
    requires ColonFree(p)
    ensures Split(p + ":" + rest, ':') == [p] + Split(rest, ':')
  {
    SplitPrefix(p, rest, ':');
  }

  /** The parts of an operation key: up to the first colon, up to the second, and the rest. */
  function ReadOperation(key: string): Option<(string, L.Stage, string)> {
    var parts := Split(key, ':');
    if |parts| < 3 then None
    else
      var stage := StageOf(parts[1]);
      if stage.None? then None else Some((parts[0], stage.value, Join(parts[2..], ':')))
  }

  lemma {:induction false} StageReadBack(s: L.Stage)
    ensures StageOf(StageName(s)) == Some(s) && ColonFree(StageName(s))
  {
    StageNames(s, s);
  }

  lemma {:induction false} OperationReadBack(e: string, s: L.Stage, r: string)
    requires ColonFree(e)
    ensures ReadOperation(OperationKey(e, s, r)) == Some((e, s, r))
  {
    var name := StageName(s);
    StageReadBack(s);
    Regroup(e, name, r);
    SplitFirst(e, name + ":" + r);
    SplitFirst(name, r);
    JoinSplit(r, ':');
    Twice(e, name, Split(r, ':'));
  }

  lemma {:induction false} Twice<T>(a: T, b: T, rest: seq<T>)
    ensures var all := [a] + ([b] + rest);
            |all| == 2 + |rest| && all[0] == a && all[1] == b && all[2..] == rest
  {
  }

  /** The parts of an attempt id: up to the last colon, and the number after it. */
  lemma {:induction false} AttemptReadBack(key: string, n: nat)
    ensures var id := AttemptId(key, n);
            && |id| > |key| && id[..|key|] == key && id[|key|] == ':'
            && Decimal(id[|key| + 1..]) && Number(id[|key| + 1..]) == n
            && forall i :: |key| < i < |id| ==> id[i] != ':'
  {
    DigitsReadBack(n);
    CutAt(key, Digits(n));
  }

  /** An effect key is its operation key, then the effect, then the target. */
  lemma {:induction false} EffectReadBack(e: string, s: L.Stage, r: string, f: string, t: string)
    requires ColonFree(e) && ColonFree(r) && ColonFree(f)
    ensures var parts := Split(EffectKey(OperationKey(e, s, r), f, t), ':');
            && |parts| >= 5 && parts[0] == e && StageOf(parts[1]) == Some(s) && parts[2] == r && parts[3] == f
            && Join(parts[4..], ':') == t
  {
    var name := StageName(s);
    StageReadBack(s);
    EffectGrouped(e, name, r, f, t);
    SplitFirst(e, name + ":" + (r + ":" + (f + ":" + t)));
    SplitFirst(name, r + ":" + (f + ":" + t));
    SplitFirst(r, f + ":" + t);
    SplitFirst(f, t);
    JoinSplit(t, ':');
    FourParts(e, name, r, f, Split(t, ':'));
  }

  lemma {:induction false} EffectGrouped(e: string, name: string, r: string, f: string, t: string)
    ensures (e + ":" + name + ":" + r) + ":" + f + ":" + t == e + ":" + (name + ":" + (r + ":" + (f + ":" + t)))
  {
    Regroup(e, name, r);
    Regroup(r, f, t);
    Regroup(e + ":" + name, r, f + ":" + t);
    Regroup(e + ":" + name + ":" + r, f, t);
    Regroup(e, name, r + ":" + (f + ":" + t));
  }

  lemma {:induction false} FourParts<T>(a: T, b: T, c: T, d: T, rest: seq<T>)
    ensures var all := [a] + ([b] + ([c] + ([d] + rest)));
            |all| == 4 + |rest| && all[0] == a && all[1] == b && all[2] == c && all[3] == d && all[4..] == rest
  {
  }
}
