/** Splitting, joining and trimming, as the console and the domain models use them. */
module Text {
  import opened Base

  /** Cut `s` at every `sep`; an empty input is one empty part. */
  function Split<T(==)>(s: seq<T>, sep: T): (parts: seq<seq<T>>)
    ensures |parts| >= 1
    ensures forall i :: 0 <= i < |parts| ==> sep !in parts[i]
  {
    if s == [] then [[]]
    else
      var rest := Split(s[1..], sep);
      if s[0] == sep then [[]] + rest else [[s[0]] + rest[0]] + rest[1..]
  }

  function Join<T>(parts: seq<seq<T>>, sep: T): seq<T> {
    if parts == [] then []
    else if |parts| == 1 then parts[0]
    else parts[0] + [sep] + Join(parts[1..], sep)
  }

  lemma {:induction false} JoinSplit<T>(s: seq<T>, sep: T)
    ensures Join(Split(s, sep), sep) == s
  {
    if s != [] {
      var rest := Split(s[1..], sep);
      JoinSplit(s[1..], sep);
      if s[0] == sep {
        assert Split(s, sep)[1..] == rest;
      } else if |rest| > 1 {
        assert Split(s, sep)[1..] == rest[1..];
      }
    }
  }

  lemma {:induction false} SplitPrefix<T>(p: seq<T>, rest: seq<T>, sep: T)
    requires sep !in p
    ensures Split(p + [sep] + rest, sep) == [p] + Split(rest, sep)
    ensures Split(p, sep) == [p]
  {
    if p == [] {
      assert p + [sep] + rest == [sep] + rest;
      assert ([sep] + rest)[1..] == rest;
    } else {
      SplitPrefix(p[1..], rest, sep);
      assert (p + [sep] + rest)[1..] == p[1..] + [sep] + rest;
      assert p == [p[0]] + p[1..];
    }
  }

  lemma {:induction false} SplitJoin<T>(parts: seq<seq<T>>, sep: T)
    requires parts != []
    requires forall i :: 0 <= i < |parts| ==> sep !in parts[i]
    ensures Split(Join(parts, sep), sep) == parts
  {
    assert parts == [parts[0]] + parts[1..];
    if |parts| == 1 {
      SplitPrefix(parts[0], [], sep);
    } else {
      SplitJoin(parts[1..], sep);
      SplitPrefix(parts[0], Join(parts[1..], sep), sep);
    }
  }

  lemma {:induction false} JoinConcat<T>(a: seq<seq<T>>, b: seq<seq<T>>, sep: T)
    requires a != [] && b != []
    ensures Join(a + b, sep) == Join(a, sep) + [sep] + Join(b, sep)
  {
    if |a| == 1 {
      assert (a + b)[1..] == b;
    } else {
      assert (a + b)[1..] == a[1..] + b;
      JoinConcat(a[1..], b, sep);
    }
  }

  // ----- whitespace

  /** ASCII whitespace; the predicates below take any notion of whitespace instead. */
  predicate IsSpace(c: char) { c in " \t\n\r" || c == 11 as char || c == 12 as char }

  function TrimStart(ws: char -> bool, s: string): string {
    if s != "" && ws(s[0]) then TrimStart(ws, s[1..]) else s
  }

  function TrimEnd(ws: char -> bool, s: string): string {
    if s != "" && ws(s[|s| - 1]) then TrimEnd(ws, s[..|s| - 1]) else s
  }

  function Trim(ws: char -> bool, s: string): string { TrimEnd(ws, TrimStart(ws, s)) }

  predicate Trimmed(ws: char -> bool, s: string) { s == "" || (!ws(s[0]) && !ws(s[|s| - 1])) }

  predicate Blank(ws: char -> bool, s: string) { forall c :: c in s ==> ws(c) }

  lemma {:induction false} TrimStartStarts(ws: char -> bool, s: string)
    ensures TrimStart(ws, s) == "" || !ws(TrimStart(ws, s)[0])
    ensures forall c :: c in TrimStart(ws, s) ==> c in s
    ensures TrimStart(ws, s) == "" <==> Blank(ws, s)
  {
    if s != "" && ws(s[0]) {
      TrimStartStarts(ws, s[1..]);
      assert s == [s[0]] + s[1..];
    }
  }

  lemma {:induction false} TrimEndEnds(ws: char -> bool, s: string)
    requires s == "" || !ws(s[0])
    ensures TrimEnd(ws, s) == "" <==> s == ""
    ensures Trimmed(ws, TrimEnd(ws, s))
    ensures TrimEnd(ws, s) <= s
  {
    if s != "" && ws(s[|s| - 1]) {
      TrimEndEnds(ws, s[..|s| - 1]);
    }
  }

  /** Trimming yields a trimmed string, empty exactly for a blank one, made of the same characters. */
  lemma {:induction false} TrimTrims(ws: char -> bool, s: string)
    ensures Trimmed(ws, Trim(ws, s))
    ensures Trim(ws, s) == "" <==> Blank(ws, s)
    ensures forall c :: c in Trim(ws, s) ==> c in s
  {
    TrimStartStarts(ws, s);
    TrimEndEnds(ws, TrimStart(ws, s));
  }

  lemma {:induction false} TrimKeepsTrimmed(ws: char -> bool, s: string)
    requires Trimmed(ws, s)
    ensures Trim(ws, s) == s
  {
  }

  lemma {:induction false} TrimStartCuts(ws: char -> bool, s: string) returns (pre: string)
    ensures s == pre + TrimStart(ws, s) && Blank(ws, pre)
  {
    if s != "" && ws(s[0]) {
      var rest := TrimStartCuts(ws, s[1..]);
      pre := [s[0]] + rest;
    } else {
      pre := "";
    }
  }

  lemma {:induction false} TrimEndCuts(ws: char -> bool, s: string) returns (post: string)
    ensures s == TrimEnd(ws, s) + post && Blank(ws, post)
  {
    if s != "" && ws(s[|s| - 1]) {
      var rest := TrimEndCuts(ws, s[..|s| - 1]);
      post := rest + [s[|s| - 1]];
    } else {
      post := "";
    }
  }

  /** Trimming takes away whitespace at both ends and nothing else. */
  lemma {:induction false} TrimExactly(ws: char -> bool, s: string) returns (pre: string, post: string)
    ensures s == pre + Trim(ws, s) + post && Blank(ws, pre) && Blank(ws, post) && Trimmed(ws, Trim(ws, s))
  {
    TrimTrims(ws, s);
    pre := TrimStartCuts(ws, s);
    post := TrimEndCuts(ws, TrimStart(ws, s));
    assert pre + (Trim(ws, s) + post) == pre + Trim(ws, s) + post;
  }

  /** Trimmed text, or none for a blank one. */
  function Stated(ws: char -> bool, s: string): Option<string> {
    if Trim(ws, s) == "" then None else Some(Trim(ws, s))
  }

  function StatedIfAny(ws: char -> bool, s: Option<string>): Option<string> {
    if s.None? then None else Stated(ws, s.value)
  }

  /** Trimmed entries in order, blank ones dropped. */
  function CleanLines(ws: char -> bool, lines: seq<string>): seq<string> {
    if lines == [] then []
    else
      var last := Stated(ws, lines[|lines| - 1]);
      CleanLines(ws, lines[..|lines| - 1]) + if last.None? then [] else [last.value]
  }
}
