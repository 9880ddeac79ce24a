/**
 The brief of a change: the form text of the console, the wire brief it becomes, and the server's own cleaning.
 Whitespace is any notion that counts the carriage return.
 */
module Brief {
  import opened Base
  import opened Text

  datatype Status = Complete | Draft

  datatype Author = Agent | Operator

  /** The four editable fields as form text; lists have one entry per line. */
  datatype Fields = Fields(problem: string, goal: string, constraints: string, outOfScope: string)

  /** The structured fields of a brief. */
  datatype Structured = Structured(
    problem: Option<string>, goal: Option<string>, constraints: seq<string>, outOfScope: seq<string>)

  datatype WireBrief = WireBrief(
    content: Structured, source: Option<string>, status: Status, author: Option<Author>, error: Option<string>)

  // ----- lines

  /** A line as the separator `\r?\n` leaves it: without one carriage return before its newline. */
  function DropCr(line: string): string {
    if line != "" && line[|line| - 1] == '\r' then line[..|line| - 1] else line
  }

  /** Cut at every newline, with or without a carriage return before it. */
  function CutLines(text: string): seq<string> {
    var parts := Split(text, '\n');
    DropCrs(parts[..|parts| - 1]) + [parts[|parts| - 1]]
  }

  function DropCrs(lines: seq<string>): (r: seq<string>)
    ensures |r| == |lines| && forall i :: 0 <= i < |r| ==> r[i] == DropCr(lines[i])
  {
    if lines == [] then [] else DropCrs(lines[..|lines| - 1]) + [DropCr(lines[|lines| - 1])]
  }

  function SplitLines(ws: char -> bool, text: string): seq<string> {
    CleanLines(ws, CutLines(text))
  }

  ghost predicate CleanLine(ws: char -> bool, line: string) {
    line != "" && Trimmed(ws, line) && '\n' !in line
  }

  ghost predicate AllClean(ws: char -> bool, lines: seq<string>) {
    forall i :: 0 <= i < |lines| ==> CleanLine(ws, lines[i])
  }

  lemma {:induction false} CleanLinesAreClean(ws: char -> bool, lines: seq<string>)
    requires forall i :: 0 <= i < |lines| ==> '\n' !in lines[i]
    ensures AllClean(ws, CleanLines(ws, lines))
  {
    if lines != [] {
      CleanLinesAreClean(ws, lines[..|lines| - 1]);
      TrimTrims(ws, lines[|lines| - 1]);
    }
  }

  lemma {:induction false} CleanLineIsStated(ws: char -> bool, line: string)
    requires CleanLine(ws, line)
    ensures Stated(ws, line) == Some(line)
  {
    TrimKeepsTrimmed(ws, line);
  }

  lemma {:induction false} CleanLinesKeepsClean(ws: char -> bool, lines: seq<string>)
    requires AllClean(ws, lines)
    ensures CleanLines(ws, lines) == lines
  {
    if lines != [] {
      var init, last := lines[..|lines| - 1], lines[|lines| - 1];
      CleanLinesKeepsClean(ws, init);
      CleanLineIsStated(ws, last);
      assert lines == init + [last];
    }
  }

  lemma {:induction false} SplitLinesAreClean(ws: char -> bool, text: string)
    ensures AllClean(ws, SplitLines(ws, text))
  {
    var parts := Split(text, '\n');
    CleanLinesAreClean(ws, CutLines(text));
  }

  /** Writing clean entries one per line and reading them back gives the same entries. */
  lemma {:induction false} SplitLinesOfJoin(ws: char -> bool, lines: seq<string>)
    requires ws('\r') && AllClean(ws, lines)
    ensures SplitLines(ws, Join(lines, '\n')) == lines
  {
    if lines == [] {
      assert Split("", '\n') == [""];
      assert CutLines("") == [] + [""] == [""];
      assert [""][..0] == [];
      assert TrimStart(ws, "") == "";
      assert CleanLines(ws, [""]) == CleanLines(ws, []) + [];
    } else {
      SplitJoin(lines, '\n');
      var init := lines[..|lines| - 1];
      assert DropCrs(init) == init;
      assert CutLines(Join(lines, '\n')) == lines;
      CleanLinesKeepsClean(ws, lines);
    }
  }

  /** Clean lists that are joined to the same text are the same list. */
  lemma {:induction false} JoinInjective(ws: char -> bool, a: seq<string>, b: seq<string>)
    requires ws('\r') && AllClean(ws, a) && AllClean(ws, b)
    ensures Join(a, '\n') == Join(b, '\n') <==> a == b
  {
    SplitLinesOfJoin(ws, a);
    SplitLinesOfJoin(ws, b);
  }

  // ----- form text and wire brief

  function StructuredOf(ws: char -> bool, f: Fields): Structured {
    Structured(Stated(ws, f.problem), Stated(ws, f.goal), SplitLines(ws, f.constraints), SplitLines(ws, f.outOfScope))
  }

  function DeriveStatus(ws: char -> bool, f: Fields): Status {
    if Trim(ws, f.problem) != "" && Trim(ws, f.goal) != "" then Complete else Draft
  }

  function FieldsToBrief(
    ws: char -> bool, f: Fields, source: Option<string>, author: Author, error: Option<string>): WireBrief {
    WireBrief(StructuredOf(ws, f), StatedIfAny(ws, source), DeriveStatus(ws, f),
              Some(author), error)
  }

  /** The stated text is the form's own without the whitespace around it. */
  ghost predicate Stands(ws: char -> bool, text: string, stated: Option<string>) {
    if Blank(ws, text) then stated == None
    else stated.Some? && stated.value != "" && Trimmed(ws, stated.value)
         && exists pre, post :: text == pre + stated.value + post && Blank(ws, pre) && Blank(ws, post)
  }

  lemma {:induction false} StatedStands(ws: char -> bool, text: string)
    ensures Stands(ws, text, Stated(ws, text))
  {
    TrimTrims(ws, text);
    var pre, post := TrimExactly(ws, text);
  }

  /** A brief says what the form says, and is complete exactly if problem and goal are more than whitespace. */
  lemma {:induction false} CompleteExactly(
    ws: char -> bool, f: Fields, source: Option<string>, author: Author, error: Option<string>)
    ensures var b := FieldsToBrief(ws, f, source, author, error);
            && (b.status == Complete <==> !Blank(ws, f.problem) && !Blank(ws, f.goal))
            && Stands(ws, f.problem, b.content.problem) && Stands(ws, f.goal, b.content.goal)
            && (if source.Some? then Stands(ws, source.value, b.source) else b.source == None)
            && b.author == Some(author) && b.error == error
  {
    TrimTrims(ws, f.problem);
    TrimTrims(ws, f.goal);
    StatedStands(ws, f.problem);
    StatedStands(ws, f.goal);
    if source.Some? {
      StatedStands(ws, source.value);
    }
  }

  /** How many of the lines have something in them. */
  function Written(ws: char -> bool, lines: seq<string>): nat {
    if lines == [] then 0
    else Written(ws, lines[..|lines| - 1]) + if Blank(ws, lines[|lines| - 1]) then 0 else 1
  }

  lemma {:induction false} LastLine(ws: char -> bool, lines: seq<string>)
    requires lines != []
    ensures var init, last := lines[..|lines| - 1], lines[|lines| - 1];
            CleanLines(ws, lines) == CleanLines(ws, init) + if Blank(ws, last) then [] else [Trim(ws, last)]
  {
    TrimTrims(ws, lines[|lines| - 1]);
  }

  /** Every line with something in it is kept, trimmed and in its place, and no other. */
  lemma {:induction false} LinesExactly(ws: char -> bool, lines: seq<string>)
    ensures |CleanLines(ws, lines)| == Written(ws, lines)
    ensures forall k :: 0 <= k < |lines| && !Blank(ws, lines[k]) ==>
              Written(ws, lines[..k]) < Written(ws, lines)
              && CleanLines(ws, lines)[Written(ws, lines[..k])] == Trim(ws, lines[k])
  {
    if lines != [] {
      var n := |lines| - 1;
      var init := lines[..n];
      LinesExactly(ws, init);
      LastLine(ws, lines);
      forall k | 0 <= k < |lines| && !Blank(ws, lines[k])
        ensures Written(ws, lines[..k]) < Written(ws, lines)
        ensures CleanLines(ws, lines)[Written(ws, lines[..k])] == Trim(ws, lines[k])
      {
        if k < n {
          assert init[..k] == lines[..k] && init[k] == lines[k];
        }
      }
    }
  }

  function OrEmpty(text: Option<string>): string { if text.None? then "" else text.value }

  function BriefToFields(brief: Option<WireBrief>): Fields {
    if brief.None? then Fields("", "", "", "")
    else
      var c := brief.value.content;
      Fields(OrEmpty(c.problem), OrEmpty(c.goal), Join(c.constraints, '\n'), Join(c.outOfScope, '\n'))
  }

  predicate SameFields(ws: char -> bool, a: Fields, b: Fields) {
    && Trim(ws, a.problem) == Trim(ws, b.problem)
    && Trim(ws, a.goal) == Trim(ws, b.goal)
    && Join(SplitLines(ws, a.constraints), '\n') == Join(SplitLines(ws, b.constraints), '\n')
    && Join(SplitLines(ws, a.outOfScope), '\n') == Join(SplitLines(ws, b.outOfScope), '\n')
  }

  function AuthorOf(ws: char -> bool, f: Fields, agent: Option<Fields>): Author {
    if agent.Some? && SameFields(ws, f, agent.value) then Agent else Operator
  }

  /** Two forms count as the same exactly if they become the same structured fields. */
  lemma {:induction false} SameFieldsExactly(ws: char -> bool, a: Fields, b: Fields)
    requires ws('\r')
    ensures SameFields(ws, a, b) <==> StructuredOf(ws, a) == StructuredOf(ws, b)
  {
    SplitLinesAreClean(ws, a.constraints);
    SplitLinesAreClean(ws, b.constraints);
    SplitLinesAreClean(ws, a.outOfScope);
    SplitLinesAreClean(ws, b.outOfScope);
    JoinInjective(ws, SplitLines(ws, a.constraints), SplitLines(ws, b.constraints));
    JoinInjective(ws, SplitLines(ws, a.outOfScope), SplitLines(ws, b.outOfScope));
  }

  ghost predicate CleanText(ws: char -> bool, text: Option<string>) {
    text.Some? ==> text.value != "" && Trimmed(ws, text.value)
  }

  ghost predicate CleanBrief(ws: char -> bool, c: Structured) {
    CleanText(ws, c.problem) && CleanText(ws, c.goal) && AllClean(ws, c.constraints) && AllClean(ws, c.outOfScope)
  }

  lemma {:induction false} StatedIsClean(ws: char -> bool, text: string)
    ensures CleanText(ws, Stated(ws, text))
  {
    TrimTrims(ws, text);
  }

  lemma {:induction false} StatedKeepsClean(ws: char -> bool, text: Option<string>)
    requires CleanText(ws, text)
    ensures Stated(ws, OrEmpty(text)) == text
  {
    TrimKeepsTrimmed(ws, OrEmpty(text));
  }

  /** Whatever the form holds, the brief it becomes is clean. */
  lemma {:induction false} FormsBecomeCleanBriefs(ws: char -> bool, f: Fields)
    ensures CleanBrief(ws, StructuredOf(ws, f))
  {
    StatedIsClean(ws, f.problem);
    StatedIsClean(ws, f.goal);
    SplitLinesAreClean(ws, f.constraints);
    SplitLinesAreClean(ws, f.outOfScope);
  }

  /** Opening a brief in the form and saving it changes nothing exactly if the brief was clean. */
  lemma {:induction false} RoundTripExactly(ws: char -> bool, brief: WireBrief)
    requires ws('\r')
    ensures StructuredOf(ws, BriefToFields(Some(brief))) == brief.content <==> CleanBrief(ws, brief.content)
  {
    var c := brief.content;
    FormsBecomeCleanBriefs(ws, BriefToFields(Some(brief)));
    if CleanBrief(ws, c) {
      StatedKeepsClean(ws, c.problem);
      StatedKeepsClean(ws, c.goal);
      SplitLinesOfJoin(ws, c.constraints);
      SplitLinesOfJoin(ws, c.outOfScope);
    }
  }

  // ----- the server

  /** The server cleans every field again and derives the status itself. */
  function ServerBrief(ws: char -> bool, b: WireBrief): WireBrief {
    var content := Structured(StatedIfAny(ws, b.content.problem), StatedIfAny(ws, b.content.goal),
                              CleanLines(ws, b.content.constraints), CleanLines(ws, b.content.outOfScope));
    WireBrief(content, StatedIfAny(ws, b.source),
              if content.problem.Some? && content.goal.Some? then Complete else Draft, b.author,
              StatedIfAny(ws, b.error))
  }

  lemma {:induction false} StatedIfAnyKeepsClean(ws: char -> bool, text: Option<string>)
    requires CleanText(ws, text)
    ensures StatedIfAny(ws, text) == text
  {
    if text.Some? {
      TrimKeepsTrimmed(ws, text.value);
    }
  }

  /** The server keeps what the form sends as it is, and derives the status the console showed. */
  lemma {:induction false} ServerAgrees(
    ws: char -> bool, f: Fields, source: Option<string>, author: Author, error: Option<string>)
    ensures var sent := FieldsToBrief(ws, f, source, author, error);
            ServerBrief(ws, sent) == sent.(error := StatedIfAny(ws, error))
  {
    var sent := FieldsToBrief(ws, f, source, author, error);
    FormsBecomeCleanBriefs(ws, f);
    if source.Some? {
      StatedIsClean(ws, source.value);
    }
    StatedIfAnyKeepsClean(ws, sent.content.problem);
    StatedIfAnyKeepsClean(ws, sent.content.goal);
    StatedIfAnyKeepsClean(ws, sent.source);
    CleanLinesKeepsClean(ws, sent.content.constraints);
    CleanLinesKeepsClean(ws, sent.content.outOfScope);
  }

  /** The agent keeps the authorship exactly while the saved brief equals the one its own fields would give. */
  lemma {:induction false} AgentKeepsAuthorshipExactly(ws: char -> bool, f: Fields, agent: Option<Fields>)
    requires ws('\r')
    ensures AuthorOf(ws, f, agent).Agent? <==> agent.Some? && StructuredOf(ws, f) == StructuredOf(ws, agent.value)
  {
    if agent.Some? {
      SameFieldsExactly(ws, f, agent.value);
    }
  }
}
