/** The editor's split of a document into frontmatter and body. */
module Frontmatter {
  import opened Base
  import opened Text

  predicate IsDelimiter(line: string) { line == "---" || line == "..." }

  /** Line `k` closes the block that line 0 opens. */
  ghost predicate Closes(lines: seq<string>, k: nat) {
    && 1 <= k < |lines| && lines[0] == "---" && (lines[k] == "---" || lines[k] == "...")
    && forall i :: 1 <= i < k ==> lines[i] != "---" && lines[i] != "..."
  }

  /** The text starts with the line `p`, or is nothing else. */
  predicate StartsWithLine(text: string, p: string) {
    text == p || (|text| > |p| && text[..|p|] == p && text[|p|] == '\n')
  }

  lemma {:induction false} StartsExactly(text: string, p: string)
    requires '\n' !in p
    ensures StartsWithLine(text, p) <==> Split(text, '\n')[0] == p
  {
    var lines := Split(text, '\n');
    JoinSplit(text, '\n');
    if text == p {
      SplitPrefix(p, "", '\n');
    } else if StartsWithLine(text, p) {
      assert text == p + ['\n'] + text[|p| + 1..];
      SplitPrefix(p, text[|p| + 1..], '\n');
    } else if |lines| > 1 {
      assert text == lines[0] + ['\n'] + Join(lines[1..], '\n');
    }
  }

  ghost predicate CutAt(content: string, k: nat, frontmatter: string, body: string) {
    var lines := Split(content, '\n');
    Closes(lines, k) && frontmatter == Join(lines[1..k], '\n') && body == Join(lines[k + 1..], '\n')
  }

  /** The first delimiter after the opening line, or the number of lines. */
  method FindDelimiter(lines: seq<string>) returns (index: nat)
    requires lines != []
    ensures 1 <= index <= |lines| && forall i :: 1 <= i < index ==> !IsDelimiter(lines[i])
    ensures index < |lines| ==> IsDelimiter(lines[index])
  {
    index := 1;
    while index < |lines|
      invariant 1 <= index <= |lines| && forall i :: 1 <= i < index ==> !IsDelimiter(lines[i])
    {
      if IsDelimiter(lines[index]) {
        return;
      }
      index := index + 1;
    }
  }

  method SplitFrontmatter(content: string) returns (frontmatter: Option<string>, body: string)
    ensures frontmatter.None? ==> body == content && forall k: nat :: !Closes(Split(content, '\n'), k)
    ensures frontmatter.Some? ==> exists k: nat :: CutAt(content, k, frontmatter.value, body)
  {
    frontmatter, body := None, content;
    var lines := Split(content, '\n');
    StartsExactly(content, "---");
    if StartsWithLine(content, "---") {
      var index := FindDelimiter(lines);
      if index < |lines| {
        frontmatter, body := Some(Join(lines[1..index], '\n')), Join(lines[index + 1..], '\n');
        assert CutAt(content, index, frontmatter.value, body);
      }
    }
  }

  /** Lines with the newline that ends each of them. */
  function Terminated(lines: seq<string>): string {
    if lines == [] then "" else lines[0] + ['\n'] + Terminated(lines[1..])
  }

  lemma {:induction false} JoinTerminated(lines: seq<string>)
    requires lines != []
    ensures Join(lines, '\n') + ['\n'] == Terminated(lines)
  {
    if |lines| > 1 {
      JoinTerminated(lines[1..]);
    }
  }

  /** What follows a closing line: nothing, or a newline and the body. */
  function Ending(rest: seq<string>): string {
    if rest == [] then "" else ['\n'] + Join(rest, '\n')
  }

  /**
   Nothing is hidden: the document is the opening line, the frontmatter lines, the closing line and the body, which
   is its end.  The two joins lose only whether a block is empty or one blank line, and whether the closing line
   ends in a newline.
   */
  lemma {:induction false} NothingIsHidden(content: string, k: nat)
    requires Closes(Split(content, '\n'), k)
    ensures var lines := Split(content, '\n');
            && content == Terminated(["---"] + lines[1..k]) + lines[k] + Ending(lines[k + 1..])
            && (forall j: nat :: Closes(lines, j) ==> j == k)
  {
    var lines := Split(content, '\n');
    JoinSplit(content, '\n');
    var head, tail := lines[..k], lines[k..];
    assert lines == head + tail;
    JoinConcat(head, tail, '\n');
    JoinTerminated(head);
    assert head == ["---"] + lines[1..k];
    assert tail[0] == lines[k] && tail[1..] == lines[k + 1..];
    assert Join(tail, '\n') == lines[k] + Ending(lines[k + 1..]);
  }

  lemma {:induction false} Regroup(a: string, b: string, c: string, d: string)
    ensures a + b + c + d == a + b + (c + d)
  {
  }

  lemma {:induction false} SplitTerminated(block: seq<string>, rest: string)
    requires forall i :: 0 <= i < |block| ==> '\n' !in block[i]
    ensures Split(Terminated(block) + rest, '\n') == block + Split(rest, '\n')
  {
    if block == [] {
      assert Terminated(block) + rest == rest;
    } else {
      var tail := block[1..];
      SplitTerminated(tail, rest);
      SplitPrefix(block[0], Terminated(tail) + rest, '\n');
      Regroup(block[0], ['\n'], Terminated(tail), rest);
      assert [block[0]] + (tail + Split(rest, '\n')) == block + Split(rest, '\n');
    }
  }

  /** Writing a block in front of a body and splitting again gives both back. */
  lemma {:induction false} SplitUndoesWriting(block: seq<string>, close: string, body: string)
    requires close == "---" || close == "..."
    requires forall i :: 0 <= i < |block| ==> '\n' !in block[i] && block[i] != "---" && block[i] != "..."
    ensures var lines := Split(Terminated(["---"] + block + [close]) + body, '\n');
            && Closes(lines, |block| + 1) && lines[1..|block| + 1] == block
            && Join(lines[|block| + 2..], '\n') == body
  {
    var written := ["---"] + block + [close];
    forall i | 0 <= i < |written| ensures '\n' !in written[i] {
      if 1 <= i <= |block| {
        assert written[i] == block[i - 1];
      }
    }
    SplitTerminated(written, body);
    JoinSplit(body, '\n');
    var lines := written + Split(body, '\n');
    assert lines[|block| + 2..] == Split(body, '\n');
    assert forall i :: 1 <= i <= |block| ==> lines[i] == block[i - 1];
    assert lines[0] == "---" && lines[|block| + 1] == close;
  }
}
