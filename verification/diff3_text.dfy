/** Texts as lines: splitting with the line ends kept, and joining. */
module Diff3Text {
  import opened Diff3Document
  import opened Diff3Resolve

  /** The characters that end a line. */
  predicate EndsLine(c: char) {
    var n := c as int;
    0x0a <= n <= 0x0d || 0x1c <= n <= 0x1e || n == 0x85 || n == 0x2028 || n == 0x2029
  }

  /** How long the line end at i is; a carriage return takes a line feed with it. */
  function EndLength(text: string, i: nat): (n: nat)
    requires i < |text|
    ensures n <= 2 && i + n <= |text| && (n > 0 <==> EndsLine(text[i]))
  {
    if !EndsLine(text[i]) then 0
    else if text[i] == '\r' && i + 1 < |text| && text[i + 1] == '\n' then 2
    else 1
  }

  /** Where the line that has been scanned up to i ends. */
  function LineEndFrom(text: string, i: nat): (k: nat)
    requires i <= |text|
    ensures i <= k <= |text| && (i < |text| ==> i < k)
    decreases |text| - i
  {
    if i == |text| then i
    else if EndLength(text, i) > 0 then i + EndLength(text, i)
    else LineEndFrom(text, i + 1)
  }

  function Lines(text: string): (lines: seq<Line>)
    decreases |text|
  {
    if text == "" then []
    else
      var k := LineEndFrom(text, 0);
      [text[..k]] + Lines(text[k..])
  }

  lemma {:induction false} LineEndShift(text: string, p: nat, i: nat)
    requires p + i <= |text|
    ensures LineEndFrom(text, p + i) == p + LineEndFrom(text[p..], i)
    decreases |text| - p - i
  {
    if p + i < |text| {
      assert text[p..][i] == text[p + i];
      if EndLength(text, p + i) == 0 {
        LineEndShift(text, p, i + 1);
      }
    }
  }

  method SplitLines(text: string) returns (lines: seq<Line>)
    ensures lines == Lines(text)
  {
    hide EndLength;
    lines := [];
    var start := 0;
    assert text[0..] == text;
    while start < |text|
      invariant start <= |text| && lines + Lines(text[start..]) == Lines(text)
    {
      var end := start;
      var ended := false;
      while end < |text| && !ended
        invariant start <= end <= |text| && (start == end ==> !ended)
        invariant LineEndFrom(text, start) == if ended then end else LineEndFrom(text, end)
        decreases |text| - end, !ended
      {
        var n := EndLength(text, end);
        if n > 0 {
          end, ended := end + n, true;
        } else {
          end := end + 1;
        }
      }
      LineEndShift(text, start, 0);
      var rest := text[start..];
      assert rest[..end - start] == text[start..end] && rest[end - start..] == text[end..];
      assert Lines(rest) == [text[start..end]] + Lines(text[end..]);
      lines := lines + [text[start..end]];
      start := end;
    }
    assert text[start..] == "";
  }

  /** Nothing is lost in splitting. */
  lemma {:induction false} JoinLines(text: string)
    ensures Joined(Lines(text)) == text
    decreases |text|
  {
    if text != "" {
      var k := LineEndFrom(text, 0);
      JoinLines(text[k..]);
      var lines := Lines(text);
      assert lines[0] == text[..k] && lines[1..] == Lines(text[k..]);
    }
  }

  /** The text before the rest is one line: it ends where a line ends. */
  ghost predicate OneLine(line: string, rest: string) {
    line != "" && LineEndFrom(line + rest, 0) == |line|
  }

  /** Lines that splitting can have made. */
  ghost predicate Proper(lines: seq<Line>) {
    forall k | 0 <= k < |lines| :: OneLine(lines[k], Joined(lines[k + 1..]))
  }

  lemma {:induction false} SplitJoined(lines: seq<Line>)
    requires Proper(lines)
    ensures Lines(Joined(lines)) == lines
    decreases |lines|
  {
    hide LineEndFrom;
    if lines != [] {
      var text, rest := Joined(lines), Joined(lines[1..]);
      assert OneLine(lines[0], Joined(lines[0 + 1..]));
      assert text == lines[0] + rest && text[..|lines[0]|] == lines[0] && text[|lines[0]|..] == rest;
      forall k | 0 <= k < |lines[1..]|
        ensures OneLine(lines[1..][k], Joined(lines[1..][k + 1..]))
      {
        assert lines[1..][k + 1..] == lines[k + 1 + 1..];
        assert OneLine(lines[k + 1], Joined(lines[k + 1 + 1..]));
      }
      SplitJoined(lines[1..]);
      assert lines == [lines[0]] + lines[1..];
    }
  }

  lemma {:induction false} LinesProper(text: string)
    ensures Proper(Lines(text))
    decreases |text|
  {
    hide LineEndFrom;
    if text != "" {
      var k := LineEndFrom(text, 0);
      var lines := Lines(text);
      LinesProper(text[k..]);
      JoinLines(text[k..]);
      assert lines[1..] == Lines(text[k..]) && text[..k] + text[k..] == text;
      forall j | 0 <= j < |lines|
        ensures OneLine(lines[j], Joined(lines[j + 1..]))
      {
        if j > 0 {
          assert lines[j] == lines[1..][j - 1] && lines[j + 1..] == lines[1..][j - 1 + 1..];
          assert OneLine(lines[1..][j - 1], Joined(lines[1..][j - 1 + 1..]));
        }
      }
    }
  }

  /** A text is a document's printed form: its lines joined, each of them one line. */
  ghost predicate PrintedText(text: string, doc: seq<Block>) {
    DocumentOk(doc) && Proper(Print(doc)) && Joined(Print(doc)) == text
  }

  lemma PrintedEither(text: string, doc: seq<Block>)
    ensures PrintedText(text, doc) <==> Printed(Lines(text), doc)
  {
    hide DocumentOk, Print, Proper, Lines, Joined;
    JoinLines(text);
    LinesProper(text);
    if PrintedText(text, doc) {
      SplitJoined(Print(doc));
    }
  }

  /** Resolves a whole text. */
  method ResolveDiff3(text: string, choice: string) returns (r: Resolution)
    ensures r == BadChoice <==> choice != "ours" && choice != "theirs"
    ensures r.Resolved? <==> (choice == "ours" || choice == "theirs") && exists doc :: PrintedText(text, doc) && HasConflict(doc)
    ensures forall doc :: r.Resolved? && PrintedText(text, doc) ==> r.text == Joined(Choose(doc, choice == "theirs"))
    ensures r in {MissingBase, MissingSeparator, MissingEnd} ==> Unfinished(Lines(text), r)
  {
    hide PrintedText, Printed, HasConflict, Choose, Joined, Lines;
    var lines := SplitLines(text);
    r := Resolve(lines, choice);
    forall doc
      ensures PrintedText(text, doc) <==> Printed(lines, doc)
    {
      PrintedEither(text, doc);
    }
  }

  /** The characters that end a line: line feed, vertical tab, form feed, carriage return,
      the three information separators, next line, and the two Unicode separators. */
  lemma LineEndsAre(c: char)
    ensures EndsLine(c) <==> c as int in {10, 11, 12, 13, 28, 29, 30, 133, 8232, 8233}
  {
  }

  /** A line has its end last, if it has one at all: nothing in it ends a line before, but
      for the carriage return of a carriage return and line feed. */
  lemma {:induction false} LineShape(text: string, i: nat)
    requires i < |text|
    ensures var k := LineEndFrom(text, i);
      && (forall j | i <= j < k - 2 :: !EndsLine(text[j]))
      && (i < k - 1 && EndsLine(text[k - 2]) ==> text[k - 2] == '\r' && text[k - 1] == '\n')
      && (k < |text| ==> EndsLine(text[k - 1]) && !(text[k - 1] == '\r' && text[k] == '\n'))
    decreases |text| - i
  {
    if EndLength(text, i) == 0 && i + 1 < |text| {
      LineShape(text, i + 1);
    }
  }
}
