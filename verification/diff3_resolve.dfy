/** Resolving diff3 conflicts to one side. */
module Diff3Resolve {
  import opened Diff3Document

  datatype Resolution = Resolved(text: string) | BadChoice | MissingBase | MissingSeparator | MissingEnd | NoConflict

  /** A document with at least one conflict that prints as the lines. */
  ghost predicate Printed(lines: seq<Line>, doc: seq<Block>) {
    DocumentOk(doc) && Print(doc) == lines
  }

  function Joined(lines: seq<Line>): string {
    if lines == [] then "" else lines[0] + Joined(lines[1..])
  }

  /** The first line from index on that carries the marker, or the end. */
  method FindMarker(lines: seq<Line>, index: nat, marker: string) returns (found: nat, run: seq<Line>)
    requires index <= |lines|
    ensures index <= found <= |lines| && run == lines[index..found] && NoneStarts(run, marker)
    ensures found < |lines| ==> Starts(lines[found], marker)
  {
    found, run := index, [];
    while found < |lines| && !Starts(lines[found], marker)
      invariant index <= found <= |lines| && run == lines[index..found] && NoneStarts(run, marker)
    {
      run := run + [lines[found]];
      found := found + 1;
    }
  }

  /** No document prints as the lines once a marker is missing: the next block would be a
      conflict, and would have the marker. */
  lemma {:induction false} NextBlock(lines: seq<Line>, index: nat, doc: seq<Block>, other: seq<Block>)
    requires index < |lines| && DocumentOk(doc) && Print(doc) == lines[..index] && Printed(lines, other) && Starts(lines[index], OPEN)
    ensures |doc| < |other| && BlockOk(other[|doc|]) && other[|doc|].Conflict?
    ensures lines[index..] == PrintBlock(other[|doc|]) + Print(other[|doc| + 1..])
  {
    hide BlockOk, PrintBlock;
    assert lines == lines[..index] + lines[index..];
    PrintPrefix(doc, other, lines[index..]);
    var left := other[|doc|..];
    assert left != [];
    assert left[0] == other[|doc|] && left[1..] == other[|doc| + 1..];
    FirstLine(other[|doc|], Print(left[1..]), lines[index..]);
  }

  lemma FirstLine(b: Block, rest: seq<Line>, lines: seq<Line>)
    requires BlockOk(b) && lines == PrintBlock(b) + rest && lines != [] && Starts(lines[0], OPEN)
    ensures b.Conflict?
  {
    FirstTells(b, rest);
  }

  /** A run that reaches the end cannot be a run up to a marker. */
  lemma RunCut(run: seq<Line>, a: seq<Line>, m: Line, x: seq<Line>, marker: string)
    requires NoneStarts(run, marker) && Starts(m, marker)
    ensures run != a + ([m] + x)
  {
    hide Starts;
    assert (a + ([m] + x))[|a|] == m;
    assert |a| < |run| ==> !Starts(run[|a|], marker);
  }

  /** How far a candidate block agrees with what has been scanned. */
  lemma ScanOurs(lines: seq<Line>, index: nat, b: Block, rest: seq<Line>, found: nat, run: seq<Line>)
    requires index < |lines| && b.Conflict? && BlockOk(b) && lines[index..] == PrintBlock(b) + rest
    requires index + 1 <= found <= |lines| && run == lines[index + 1..found] && NoneStarts(run, BASE) && (found < |lines| ==> Starts(lines[found], BASE))
    ensures found < |lines| && run == b.ours && lines[found + 1..] == Tail3(b, rest)
  {
    hide Starts, NoneStarts, PrintBlock;
    ConflictTail(b, rest);
    assert lines[index + 1..] == lines[index..][1..] == Tail2(b, rest);
    assert lines[index + 1..] == run + lines[found..];
    if found == |lines| {
      assert lines[found..] == [] && run + [] == run;
      RunCut(run, b.ours, b.baseMark, Tail3(b, rest), BASE);
    } else {
      assert lines[found..] == [lines[found]] + lines[found + 1..];
      RunUnique(run, lines[found], lines[found + 1..], b.ours, b.baseMark, Tail3(b, rest), BASE);
    }
  }

  lemma ScanRun(lines: seq<Line>, index: nat, a: seq<Line>, m: Line, x: seq<Line>, marker: string, found: nat, run: seq<Line>)
    requires index <= found <= |lines| && run == lines[index..found] && NoneStarts(run, marker) && (found < |lines| ==> Starts(lines[found], marker))
    requires NoneStarts(a, marker) && Starts(m, marker) && lines[index..] == a + ([m] + x)
    ensures found < |lines| && run == a && lines[found + 1..] == x
  {
    hide Starts, NoneStarts;
    assert lines[index..] == run + lines[found..];
    if found == |lines| {
      assert lines[found..] == [] && run + [] == run;
      RunCut(run, a, m, x, marker);
    } else {
      assert lines[found..] == [lines[found]] + lines[found + 1..];
      RunUnique(run, lines[found], lines[found + 1..], a, m, x, marker);
    }
  }

  /** If the end of a conflict is missing, no document prints as the lines. */
  lemma ConflictMissing(lines: seq<Line>, index: nat, doc: seq<Block>, other: seq<Block>, first: nat, second: nat, third: nat)
    requires index < |lines| && DocumentOk(doc) && Print(doc) == lines[..index] && Printed(lines, other) && Starts(lines[index], OPEN)
    requires index + 1 <= first <= |lines| && NoneStarts(lines[index + 1..first], BASE) && (first < |lines| ==> Starts(lines[first], BASE))
    requires first < |lines| ==> first + 1 <= second <= |lines| && NoneStarts(lines[first + 1..second], SEPARATOR) && (second < |lines| ==> Starts(lines[second], SEPARATOR))
    requires first < |lines| && second < |lines| ==> second + 1 <= third <= |lines| && NoneStarts(lines[second + 1..third], CLOSE) && (third < |lines| ==> Starts(lines[third], CLOSE))
    ensures first < |lines| && second < |lines| && third < |lines|
  {
    hide Starts, NoneStarts, PrintBlock, Printed;
    NextBlock(lines, index, doc, other);
    var b, rest := other[|doc|], Print(other[|doc| + 1..]);
    ScanOurs(lines, index, b, rest, first, lines[index + 1..first]);
    ScanRun(lines, first + 1, b.base, b.separator, Tail4(b, rest), SEPARATOR, second, lines[first + 1..second]);
    ScanRun(lines, second + 1, b.theirs, b.close, rest, CLOSE, third, lines[second + 1..third]);
  }

  lemma ConflictPrints(lines: seq<Line>, index: nat, first: nat, second: nat, third: nat)
    requires index < first < second < third < |lines|
    ensures var b := Conflict(lines[index], lines[index + 1..first], lines[first], lines[first + 1..second], lines[second], lines[second + 1..third], lines[third]);
      lines[..index] + PrintBlock(b) == lines[..third + 1]
  {
    var b := Conflict(lines[index], lines[index + 1..first], lines[first], lines[first + 1..second], lines[second], lines[second + 1..third], lines[third]);
    assert b.theirs + [b.close] == lines[second + 1..third + 1];
    assert [b.separator] + lines[second + 1..third + 1] == lines[second..third + 1];
    assert b.base + lines[second..third + 1] == lines[first + 1..third + 1];
    assert [b.baseMark] + lines[first + 1..third + 1] == lines[first..third + 1];
    assert b.ours + lines[first..third + 1] == lines[index + 1..third + 1];
    assert PrintBlock(b) == lines[index..third + 1];
  }

  /** After a document that ends at line index, a conflict opens that lacks the marker
      the outcome names, and has those before it at the lines given. */
  ghost predicate UnfinishedAt(lines: seq<Line>, r: Resolution, doc: seq<Block>, index: nat, first: nat, second: nat) {
    && index < |lines| && DocumentOk(doc) && Print(doc) == lines[..index] && Starts(lines[index], OPEN)
    && match r
       case MissingBase => NoneStarts(lines[index + 1..], BASE)
       case MissingSeparator =>
         index < first < |lines| && NoneStarts(lines[index + 1..first], BASE) && Starts(lines[first], BASE)
         && NoneStarts(lines[first + 1..], SEPARATOR)
       case MissingEnd =>
         index < first < second < |lines| && NoneStarts(lines[index + 1..first], BASE) && Starts(lines[first], BASE)
         && NoneStarts(lines[first + 1..second], SEPARATOR) && Starts(lines[second], SEPARATOR)
         && NoneStarts(lines[second + 1..], CLOSE)
       case _ => false
  }

  ghost predicate Unfinished(lines: seq<Line>, r: Resolution) {
    exists doc, index, first, second :: UnfinishedAt(lines, r, doc, index, first, second)
  }

  /** Succeeds exactly on printed documents with a conflict, and returns them with the
      chosen side. */
  method Resolve(lines: seq<Line>, choice: string) returns (r: Resolution)
    ensures r == BadChoice <==> choice != "ours" && choice != "theirs"
    ensures r.Resolved? <==> (choice == "ours" || choice == "theirs") && exists doc :: Printed(lines, doc) && HasConflict(doc)
    ensures forall doc :: r.Resolved? && Printed(lines, doc) ==> r.text == Joined(Choose(doc, choice == "theirs"))
    ensures r == NoConflict <==> (choice == "ours" || choice == "theirs") && exists doc :: Printed(lines, doc) && !HasConflict(doc)
    ensures r in {MissingBase, MissingSeparator, MissingEnd} ==> Unfinished(lines, r)
  {
    hide Starts, NoneStarts, BlockOk, Print, PrintBlock, Choose, ChooseBlock, Printed, HasConflict, Joined;
    if choice != "ours" && choice != "theirs" {
      return BadChoice;
    }
    var chosenTheirs := choice == "theirs";
    var output: seq<Line> := [];
    var index, resolved := 0, 0;
    ghost var doc: seq<Block> := [];
    NothingPrinted(lines, chosenTheirs);
    while index < |lines|
      invariant index <= |lines| && DocumentOk(doc) && Print(doc) == lines[..index]
      invariant output == Choose(doc, chosenTheirs) && (resolved > 0 <==> HasConflict(doc))
    {
      if !Starts(lines[index], OPEN) {
        PlainPrints(lines, index);
        Grow(doc, Plain(lines[index]), chosenTheirs);
        output := output + [lines[index]];
        doc := doc + [Plain(lines[index])];
        index := index + 1;
        continue;
      }
      resolved := resolved + 1;
      var first, ours := FindMarker(lines, index + 1, BASE);
      if first == |lines| {
        NonePrints(lines, index, doc, first, 0, 0);
        assert lines[index + 1..] == ours;
        assert UnfinishedAt(lines, MissingBase, doc, index, 0, 0);
        return MissingBase;
      }
      var second, base := FindMarker(lines, first + 1, SEPARATOR);
      if second == |lines| {
        NonePrints(lines, index, doc, first, second, 0);
        assert lines[first + 1..] == base;
        assert UnfinishedAt(lines, MissingSeparator, doc, index, first, 0);
        return MissingSeparator;
      }
      var third, theirs := FindMarker(lines, second + 1, CLOSE);
      if third == |lines| {
        NonePrints(lines, index, doc, first, second, third);
        assert lines[second + 1..] == theirs;
        assert UnfinishedAt(lines, MissingEnd, doc, index, first, second);
        return MissingEnd;
      }
      ghost var b := Conflict(lines[index], ours, lines[first], base, lines[second], theirs, lines[third]);
      ConflictIsOk(b);
      ConflictPrints(lines, index, first, second, third);
      Grow(doc, b, chosenTheirs);
      output := output + if chosenTheirs then theirs else ours;
      doc := doc + [b];
      index := third + 1;
    }
    assert lines[..|lines|] == lines;
    OneDocument(lines, doc);
    if resolved == 0 {
      return NoConflict;
    }
    r := Resolved(Joined(output));
  }

  lemma NothingPrinted(lines: seq<Line>, theirs: bool)
    ensures Print([]) == lines[..0] && Choose([], theirs) == [] && DocumentOk([]) && !HasConflict([])
  {
  }

  lemma Grow(doc: seq<Block>, b: Block, theirs: bool)
    requires DocumentOk(doc) && BlockOk(b)
    ensures DocumentOk(doc + [b]) && Print(doc + [b]) == Print(doc) + PrintBlock(b)
    ensures Choose(doc + [b], theirs) == Choose(doc, theirs) + ChooseBlock(b, theirs)
    ensures HasConflict(doc + [b]) <==> HasConflict(doc) || b.Conflict?
    ensures ChooseBlock(b, theirs) == if b.Plain? then [b.line] else if theirs then b.theirs else b.ours
  {
    hide BlockOk, PrintBlock;
    PrintAppend(doc, b);
    if HasConflict(doc) {
      var k :| 0 <= k < |doc| && doc[k].Conflict?;
      assert (doc + [b])[k].Conflict?;
    }
    if b.Conflict? {
      assert (doc + [b])[|doc|].Conflict?;
    }
  }

  lemma PlainPrints(lines: seq<Line>, index: nat)
    requires index < |lines| && !Starts(lines[index], OPEN)
    ensures BlockOk(Plain(lines[index])) && lines[..index] + PrintBlock(Plain(lines[index])) == lines[..index + 1]
  {
  }

  lemma ConflictIsOk(b: Block)
    requires b.Conflict? && Starts(b.open, OPEN) && NoneStarts(b.ours, BASE) && Starts(b.baseMark, BASE) && NoneStarts(b.base, SEPARATOR)
    requires Starts(b.separator, SEPARATOR) && NoneStarts(b.theirs, CLOSE) && Starts(b.close, CLOSE)
    ensures BlockOk(b)
  {
  }

  lemma NonePrints(lines: seq<Line>, index: nat, doc: seq<Block>, first: nat, second: nat, third: nat)
    requires index < |lines| && DocumentOk(doc) && Print(doc) == lines[..index] && Starts(lines[index], OPEN)
    requires index + 1 <= first <= |lines| && NoneStarts(lines[index + 1..first], BASE) && (first < |lines| ==> Starts(lines[first], BASE))
    requires first < |lines| ==> first + 1 <= second <= |lines| && NoneStarts(lines[first + 1..second], SEPARATOR) && (second < |lines| ==> Starts(lines[second], SEPARATOR))
    requires first < |lines| && second < |lines| ==> second + 1 <= third <= |lines| && NoneStarts(lines[second + 1..third], CLOSE) && (third < |lines| ==> Starts(lines[third], CLOSE))
    requires first == |lines| || second == |lines| || third == |lines|
    ensures forall other :: !Printed(lines, other)
  {
    hide Starts, NoneStarts, Printed, Print, DocumentOk;
    forall other
      ensures !Printed(lines, other)
    {
      if Printed(lines, other) {
        ConflictMissing(lines, index, doc, other, first, second, third);
      }
    }
  }

  lemma OneDocument(lines: seq<Line>, doc: seq<Block>)
    requires DocumentOk(doc) && Print(doc) == lines
    ensures Printed(lines, doc) && forall other :: Printed(lines, other) ==> other == doc
  {
    hide BlockOk, Print;
    forall other | Printed(lines, other)
      ensures other == doc
    {
      PrintInjective(doc, other);
    }
  }

  /** Printing a document and resolving it is choosing a side of it. */
  method PrintThenResolve(doc: seq<Block>, theirs: bool) returns (text: string)
    requires DocumentOk(doc) && HasConflict(doc)
    ensures text == Joined(Choose(doc, theirs))
  {
    hide BlockOk, Print, Choose, HasConflict, Joined;
    var r := Resolve(Print(doc), if theirs then "theirs" else "ours");
    assert Printed(Print(doc), doc);
    text := r.text;
  }

  /** A block as it stands in a file: the markers start their lines, and each side holds
      no line that starts with the marker after it.  Choosing takes one side. */
  lemma ConflictReads(a: string, ours: seq<Line>, b: string, base: seq<Line>, c: string, theirs: seq<Line>, d: string)
    requires forall k | 0 <= k < |ours| :: !Starts(ours[k], "||||||| ")
    requires forall k | 0 <= k < |base| :: !Starts(base[k], "=======")
    requires forall k | 0 <= k < |theirs| :: !Starts(theirs[k], ">>>>>>> ")
    ensures var block := Conflict("<<<<<<< " + a, ours, "||||||| " + b, base, "=======" + c, theirs, ">>>>>>> " + d);
      && Printed(["<<<<<<< " + a] + ours + ["||||||| " + b] + base + ["=======" + c] + theirs + [">>>>>>> " + d], [block])
      && HasConflict([block]) && Choose([block], false) == ours && Choose([block], true) == theirs
  {
    var block := Conflict("<<<<<<< " + a, ours, "||||||| " + b, base, "=======" + c, theirs, ">>>>>>> " + d);
    assert Print([block]) == PrintBlock(block) + Print([]);
    assert Choose([block], false) == ours + Choose([], false) && Choose([block], true) == theirs + Choose([], true);
    assert [block][0].Conflict?;
  }

  /** Lines without a conflict marker pass through. */
  lemma {:induction false} PlainReads(lines: seq<Line>) returns (doc: seq<Block>)
    requires forall k | 0 <= k < |lines| :: !Starts(lines[k], "<<<<<<< ")
    ensures Printed(lines, doc) && !HasConflict(doc) && Choose(doc, false) == Choose(doc, true) == lines
    decreases |lines|
  {
    if lines == [] {
      doc := [];
    } else {
      var rest := PlainReads(lines[1..]);
      doc := [Plain(lines[0])] + rest;
      assert doc[0] == Plain(lines[0]) && doc[1..] == rest;
      assert forall k | 0 < k < |doc| :: doc[k] == rest[k - 1];
      assert lines == [lines[0]] + lines[1..];
    }
  }
}
