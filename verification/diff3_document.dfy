/** Documents with diff3 conflicts, and the lines they are printed as. */
module Diff3Document {

  type Line = string

  datatype Block =
    | Plain(line: Line)
    | Conflict(open: Line, ours: seq<Line>, baseMark: Line, base: seq<Line>, separator: Line, theirs: seq<Line>, close: Line)

  const OPEN: string := "<<<<<<< "
  const BASE: string := "||||||| "
  const SEPARATOR: string := "======="
  const CLOSE: string := ">>>>>>> "

  predicate Starts(line: Line, marker: string) {
    |marker| <= |line| && line[..|marker|] == marker
  }

  predicate NoneStarts(lines: seq<Line>, marker: string) {
    forall k | 0 <= k < |lines| :: !Starts(lines[k], marker)
  }

  /** Every part of a block ends at the first line that carries its marker. */
  predicate BlockOk(b: Block) {
    match b
    case Plain(line) => !Starts(line, OPEN)
    case Conflict(open, ours, baseMark, base, separator, theirs, close) =>
      && Starts(open, OPEN) && NoneStarts(ours, BASE) && Starts(baseMark, BASE) && NoneStarts(base, SEPARATOR)
      && Starts(separator, SEPARATOR) && NoneStarts(theirs, CLOSE) && Starts(close, CLOSE)
  }

  predicate DocumentOk(doc: seq<Block>) {
    forall k | 0 <= k < |doc| :: BlockOk(doc[k])
  }

  predicate HasConflict(doc: seq<Block>) {
    exists k | 0 <= k < |doc| :: doc[k].Conflict?
  }

  function PrintBlock(b: Block): (lines: seq<Line>)
    ensures lines != []
  {
    match b
    case Plain(line) => [line]
    case Conflict(open, ours, baseMark, base, separator, theirs, close) =>
      [open] + (ours + ([baseMark] + (base + ([separator] + (theirs + [close])))))
  }

  function Print(doc: seq<Block>): seq<Line> {
    if doc == [] then [] else PrintBlock(doc[0]) + Print(doc[1..])
  }

  /** The chosen side of a block; a plain line is both. */
  function ChooseBlock(b: Block, theirs: bool): seq<Line> {
    match b
    case Plain(line) => [line]
    case Conflict(_, ours, _, _, _, other, _) => if theirs then other else ours
  }

  function Choose(doc: seq<Block>, theirs: bool): seq<Line> {
    if doc == [] then [] else ChooseBlock(doc[0], theirs) + Choose(doc[1..], theirs)
  }

  // ----- reading a printed document -----

  /** A run up to the first line with the marker is determined by what it starts. */
  lemma {:induction false} RunUnique(a: seq<Line>, m: Line, x: seq<Line>, b: seq<Line>, n: Line, y: seq<Line>, marker: string)
    requires NoneStarts(a, marker) && Starts(m, marker) && NoneStarts(b, marker) && Starts(n, marker)
    requires a + ([m] + x) == b + ([n] + y)
    ensures a == b && m == n && x == y
    decreases |a|
  {
    hide Starts;
    var whole := a + ([m] + x);
    assert whole[0] == (if a == [] then m else a[0]) && whole[0] == (if b == [] then n else b[0]);
    assert (a != [] ==> !Starts(a[0], marker)) && (b != [] ==> !Starts(b[0], marker));
    if a == [] {
      assert whole[1..] == x && (b == [] ==> whole[1..] == y);
    } else {
      assert whole[1..] == a[1..] + ([m] + x) && whole[1..] == b[1..] + ([n] + y);
      RunUnique(a[1..], m, x, b[1..], n, y, marker);
      assert a == [a[0]] + a[1..] && b == [b[0]] + b[1..];
    }
  }

  function FirstOf(b: Block): Line {
    match b
    case Plain(line) => line
    case Conflict(open, _, _, _, _, _, _) => open
  }

  /** The first line of a block tells its kind. */
  lemma FirstTells(b: Block, x: seq<Line>)
    requires BlockOk(b)
    ensures (PrintBlock(b) + x)[0] == FirstOf(b) && (b.Conflict? <==> Starts(FirstOf(b), OPEN))
  {
  }

  lemma BlockPrefix(b: Block, c: Block, x: seq<Line>, y: seq<Line>)
    requires BlockOk(b) && BlockOk(c) && PrintBlock(b) + x == PrintBlock(c) + y
    ensures b == c && x == y
  {
    hide Starts, NoneStarts;
    FirstTells(b, x);
    FirstTells(c, y);
    var whole := PrintBlock(b) + x;
    if b.Plain? {
      assert whole[1..] == x && whole[1..] == y;
    } else {
      ConflictPrefix(b, c, x, y);
    }
  }

  /** What follows the opening line. */
  function Tail4(b: Block, x: seq<Line>): seq<Line>
    requires b.Conflict?
  {
    b.theirs + ([b.close] + x)
  }

  function Tail3(b: Block, x: seq<Line>): seq<Line>
    requires b.Conflict?
  {
    b.base + ([b.separator] + Tail4(b, x))
  }

  function Tail2(b: Block, x: seq<Line>): seq<Line>
    requires b.Conflict?
  {
    b.ours + ([b.baseMark] + Tail3(b, x))
  }

  lemma ConflictTail(b: Block, x: seq<Line>)
    requires b.Conflict?
    ensures PrintBlock(b) + x == [b.open] + Tail2(b, x)
  {
    var c := b.theirs + [b.close];
    assert c + x == Tail4(b, x);
    assert b.base + ([b.separator] + c) + x == Tail3(b, x);
    assert b.ours + ([b.baseMark] + (b.base + ([b.separator] + c))) + x == Tail2(b, x);
  }

  lemma ConflictPrefix(b: Block, c: Block, x: seq<Line>, y: seq<Line>)
    requires b.Conflict? && c.Conflict? && BlockOk(b) && BlockOk(c) && PrintBlock(b) + x == PrintBlock(c) + y
    ensures b == c && x == y
  {
    hide Starts, NoneStarts, PrintBlock;
    ConflictTail(b, x);
    ConflictTail(c, y);
    var left, right := [b.open] + Tail2(b, x), [c.open] + Tail2(c, y);
    assert left[0] == right[0] && left[1..] == Tail2(b, x) && right[1..] == Tail2(c, y);
    RunUnique(b.ours, b.baseMark, Tail3(b, x), c.ours, c.baseMark, Tail3(c, y), BASE);
    RunUnique(b.base, b.separator, Tail4(b, x), c.base, c.separator, Tail4(c, y), SEPARATOR);
    RunUnique(b.theirs, b.close, x, c.theirs, c.close, y, CLOSE);
  }

  /** If a printed document starts another, it is its first blocks. */
  lemma {:induction false} PrintPrefix(doc: seq<Block>, other: seq<Block>, rest: seq<Line>)
    requires DocumentOk(doc) && DocumentOk(other) && Print(doc) + rest == Print(other)
    ensures |doc| <= |other| && doc == other[..|doc|] && rest == Print(other[|doc|..])
    decreases |doc|
  {
    hide BlockOk, PrintBlock;
    if doc == [] {
      assert other[0..] == other && [] + rest == rest;
    } else {
      assert PrintBlock(doc[0]) + (Print(doc[1..]) + rest) == Print(doc) + rest;
      if other != [] {
        BlockPrefix(doc[0], other[0], Print(doc[1..]) + rest, Print(other[1..]));
        PrintPrefix(doc[1..], other[1..], rest);
        assert doc == [doc[0]] + doc[1..] && other[..|doc|] == [other[0]] + other[1..][..|doc| - 1];
        assert other[1..][|doc| - 1..] == other[|doc|..];
      }
    }
  }

  /** Lines are the printed form of one document at most. */
  lemma PrintInjective(doc: seq<Block>, other: seq<Block>)
    requires DocumentOk(doc) && DocumentOk(other) && Print(doc) == Print(other)
    ensures doc == other
  {
    PrintPrefix(doc, other, []);
    PrintPrefix(other, doc, []);
  }

  lemma {:induction false} PrintAppend(doc: seq<Block>, b: Block)
    ensures Print(doc + [b]) == Print(doc) + PrintBlock(b)
    ensures forall theirs :: Choose(doc + [b], theirs) == Choose(doc, theirs) + ChooseBlock(b, theirs)
    decreases |doc|
  {
    hide PrintBlock, ChooseBlock;
    if doc == [] {
      assert [] + [b] == [b] && [b][1..] == [];
    } else {
      PrintAppend(doc[1..], b);
      assert (doc + [b])[1..] == doc[1..] + [b];
    }
  }
}
