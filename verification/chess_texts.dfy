/** What the arrays of a finished plan say, read without any of the model's own fields:
    every root is its position, move or line written out in words. */
module ChessTexts {
  import opened Options
  import opened Octets
  import opened CanonicalUtf8
  import opened CanonicalPlan
  import opened ChessRules
  import opened ChessBatch
  import opened ChessTerms
  import opened ChessPlan

  // ----- reading the arrays -----

  /** What request i stands for: the scalars its atoms are, or the results it names, the
      first as its tag and the others as values. */
  ghost function Said(requests: seq<Request>, operands: seq<Operand>, atoms: seq<nat>, i: nat): Term
    requires i < |requests|
    decreases i
  {
    var first, count := requests[i].first, requests[i].count;
    if first < |operands| && operands[first].prior then
      Term.Node(seq(count, k requires 0 <= k < count =>
        if first + k < |operands| && operands[first + k] == Operand(operands[first + k].index, 1, if k == 0 then 64 else 128, true) && operands[first + k].index < i
        then Said(requests, operands, atoms, operands[first + k].index)
        else Term.Text([])))
    else
      Term.Text(seq(count, k requires 0 <= k < count =>
        if first + k < |operands| && operands[first + k] == Operand(operands[first + k].index, 1, 0, false) && operands[first + k].index < |atoms|
        then atoms[operands[first + k].index]
        else 0))
  }

  lemma OperandAt(requests: seq<Request>, operands: seq<Operand>, contents: seq<Content>, atoms: seq<nat>, atomIndexes: map<nat, nat>, i: nat, k: nat)
    requires AtomsOk(atoms, atomIndexes) && Tiled(requests, operands, contents, atomIndexes) && Ordered(contents)
    requires i < |requests| && k < requests[i].count
    ensures |requests| == |contents| && requests[i].first + requests[i].count <= |operands| && requests[i].count == Size(contents[i])
    ensures contents[i].Letters? ==>
      var o := operands[requests[i].first + k]; o == Operand(o.index, 1, 0, false) && o.index < |atoms| && atoms[o.index] == contents[i].scalars[k]
    ensures contents[i].Children? ==>
      operands[requests[i].first + k] == Operand(contents[i].indexes[k], 1, if k == 0 then 64 else 128, true) && contents[i].indexes[k] < i
  {
    hide NextFirst;
    assert Spells(operands, requests[i].first, contents[i], atomIndexes);
    assert ContentOk(contents[i], i);
    assert operands[requests[i].first + k] == OperandOf(contents[i], k, atomIndexes);
  }

  /** The arrays say what the contents mean. */
  lemma {:induction false} SaidIsMeaning(requests: seq<Request>, operands: seq<Operand>, contents: seq<Content>, atoms: seq<nat>, atomIndexes: map<nat, nat>, i: nat)
    requires AtomsOk(atoms, atomIndexes) && Tiled(requests, operands, contents, atomIndexes) && Ordered(contents)
    requires i < |requests|
    ensures |requests| == |contents| && Said(requests, operands, atoms, i) == Meaning(contents, i)
    decreases i
  {
    hide AtomsOk, Tiled;
    ContentSized(requests, operands, contents, atomIndexes, i);
    assert ContentOk(contents[i], i);
    OperandAt(requests, operands, contents, atoms, atomIndexes, i, 0);
    var said, count := Said(requests, operands, atoms, i), requests[i].count;
    forall k | 0 <= k < count
      ensures contents[i].Letters? ==> said.Text? && |said.scalars| == count && said.scalars[k] == contents[i].scalars[k]
      ensures contents[i].Children? ==> said.Node? && |said.children| == count && said.children[k] == Meaning(contents, contents[i].indexes[k])
    {
      OperandAt(requests, operands, contents, atoms, atomIndexes, i, k);
      if contents[i].Children? {
        SaidIsMeaning(requests, operands, contents, atoms, atomIndexes, contents[i].indexes[k]);
      }
    }
    if contents[i].Letters? {
      assert said.scalars == contents[i].scalars;
    } else {
      assert said.children == Meaning(contents, i).children;
    }
  }

  lemma ContentSized(requests: seq<Request>, operands: seq<Operand>, contents: seq<Content>, atomIndexes: map<nat, nat>, i: nat)
    requires Tiled(requests, operands, contents, atomIndexes) && Ordered(contents) && i < |requests|
    ensures |requests| == |contents| && requests[i].count == Size(contents[i]) > 0
  {
    hide NextFirst, Spells;
    assert ContentOk(contents[i], i);
  }

  // ----- the words -----

  /** A word is the scalars of its letters. */
  ghost function Spelt(s: string): Term {
    Term.Text(seq(|s|, i requires 0 <= i < |s| => s[i] as int))
  }

  ghost predicate Ascii(s: string) {
    forall i | 0 <= i < |s| :: s[i] as int < 0x80
  }

  lemma WrittenIsSpelt(s: string)
    requires Ascii(s)
    ensures Written(s) == Spelt(s)
  {
    assert Word(s) == seq(|s|, i requires 0 <= i < |s| => s[i] as int);
  }

  ghost function NamedText(name: string, value: Term): Term {
    Term.Node([Spelt(name), value])
  }

  ghost function PieceText(piece: nat): Term {
    if piece == 0 then Spelt("empty")
    else Term.Node([Spelt("Chess_Piece"), Spelt(if piece <= 6 then "white" else "black"), KindText(if piece <= 6 then piece else piece - 8)])
  }

  ghost function KindText(kind: int): Term {
    Spelt(if 0 <= kind < 7 then ["empty", "pawn", "knight", "bishop", "rook", "queen", "king"][kind] else "")
  }

  ghost function DigitText(digit: nat): Term {
    Term.Node([Spelt("number"), Term.Text([48 + digit])])
  }

  ghost function SquareText(square: nat): Term {
    if square == 64 then Spelt("none")
    else Term.Node([Spelt("Chess_Square"), NamedText("file", DigitText(square % 8)), NamedText("rank", DigitText(square / 8))])
  }

  ghost function RightText(rights: nat, bit: nat): Term
    requires bit > 0
  {
    Spelt(if rights / bit % 2 == 1 then "true" else "false")
  }

  /** A position: its board from a1 to h8, the side to move, the four rights, the target. */
  ghost function PositionText(p: Position): Term {
    Term.Node([
      Spelt("Chess_Position"), BoardText(p.pieces),
      NamedText("side-to-move", Spelt(if p.side == 1 then "white" else "black")),
      Term.Node([Spelt("castling-rights"), RightText(p.rights, 1), RightText(p.rights, 2), RightText(p.rights, 4), RightText(p.rights, 8)]),
      NamedText("legal-en-passant", SquareText(p.enPassant))])
  }

  ghost function BoardText(board: Board): Term {
    Term.Node([Spelt("board")] + seq(64, square requires 0 <= square < 64 => PieceText(board[square])))
  }

  /** A move: the piece that makes it, its squares, its promotion and its form. */
  ghost function MoveText(move: Move, piece: nat): Term {
    Term.Node([
      Spelt("Chess_Move"), NamedText("piece", PieceText(piece)), NamedText("from", SquareText(move.from)), NamedText("to", SquareText(move.to)),
      NamedText("promotion", PromotionText(move.promotion)), NamedText("form", FormText(move.form))])
  }

  ghost function PromotionText(kind: nat): Term {
    Spelt(if kind < 6 then ["none", "invalid", "knight", "bishop", "rook", "queen"][kind] else "")
  }

  ghost function FormText(form: nat): Term {
    Spelt(if form < 4 then ["ordinary", "castle-king", "castle-queen", "en-passant"][form] else "")
  }

  lemma KindReads(kind: nat)
    requires kind < 7
    ensures Written(KindName(kind)) == KindText(kind)
  {
    hide Written, Spelt;
    WrittenIsSpelt(KindName(kind));
  }

  lemma PieceReads(piece: nat)
    requires PieceCode(piece)
    ensures PieceTerm(piece) == PieceText(piece)
  {
    hide Written, Spelt, KindName, KindText;
    WrittenIsSpelt("empty");
    if piece != 0 {
      WrittenIsSpelt("Chess_Piece");
      WrittenIsSpelt(SideName(Side(piece)));
      KindReads(Kind(piece));
    }
  }

  lemma DigitReads(digit: nat)
    requires digit < 10
    ensures NumberTerm(digit) == DigitText(digit)
  {
    WrittenIsSpelt("number");
  }

  lemma FieldReads(name: string, value: Term, text: Term)
    requires Ascii(name) && value == text
    ensures FieldTerm(name, value) == NamedText(name, text)
  {
    WrittenIsSpelt(name);
  }

  lemma SquareReads(square: nat)
    requires square <= 64
    ensures SquareTerm(square) == SquareText(square)
  {
    hide Written, Spelt, NumberTerm, DigitText, FieldTerm, NamedText;
    WrittenIsSpelt("none");
    WrittenIsSpelt("Chess_Square");
    if square < 64 {
      DigitReads(square % 8);
      DigitReads(square / 8);
      FieldReads("file", NumberTerm(square % 8), DigitText(square % 8));
      FieldReads("rank", NumberTerm(square / 8), DigitText(square / 8));
    }
  }

  lemma BoardReads(board: Board)
    requires forall square | 0 <= square < 64 :: PieceCode(board[square])
    ensures Term.Node(BoardParts(board)) == BoardText(board)
  {
    hide Written, Spelt, PieceTerm, PieceText;
    WrittenIsSpelt("board");
    var parts, texts := BoardParts(board), [Spelt("board")] + seq(64, square requires 0 <= square < 64 => PieceText(board[square]));
    forall i | 0 <= i < 65
      ensures parts[i] == texts[i]
    {
      if i > 0 {
        PieceReads(board[i - 1]);
        assert parts[(i - 1) + 1] == PieceTerm(board[i - 1]);
      }
    }
    assert parts == texts;
  }

  lemma RightReads(rights: nat, bit: nat)
    requires bit > 0
    ensures Written(RightName(Has(rights, bit))) == RightText(rights, bit)
  {
    WrittenIsSpelt("true");
    WrittenIsSpelt("false");
  }

  lemma RightsRead(rights: nat)
    ensures RightsTerm(rights) ==
      Term.Node([Spelt("castling-rights"), RightText(rights, 1), RightText(rights, 2), RightText(rights, 4), RightText(rights, 8)])
  {
    hide Written, Spelt, RightText, RightName, Has;
    WrittenIsSpelt("castling-rights");
    RightReads(rights, 1);
    RightReads(rights, 2);
    RightReads(rights, 4);
    RightReads(rights, 8);
  }

  lemma PositionReads(p: Position)
    requires KeyOk(KeyOf(p))
    ensures PositionTerm(KeyOf(p)) == PositionText(p)
  {
    hide Written, Spelt, FieldTerm, NamedText, SquareTerm, SquareText, RightsTerm, RightText, BoardParts, BoardText, SideName, PieceCode;
    WrittenIsSpelt("Chess_Position");
    BoardReads(p.pieces);
    SideReads(p.side);
    FieldReads("side-to-move", Written(SideName(p.side)), Spelt(if p.side == 1 then "white" else "black"));
    RightsRead(p.rights);
    SquareReads(p.enPassant);
    FieldReads("legal-en-passant", SquareTerm(p.enPassant), SquareText(p.enPassant));
  }

  lemma SideReads(side: nat)
    ensures Written(SideName(side)) == Spelt(if side == 1 then "white" else "black")
  {
    WrittenIsSpelt(SideName(side));
  }

  lemma PromotionReads(kind: nat)
    requires kind < 6
    ensures Written(PromotionName(kind)) == PromotionText(kind)
  {
    WrittenIsSpelt(PromotionName(kind));
  }

  lemma FormReads(form: nat)
    requires form < 4
    ensures Written(FormName(form)) == FormText(form)
  {
    WrittenIsSpelt(FormName(form));
  }

  lemma MoveReads(move: Move, piece: nat)
    requires ActionOk(Action(move, piece))
    ensures MoveTerm(Action(move, piece)) == MoveText(move, piece)
  {
    hide Written, Spelt, FieldTerm, NamedText, SquareTerm, SquareText, PieceTerm, PieceText, PromotionName, PromotionText, FormName, FormText, PieceCode;
    WrittenIsSpelt("Chess_Move");
    PieceReads(piece);
    SquareReads(move.from);
    SquareReads(move.to);
    PromotionReads(move.promotion);
    FormReads(move.form);
    FieldReads("piece", PieceTerm(piece), PieceText(piece));
    FieldReads("from", SquareTerm(move.from), SquareText(move.from));
    FieldReads("to", SquareTerm(move.to), SquareText(move.to));
    FieldReads("promotion", Written(PromotionName(move.promotion)), PromotionText(move.promotion));
    FieldReads("form", Written(FormName(move.form)), FormText(move.form));
  }

  lemma {:induction false} LinePart(keys: seq<Key>, actions: seq<Action>, i: nat)
    requires |keys| == |actions| + 1 && i < 2 * |actions| + 2
    ensures LineParts(keys, actions)[i] ==
      if i == 0 then Written("Chess_Line") else if i % 2 == 1 then PositionTerm(keys[(i - 1) / 2]) else MoveTerm(actions[i / 2 - 1])
    decreases |actions|
  {
    hide PositionTerm, MoveTerm, Written;
    if actions != [] {
      var n := |actions| - 1;
      if i < 2 * n + 2 {
        LinePart(keys[..n + 1], actions[..n], i);
      }
    }
  }

  /** The piece that makes a move of a line: the one on the square it leaves. */
  ghost function Moving(p: Position, move: Move): nat {
    if move.from < 64 then p.pieces[move.from] else 0
  }

  /** A line: its name, then its positions and moves in turn. */
  ghost function LineText(positions: seq<Position>, moves: seq<Move>): Term
    requires |positions| == |moves| + 1
  {
    Term.Node(seq(2 * |moves| + 2, i requires 0 <= i < 2 * |moves| + 2 => PartText(positions, moves, i)))
  }

  ghost function PartText(positions: seq<Position>, moves: seq<Move>, i: nat): Term
    requires |positions| == |moves| + 1 && i < 2 * |moves| + 2
  {
    if i == 0 then Spelt("Chess_Line")
    else if i % 2 == 1 then PositionText(positions[(i - 1) / 2])
    else MoveText(moves[i / 2 - 1], Moving(positions[i / 2 - 1], moves[i / 2 - 1]))
  }

  /** The keys and actions are those of the positions and moves. */
  ghost predicate Keyed(positions: seq<Position>, moves: seq<Move>, keys: seq<Key>, actions: seq<Action>) {
    && |keys| == |positions| == |moves| + 1 && |actions| == |moves|
    && (forall k | 0 <= k < |keys| :: KeyOk(keys[k]) && keys[k] == KeyOf(positions[k]))
    && (forall k | 0 <= k < |actions| :: ActionOk(actions[k]) && actions[k] == Action(moves[k], Moving(positions[k], moves[k])))
  }

  lemma PartReads(positions: seq<Position>, moves: seq<Move>, keys: seq<Key>, actions: seq<Action>, i: nat)
    requires Keyed(positions, moves, keys, actions) && i < 2 * |moves| + 2
    ensures LineParts(keys, actions)[i] == PartText(positions, moves, i)
  {
    hide PositionTerm, MoveTerm, PositionText, MoveText, Written, Spelt, LineParts, KeyOk, ActionOk, Moving;
    LinePart(keys, actions, i);
    if i == 0 {
      WrittenIsSpelt("Chess_Line");
    } else if i % 2 == 1 {
      PositionReads(positions[(i - 1) / 2]);
    } else {
      MoveReads(moves[i / 2 - 1], Moving(positions[i / 2 - 1], moves[i / 2 - 1]));
    }
  }

  lemma LineReads(positions: seq<Position>, moves: seq<Move>, keys: seq<Key>, actions: seq<Action>)
    requires Keyed(positions, moves, keys, actions)
    ensures Term.Node(LineParts(keys, actions)) == LineText(positions, moves)
  {
    hide Keyed, PartText;
    KeyedSized(positions, moves, keys, actions);
    var parts := LineParts(keys, actions);
    forall i | 0 <= i < |parts|
      ensures parts[i] == PartText(positions, moves, i)
    {
      PartReads(positions, moves, keys, actions, i);
    }
    assert parts == LineText(positions, moves).children;
  }

  lemma KeyedSized(positions: seq<Position>, moves: seq<Move>, keys: seq<Key>, actions: seq<Action>)
    requires Keyed(positions, moves, keys, actions)
    ensures |keys| == |positions| == |moves| + 1 && |actions| == |moves|
  {
  }

  // ----- the whole plan -----

  ghost predicate Says(requests: seq<Request>, operands: seq<Operand>, atoms: seq<nat>, root: nat, term: Term) {
    root < |requests| && Said(requests, operands, atoms, root) == term
  }

  /** Read from its arrays alone, each root of the plan is its position, move or line. */
  ghost predicate PlanSays(requests: seq<Request>, operands: seq<Operand>, atoms: seq<nat>,
                           positionRoots: seq<nat>, moveRoots: seq<nat>, lineRoots: seq<nat>, b: Batch)
  {
    && |positionRoots| == |b.positions| && |lineRoots| == |b.lines|
    && (forall k | 0 <= k < |b.positions| :: Says(requests, operands, atoms, positionRoots[k], PositionText(b.positions[k])))
    && (forall i | 0 <= i < |b.lines| :: LineInside(b, i) && PliesSaid(requests, operands, atoms, moveRoots, b, b.lines[i]))
    && (forall i | 0 <= i < |b.lines| :: LineInside(b, i) && LineSaid(requests, operands, atoms, lineRoots[i], b, b.lines[i]))
  }

  ghost predicate PliesSaid(requests: seq<Request>, operands: seq<Operand>, atoms: seq<nat>, moveRoots: seq<nat>, b: Batch, line: Range)
    requires line.firstPosition + line.moveCount < |b.positions| && line.firstMove + line.moveCount <= |b.moves|
  {
    && line.firstMove + line.moveCount <= |moveRoots|
    && forall ply | 0 <= ply < line.moveCount :: PlySaid(requests, operands, atoms, moveRoots, b, line, ply)
  }

  ghost predicate PlySaid(requests: seq<Request>, operands: seq<Operand>, atoms: seq<nat>, moveRoots: seq<nat>, b: Batch, line: Range, ply: nat)
    requires line.firstPosition + ply < |b.positions| && line.firstMove + ply < |b.moves| && line.firstMove + ply < |moveRoots|
  {
    var move := b.moves[line.firstMove + ply];
    Says(requests, operands, atoms, moveRoots[line.firstMove + ply], MoveText(move, Moving(b.positions[line.firstPosition + ply], move)))
  }

  ghost predicate LineSaid(requests: seq<Request>, operands: seq<Operand>, atoms: seq<nat>, root: nat, b: Batch, line: Range)
    requires line.firstPosition + line.moveCount < |b.positions| && line.firstMove + line.moveCount <= |b.moves|
  {
    Says(requests, operands, atoms, root,
         LineText(b.positions[line.firstPosition..line.firstPosition + line.moveCount + 1], b.moves[line.firstMove..line.firstMove + line.moveCount]))
  }

  lemma RootSaid(requests: seq<Request>, operands: seq<Operand>, contents: seq<Content>, atoms: seq<nat>, atomIndexes: map<nat, nat>, root: nat, term: Term)
    requires AtomsOk(atoms, atomIndexes) && Tiled(requests, operands, contents, atomIndexes) && Denotes(contents, root, term)
    ensures Says(requests, operands, atoms, root, term)
  {
    hide AtomsOk, Meaning;
    SameCount(requests, operands, contents, atomIndexes);
    SaidIsMeaning(requests, operands, contents, atoms, atomIndexes, root);
  }

  lemma SameCount(requests: seq<Request>, operands: seq<Operand>, contents: seq<Content>, atomIndexes: map<nat, nat>)
    requires Tiled(requests, operands, contents, atomIndexes)
    ensures |requests| == |contents|
  {
  }

  lemma PositionsSaid(requests: seq<Request>, operands: seq<Operand>, contents: seq<Content>, atoms: seq<nat>, atomIndexes: map<nat, nat>,
                      positionRoots: seq<nat>, b: Batch, k: nat)
    requires AtomsOk(atoms, atomIndexes) && Tiled(requests, operands, contents, atomIndexes)
    requires BatchOk(b) && PositionsDone(contents, positionRoots, b.positions) && |positionRoots| == |b.positions| && k < |b.positions|
    ensures Says(requests, operands, atoms, positionRoots[k], PositionText(b.positions[k]))
  {
    hide AtomsOk, Tiled, PositionOk, Partitioned, StepsOk, KeyOk, Denotes, PositionTerm, PositionText, Said;
    PositionKeyOk(b.positions[k]);
    PositionReads(b.positions[k]);
    RootSaid(requests, operands, contents, atoms, atomIndexes, positionRoots[k], PositionTerm(KeyOf(b.positions[k])));
  }

  lemma ActionIsMove(b: Batch, i: nat, ply: nat)
    requires BatchOk(b) && i < |b.lines| && LineInside(b, i) && ply < b.lines[i].moveCount
    ensures var line := b.lines[i]; var move := b.moves[line.firstMove + ply];
      ActionOk(ActionAt(b, i, ply)) && ActionAt(b, i, ply) == Action(move, Moving(b.positions[line.firstPosition + ply], move))
  {
    hide BatchOk, ActionOk;
    ActionIs(b, i, ply);
  }

  lemma MovesSaid(requests: seq<Request>, operands: seq<Operand>, contents: seq<Content>, atoms: seq<nat>, atomIndexes: map<nat, nat>,
                  moveRoots: seq<nat>, b: Batch, i: nat)
    requires AtomsOk(atoms, atomIndexes) && Tiled(requests, operands, contents, atomIndexes)
    requires BatchOk(b) && MovesDone(contents, moveRoots, b, |b.lines|) && i < |b.lines|
    ensures LineInside(b, i) && PliesSaid(requests, operands, atoms, moveRoots, b, b.lines[i])
  {
    hide AtomsOk, Tiled, BatchOk, Denotes, MoveTerm, MoveText, ActionOk, ActionAt, Said, PliesDone, Moving;
    assert LineInside(b, i);
    var line := b.lines[i];
    forall ply | 0 <= ply < line.moveCount
      ensures PlySaid(requests, operands, atoms, moveRoots, b, line, ply)
    {
      var move := b.moves[line.firstMove + ply];
      MoveRootDenotes(contents, moveRoots, b, i, ply);
      ActionIsMove(b, i, ply);
      MoveReads(move, Moving(b.positions[line.firstPosition + ply], move));
      RootSaid(requests, operands, contents, atoms, atomIndexes, moveRoots[line.firstMove + ply], MoveTerm(ActionAt(b, i, ply)));
    }
  }

  lemma LineIsKeyed(b: Batch, i: nat)
    requires BatchOk(b) && i < |b.lines| && LineInside(b, i)
    ensures var line := b.lines[i];
      Keyed(b.positions[line.firstPosition..line.firstPosition + line.moveCount + 1], b.moves[line.firstMove..line.firstMove + line.moveCount],
            LineKeys(b, i, line.moveCount), LineActions(b, i, line.moveCount))
  {
    hide BatchOk, KeyOk, ActionOk, ActionAt, Moving;
    var line := b.lines[i];
    LineKeysOk(b, i);
    forall ply | 0 <= ply < line.moveCount
      ensures var move := b.moves[line.firstMove + ply]; ActionAt(b, i, ply) == Action(move, Moving(b.positions[line.firstPosition + ply], move))
    {
      ActionIsMove(b, i, ply);
    }
  }

  lemma LinesSaid(requests: seq<Request>, operands: seq<Operand>, contents: seq<Content>, atoms: seq<nat>, atomIndexes: map<nat, nat>,
                  lineRoots: seq<nat>, b: Batch, i: nat)
    requires AtomsOk(atoms, atomIndexes) && Tiled(requests, operands, contents, atomIndexes)
    requires BatchOk(b) && LinesDone(contents, lineRoots, b) && |lineRoots| == |b.lines| && i < |b.lines|
    ensures LineInside(b, i) && LineSaid(requests, operands, atoms, lineRoots[i], b, b.lines[i])
  {
    hide AtomsOk, Tiled, BatchOk, Denotes, LineParts, LineText, LineKeys, LineActions, Said, Keyed;
    assert LineDone(contents, lineRoots[i], b, i);
    var line := b.lines[i];
    var keys, actions := LineKeys(b, i, line.moveCount), LineActions(b, i, line.moveCount);
    LineIsKeyed(b, i);
    LineReads(b.positions[line.firstPosition..line.firstPosition + line.moveCount + 1], b.moves[line.firstMove..line.firstMove + line.moveCount], keys, actions);
    RootSaid(requests, operands, contents, atoms, atomIndexes, lineRoots[i], Term.Node(LineParts(keys, actions)));
  }

  /** A plan built for a batch says the batch. */
  lemma BuiltSays(requests: seq<Request>, operands: seq<Operand>, contents: seq<Content>, atoms: seq<nat>, atomIndexes: map<nat, nat>,
                  positionRoots: seq<nat>, moveRoots: seq<nat>, lineRoots: seq<nat>, b: Batch)
    requires AtomsOk(atoms, atomIndexes) && Tiled(requests, operands, contents, atomIndexes)
    requires BatchOk(b) && Built(contents, positionRoots, moveRoots, lineRoots, b)
    ensures PlanSays(requests, operands, atoms, positionRoots, moveRoots, lineRoots, b)
  {
    hide AtomsOk, Tiled, BatchOk, PositionsDone, MovesDone, LinesDone, PositionText, Says, PliesSaid, LineSaid;
    forall k | 0 <= k < |b.positions|
      ensures Says(requests, operands, atoms, positionRoots[k], PositionText(b.positions[k]))
    {
      PositionsSaid(requests, operands, contents, atoms, atomIndexes, positionRoots, b, k);
    }
    forall i | 0 <= i < |b.lines|
      ensures LineInside(b, i) && PliesSaid(requests, operands, atoms, moveRoots, b, b.lines[i]) && LineSaid(requests, operands, atoms, lineRoots[i], b, b.lines[i])
    {
      MovesSaid(requests, operands, contents, atoms, atomIndexes, moveRoots, b, i);
      LinesSaid(requests, operands, contents, atoms, atomIndexes, lineRoots, b, i);
    }
  }
}
