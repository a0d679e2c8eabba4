/** The checks on chess positions and moves in plain numbers: squares 0 to 63 from a1 to
    h8, white pieces 1 to 6 and black ones 9 to 14 (pawn, knight, bishop, rook, queen,
    king), 64 for no square, rights 1, 2, 4, 8 (white and black, king's wing first). */
module ChessLaws {
  import opened ChessRules
  import opened ChessBatch

  ghost predicate AllCodes(board: Board) {
    forall square | 0 <= square < 64 :: board[square] <= 6 || 9 <= board[square] <= 14
  }

  // ----- positions -----

  /** The piece is on that square and on no other. */
  ghost predicate OnlyOn(board: seq<nat>, piece: nat, square: nat) {
    square < |board| && board[square] == piece && forall other | 0 <= other < |board| && other != square :: board[other] != piece
  }

  ghost predicate Absent(board: seq<nat>, piece: nat) {
    forall i | 0 <= i < |board| :: board[i] != piece
  }

  lemma {:induction false} CountedNone(board: seq<nat>, piece: nat)
    ensures Tally(board, Is(piece)) == 0 <==> Absent(board, piece)
  {
    if board != [] {
      CountedNone(board[..|board| - 1], piece);
    }
  }

  lemma OnlyLonger(board: seq<nat>, piece: nat, square: nat)
    requires board != [] && square < |board| - 1
    ensures OnlyOn(board, piece, square) <==> OnlyOn(board[..|board| - 1], piece, square) && board[|board| - 1] != piece
  {
    var rest := board[..|board| - 1];
    assert forall i | 0 <= i < |rest| :: rest[i] == board[i];
  }

  lemma OnlyLast(board: seq<nat>, piece: nat)
    requires board != []
    ensures OnlyOn(board, piece, |board| - 1) <==> board[|board| - 1] == piece && Absent(board[..|board| - 1], piece)
  {
    assert forall i | 0 <= i < |board| - 1 :: board[..|board| - 1][i] == board[i];
  }

  /** A piece is counted once exactly when one square has it and no other. */
  lemma {:induction false} CountedOnce(board: seq<nat>, piece: nat)
    ensures Tally(board, Is(piece)) == 1 <==> exists square: nat :: OnlyOn(board, piece, square)
  {
    if board != [] {
      var n, rest := |board| - 1, board[..|board| - 1];
      CountedNone(rest, piece);
      CountedOnce(rest, piece);
      OnlyLast(board, piece);
      hide OnlyOn;
      if square: nat :| OnlyOn(board, piece, square) {
        OnlyIsOn(board, piece, square);
        if square < n {
          OnlyLonger(board, piece, square);
        }
      }
      if square: nat :| OnlyOn(rest, piece, square) {
        OnlyIsOn(rest, piece, square);
        OnlyLonger(board, piece, square);
      }
    }
  }

  lemma OnlyIsOn(board: seq<nat>, piece: nat, square: nat)
    requires OnlyOn(board, piece, square)
    ensures square < |board| && board[square] == piece
  {
  }

  /** The king's right needs king and rook at home. */
  ghost predicate HomesLaw(board: Board, rights: nat) {
    && (rights % 2 == 1 ==> board[4] == 6 && board[7] == 4)
    && (rights / 2 % 2 == 1 ==> board[4] == 6 && board[0] == 4)
    && (rights / 4 % 2 == 1 ==> board[60] == 14 && board[63] == 12)
    && (rights / 8 % 2 == 1 ==> board[60] == 14 && board[56] == 12)
  }

  lemma HomesAre(board: Board, rights: nat)
    ensures AllHomes(board, rights) <==> HomesLaw(board, rights)
  {
    Whole(rights);
  }

  /** White takes upwards past a black pawn on the fifth rank, black downwards past a white
      one on the fourth. */
  ghost predicate TargetLaw(p: Position) {
    && (p.enPassant < 64 && p.side == 1 ==>
          && 40 <= p.enPassant < 48 && p.pieces[p.enPassant] == 0 && p.pieces[p.enPassant - 8] == 9
          && ((p.enPassant != 40 && p.pieces[p.enPassant - 9] == 1) || (p.enPassant != 47 && p.pieces[p.enPassant - 7] == 1)))
    && (p.enPassant < 64 && p.side == 2 ==>
          && 16 <= p.enPassant < 24 && p.pieces[p.enPassant] == 0 && p.pieces[p.enPassant + 8] == 1
          && ((p.enPassant != 16 && p.pieces[p.enPassant + 7] == 9) || (p.enPassant != 23 && p.pieces[p.enPassant + 9] == 9)))
  }

  lemma TargetIs(p: Position)
    requires p.side == 1 || p.side == 2
    ensures EnPassantOk(p) <==> TargetLaw(p)
  {
    hide Beside;
    var file := p.enPassant % 8;
    if p.side == 1 {
      BesideIs(p, 4);
      assert 40 <= p.enPassant < 48 <==> p.enPassant / 8 == 5;
      assert p.enPassant / 8 == 5 ==> p.enPassant == 40 + file;
    } else {
      BesideIs(p, 3);
      assert 16 <= p.enPassant < 24 <==> p.enPassant / 8 == 2;
      assert p.enPassant / 8 == 2 ==> p.enPassant == 16 + file;
    }
  }

  lemma BesideIs(p: Position, rank: nat)
    requires rank < 8
    ensures var file := p.enPassant % 8;
      Beside(p, rank, file) <==>
        (file > 0 && p.pieces[8 * rank + file - 1] == Piece(p.side, PAWN)) || (file < 7 && p.pieces[8 * rank + file + 1] == Piece(p.side, PAWN))
  {
    var file := p.enPassant % 8;
    if file > 0 && p.pieces[8 * rank + file - 1] == Piece(p.side, PAWN) {
      assert PawnBeside(p, rank, file, file - 1);
    }
    if file < 7 && p.pieces[8 * rank + file + 1] == Piece(p.side, PAWN) {
      assert PawnBeside(p, rank, file, file + 1);
    }
    if beside: nat :| PawnBeside(p, rank, file, beside) {
      assert rank * 8 + beside == 8 * rank + beside;
    }
  }

  ghost predicate PositionLaw(p: Position) {
    && (p.side == 1 || p.side == 2) && p.rights < 16 && p.enPassant <= 64
    && (forall i | 0 <= i < |p.reserved| :: p.reserved[i] == 0)
    && AllCodes(p.pieces)
    && (forall square | 0 <= square < 64 :: p.pieces[square] == 1 || p.pieces[square] == 9 ==> 8 <= square < 56)
    && (exists square: nat :: OnlyOn(p.pieces, 6, square)) && (exists square: nat :: OnlyOn(p.pieces, 14, square))
    && HomesLaw(p.pieces, p.rights) && TargetLaw(p)
  }

  /** A valid position, in numbers. */
  lemma PositionExactly(p: Position)
    ensures PositionOk(p) <==> PositionLaw(p)
  {
    hide Tally, EnPassantOk, TargetLaw, HomesLaw, HomesOk;
    CountedOnce(p.pieces, 6);
    CountedOnce(p.pieces, 14);
    HomesAre(p.pieces, p.rights);
    if p.side == 1 || p.side == 2 {
      TargetIs(p);
    }
    SquaresAre(p.pieces);
  }

  lemma SquaresAre(board: Board)
    ensures (forall square | 0 <= square < 64 :: SquareOk(board, square)) <==>
      AllCodes(board) && forall square | 0 <= square < 64 :: board[square] == 1 || board[square] == 9 ==> 8 <= square < 56
  {
    forall square | 0 <= square < 64
      ensures SquareOk(board, square) <==>
        (board[square] <= 6 || 9 <= board[square] <= 14) && (board[square] == 1 || board[square] == 9 ==> 8 <= square < 56)
    {
    }
  }

  // ----- moves -----

  ghost predicate SameBut(before: Position, after: Position, changed: set<nat>) {
    forall square: nat | square < 64 && square !in changed :: after.pieces[square] == before.pieces[square]
  }

  /** The king goes two squares towards a rook of its own that stands in the corner, with
      nothing between them, and the rook goes to the square that the king crossed. */
  ghost predicate CastlingLaw(before: Position, move: Move, after: Position) {
    var from: int, to: int := move.from, move.to;
    var corner, crossed := if move.form == 1 then from + 3 else from - 4, (from + to) / 2;
    var king, rook := if before.side == 1 then 6 else 14, if before.side == 1 then 4 else 12;
    && from == (if before.side == 1 then 4 else 60) && to == (if move.form == 1 then from + 2 else from - 2)
    && move.promotion == 0
    && before.rights / (if before.side == 1 then (if move.form == 1 then 1 else 2) else (if move.form == 1 then 4 else 8)) % 2 == 1
    && before.pieces[from] == king && before.pieces[corner] == rook
    && (forall square | 0 <= square < 64 && (from < square < corner || corner < square < from) :: before.pieces[square] == 0)
    && after.pieces[to] == king && after.pieces[crossed] == rook && after.pieces[from] == 0 && after.pieces[corner] == 0
    && SameBut(before, after, {move.from, move.to, crossed as nat, corner as nat})
    && after.enPassant == 64
  }

  /** A pawn goes diagonally to the target, and the enemy pawn beside it, on the target's
      file, goes off. */
  ghost predicate PassingLaw(before: Position, move: Move, after: Position) {
    var victim := move.from - move.from % 8 + move.to % 8;
    var own, enemy := if before.side == 1 then 1 else 9, if before.side == 1 then 9 else 1;
    && move.from < 64 && move.to < 64
    && (if before.side == 1 then
          32 <= move.from < 40 && ((move.from != 32 && move.to == move.from + 7) || (move.from != 39 && move.to == move.from + 9))
        else
          24 <= move.from < 32 && ((move.from != 24 && move.to + 9 == move.from) || (move.from != 31 && move.to + 7 == move.from)))
    && move.promotion == 0 && before.enPassant == move.to
    && before.pieces[move.from] == own && before.pieces[move.to] == 0 && before.pieces[victim] == enemy
    && after.pieces[move.to] == own && after.pieces[move.from] == 0 && after.pieces[victim] == 0
    && SameBut(before, after, {move.from, move.to, victim})
    && after.enPassant == 64
  }

  /** Any other move puts the piece, or what a pawn is promoted to on the last rank, on
      a square that holds none of its own and no king. */
  ghost predicate OrdinaryLaw(before: Position, move: Move, after: Position) {
    && move.from < 64 && move.to < 64 && move.from != move.to
    && var moving, captured, white := before.pieces[move.from], before.pieces[move.to], before.side == 1;
    && (if white then 1 <= moving <= 6 else 9 <= moving <= 14)
    && (captured == 0 || if white then 9 <= captured <= 13 else 1 <= captured <= 5)
    && (if moving == (if white then 1 else 9) && (if white then move.to >= 56 else move.to < 8)
        then 2 <= move.promotion <= 5 && after.pieces[move.to] == move.promotion + (if white then 0 else 8)
        else move.promotion == 0 && after.pieces[move.to] == moving)
    && after.pieces[move.from] == 0 && SameBut(before, after, {move.from, move.to})
    && (after.enPassant == 64 ||
        if white then moving == 1 && 8 <= move.from < 16 && move.to == move.from + 16 && after.enPassant == move.from + 8
        else moving == 9 && 48 <= move.from < 56 && move.to + 16 == move.from && after.enPassant + 8 == move.from)
  }

  /** A right is left exactly if it was there, its king did not move, and its rook neither
      left its corner nor was taken on it. */
  ghost predicate RightsLaw(before: Position, move: Move, after: Position)
    requires move.from < 64 && move.to < 64
  {
    var moving, captured := before.pieces[move.from], before.pieces[move.to];
    && after.rights < 16
    && (after.rights % 2 == 1 <==> before.rights % 2 == 1 && moving != 6 && !(move.from == 7 && moving == 4) && !(move.to == 7 && captured == 4))
    && (after.rights / 2 % 2 == 1 <==> before.rights / 2 % 2 == 1 && moving != 6 && !(move.from == 0 && moving == 4) && !(move.to == 0 && captured == 4))
    && (after.rights / 4 % 2 == 1 <==> before.rights / 4 % 2 == 1 && moving != 14 && !(move.from == 63 && moving == 12) && !(move.to == 63 && captured == 12))
    && (after.rights / 8 % 2 == 1 <==> before.rights / 8 % 2 == 1 && moving != 14 && !(move.from == 56 && moving == 12) && !(move.to == 56 && captured == 12))
  }

  ghost predicate MoveLaw(before: Position, move: Move, after: Position) {
    && move.form <= 3
    && if move.form == 0 then OrdinaryLaw(before, move, after)
       else if move.form == 3 then PassingLaw(before, move, after)
       else CastlingLaw(before, move, after)
  }

  lemma CastlingIs(before: Position, move: Move, after: Position)
    requires (before.side == 1 || before.side == 2) && AllCodes(before.pieces) && (move.form == 1 || move.form == 2)
    ensures BoardAndTarget(before, move, after) <==> CastlingLaw(before, move, after)
  {
  }

  lemma PassingIs(before: Position, move: Move, after: Position)
    requires (before.side == 1 || before.side == 2) && AllCodes(before.pieces) && move.form == 3
    ensures BoardAndTarget(before, move, after) <==> PassingLaw(before, move, after)
  {
  }

  lemma OrdinaryIs(before: Position, move: Move, after: Position)
    requires (before.side == 1 || before.side == 2) && AllCodes(before.pieces) && move.form == 0
    ensures BoardAndTarget(before, move, after) <==> OrdinaryLaw(before, move, after)
  {
  }

  /** All of a transition but sides and rights. */
  ghost predicate BoardAndTarget(before: Position, move: Move, after: Position) {
    && MoveOk(before, move) && TargetOk(before, move, after)
    && forall square | 0 <= square < 64 :: after.pieces[square] == Placed(before, move, square)
  }

  lemma ForfeitsAre(before: Position, move: Move)
    requires move.from < 64 && move.to < 64 && AllCodes(before.pieces) && Side(before.pieces[move.from]) == before.side
    ensures var moving, captured := before.pieces[move.from], before.pieces[move.to];
      && (Forfeits(before, move, WHITE, 0) <==> moving == 6 || (move.from == 7 && moving == 4) || (move.to == 7 && captured == 4))
      && (Forfeits(before, move, WHITE, 1) <==> moving == 6 || (move.from == 0 && moving == 4) || (move.to == 0 && captured == 4))
      && (Forfeits(before, move, BLACK, 0) <==> moving == 14 || (move.from == 63 && moving == 12) || (move.to == 63 && captured == 12))
      && (Forfeits(before, move, BLACK, 1) <==> moving == 14 || (move.from == 56 && moving == 12) || (move.to == 56 && captured == 12))
  {
  }

  lemma RightsAre(before: Position, move: Move, after: Position)
    requires move.from < 64 && move.to < 64 && AllCodes(before.pieces) && Side(before.pieces[move.from]) == before.side && before.rights < 16
    ensures after.rights == RightsAfter(before, move) <==> RightsLaw(before, move, after)
  {
    hide Forfeits, RightsAfter;
    ForfeitsAre(before, move);
    RightsBits(before, move, WHITE, 0);
    RightsBits(before, move, WHITE, 1);
    RightsBits(before, move, BLACK, 0);
    RightsBits(before, move, BLACK, 1);
    var rights: nat := RightsAfter(before, move);
    Whole(before.rights);
    Whole(rights);
    if RightsLaw(before, move, after) {
      Whole(after.rights);
      SameBits(after.rights, rights);
    }
  }

  /** A whole ply. */
  ghost predicate PlyLaw(before: Position, move: Move, after: Position) {
    && MoveLaw(before, move, after) && before.side + after.side == 3
    && move.from < 64 && move.to < 64 && RightsLaw(before, move, after)
  }

  /** The transitions from a sound position, in numbers. */
  lemma TransitionExactly(before: Position, move: Move, after: Position)
    requires Sound(before)
    ensures TransitionOk(before, move, after) <==> PlyLaw(before, move, after)
  {
    hide AllHomes, Tally, RightsLaw, RightsAfter, TargetOk, Placed, CastlingLaw, PassingLaw, OrdinaryLaw;
    if move.form == 0 {
      OrdinaryIs(before, move, after);
    } else if move.form == 3 {
      PassingIs(before, move, after);
    } else if move.form < 3 {
      CastlingIs(before, move, after);
    }
    if MoveOk(before, move) {
      RightsAre(before, move, after);
    }
  }

  lemma {:induction false} LawSound(positions: seq<Position>, moves: seq<Move>, k: nat)
    requires |positions| == |moves| + 1 && PositionOk(positions[0]) && k <= |moves|
    requires forall j | 0 <= j < k :: PlyLaw(positions[j], moves[j], positions[j + 1])
    ensures Sound(positions[k])
  {
    hide PositionOk, TransitionOk, PlyLaw, Sound;
    if k == 0 {
      FirstSound(positions[0]);
    } else {
      LawSound(positions, moves, k - 1);
      TransitionExactly(positions[k - 1], moves[k - 1], positions[k]);
      SoundStays(positions[k - 1], moves[k - 1], positions[k]);
    }
  }

  /** A line, in numbers: the check of a batch accepts exactly these. */
  lemma LineExactly(positions: seq<Position>, moves: seq<Move>)
    requires |positions| == |moves| + 1 && PositionOk(positions[0])
    ensures LineOk(positions, moves) <==> forall k | 0 <= k < |moves| :: PlyLaw(positions[k], moves[k], positions[k + 1])
  {
    hide PositionOk, TransitionOk, PlyLaw, Sound;
    if LineOk(positions, moves) {
      forall k | 0 <= k < |moves|
        ensures PlyLaw(positions[k], moves[k], positions[k + 1])
      {
        LineSound(positions, moves, k);
        TransitionExactly(positions[k], moves[k], positions[k + 1]);
      }
    }
    if forall k | 0 <= k < |moves| :: PlyLaw(positions[k], moves[k], positions[k + 1]) {
      forall k | 0 <= k < |moves|
        ensures TransitionOk(positions[k], moves[k], positions[k + 1])
      {
        LawSound(positions, moves, k);
        TransitionExactly(positions[k], moves[k], positions[k + 1]);
      }
    }
  }

  // ----- batches -----

  ghost predicate Follows(line: Range, next: Range) {
    next.firstPosition == line.firstPosition + line.moveCount + 1 && next.firstMove == line.firstMove + line.moveCount
  }

  /** Each line starts where the one before it ends, and the last one ends with the arrays. */
  ghost predicate LinesLaw(lines: seq<Range>, positions: nat, moves: nat) {
    && lines != [] && lines[0].firstPosition == 0 && lines[0].firstMove == 0
    && (forall i | 0 < i < |lines| :: Follows(lines[i - 1], lines[i]))
    && var last := lines[|lines| - 1];
       last.firstPosition + last.moveCount + 1 == positions && last.firstMove + last.moveCount == moves
  }

  lemma {:induction false} LinesStart(lines: seq<Range>, positions: nat, moves: nat, i: nat)
    requires LinesLaw(lines, positions, moves) && i < |lines|
    ensures lines[i].firstPosition == PositionStart(lines, i) && lines[i].firstMove == MoveStart(lines, i)
  {
    if i > 0 {
      assert Follows(lines[i - 1], lines[i]);
      LinesStart(lines, positions, moves, i - 1);
    }
  }

  lemma LinesAre(b: Batch)
    requires b.lines != []
    ensures Partitioned(b) <==>
      LinesLaw(b.lines, |b.positions|, |b.moves|) && forall i | 0 <= i < |b.lines| :: 2 * b.lines[i].moveCount + 2 <= b.maximumOperands
  {
    var n := |b.lines|;
    if Partitioned(b) {
      assert RangeOk(b, 0) && RangeOk(b, n - 1);
      forall i | 0 < i < n
        ensures Follows(b.lines[i - 1], b.lines[i])
      {
        assert RangeOk(b, i - 1) && RangeOk(b, i);
      }
      forall i | 0 <= i < n
        ensures 2 * b.lines[i].moveCount + 2 <= b.maximumOperands
      {
        assert RangeOk(b, i);
      }
    }
    if LinesLaw(b.lines, |b.positions|, |b.moves|) {
      forall i | 0 <= i < n
        ensures b.lines[i].firstPosition == PositionStart(b.lines, i) && b.lines[i].firstMove == MoveStart(b.lines, i)
      {
        LinesStart(b.lines, |b.positions|, |b.moves|, i);
      }
      assert PositionStart(b.lines, n) == PositionStart(b.lines, n - 1) + b.lines[n - 1].moveCount + 1;
    }
  }

  ghost predicate LineLaw(b: Batch, line: Range) {
    && line.firstPosition + line.moveCount < |b.positions| && line.firstMove + line.moveCount <= |b.moves|
    && forall ply | 0 <= ply < line.moveCount :: LawAt(b, line, ply)
  }

  ghost predicate LawAt(b: Batch, line: Range, ply: nat)
    requires line.firstPosition + ply + 1 < |b.positions| && line.firstMove + ply < |b.moves|
  {
    PlyLaw(b.positions[line.firstPosition + ply], b.moves[line.firstMove + ply], b.positions[line.firstPosition + ply + 1])
  }

  /** An accepted batch, in numbers. */
  lemma BatchExactly(b: Batch)
    ensures BatchOk(b) <==>
      && b.version == 1 && b.reserved == 0 && b.positions != []
      && |b.positions| <= b.maximumPositions && |b.moves| <= b.maximumMoves && |b.lines| <= b.maximumLines
      && b.maximumRequests >= 1 && b.maximumOperands >= 2
      && LinesLaw(b.lines, |b.positions|, |b.moves|)
      && (forall k | 0 <= k < |b.positions| :: PositionLaw(b.positions[k]))
      && (forall i | 0 <= i < |b.lines| :: LineLaw(b, b.lines[i]) && 2 * b.lines[i].moveCount + 2 <= b.maximumOperands)
  {
    hide LinesLaw, Partitioned, PositionOk, PositionLaw, StepsOk, LineLaw;
    if b.lines != [] {
      LinesAre(b);
    } else {
      NoLines(b);
    }
    forall k | 0 <= k < |b.positions|
      ensures PositionOk(b.positions[k]) <==> PositionLaw(b.positions[k])
    {
      PositionExactly(b.positions[k]);
    }
    if forall k | 0 <= k < |b.positions| :: PositionOk(b.positions[k]) {
      forall i | 0 <= i < |b.lines|
        ensures LineLaw(b, b.lines[i]) <==> LineInside(b, i) && StepsOk(b, i)
      {
        StepsAre(b, i);
      }
    }
  }

  lemma NoLines(b: Batch)
    requires b.lines == []
    ensures !LinesLaw(b.lines, |b.positions|, |b.moves|)
  {
  }

  lemma StepsAre(b: Batch, i: nat)
    requires i < |b.lines| && forall k | 0 <= k < |b.positions| :: PositionOk(b.positions[k])
    ensures LineLaw(b, b.lines[i]) <==> LineInside(b, i) && StepsOk(b, i)
  {
    hide PositionOk, TransitionOk, PlyLaw, Sound;
    if LineInside(b, i) {
      var line := b.lines[i];
      forall ply | 0 <= ply < line.moveCount
        ensures PlyOk(b, i, ply) <==> LawAt(b, line, ply)
      {
        FirstSound(b.positions[line.firstPosition + ply]);
        TransitionExactly(b.positions[line.firstPosition + ply], b.moves[line.firstMove + ply], b.positions[line.firstPosition + ply + 1]);
      }
    }
  }
}
