/** Chess positions and the exact transition between two of them: what each check
    accepts, and what every validated line keeps. */
module ChessRules {

  const WHITE: nat := 1
  const BLACK: nat := 2
  const PAWN: nat := 1
  const KNIGHT: nat := 2
  const ROOK: nat := 4
  const QUEEN: nat := 5
  const KING: nat := 6
  const NO_SQUARE: nat := 64
  const ORDINARY: nat := 0
  const CASTLE_KING: nat := 1
  const CASTLE_QUEEN: nat := 2
  const EN_PASSANT: nat := 3

  /** a1 is 0, h1 is 7, h8 is 63; 0 is empty, 1..6 white, 9..14 black. */
  type Board = s: seq<nat> | |s| == 64 witness seq(64, _ => 0)

  datatype Position = Position(pieces: Board, side: nat, rights: nat, enPassant: nat, reserved: seq<nat>)

  datatype Move = Move(from: nat, to: nat, promotion: nat, form: nat)

  function Side(piece: nat): nat {
    if piece == 0 then 0 else if piece < 8 then WHITE else BLACK
  }

  function Kind(piece: nat): nat {
    piece % 8
  }

  function Piece(side: int, kind: nat): nat {
    kind + if side == BLACK then 8 else 0
  }

  function Other(side: nat): int {
    3 - side
  }

  predicate PieceCode(piece: nat) {
    piece <= 6 || 9 <= piece <= 14
  }

  // ----- castling rights -----

  function Home(side: nat): nat {
    if side == WHITE then 0 else 56
  }

  /** Wing 0 is the king's, wing 1 the queen's. */
  function Corner(side: nat, wing: nat): nat {
    Home(side) + if wing == 0 then 7 else 0
  }

  function RightBit(side: nat, wing: nat): (bit: nat)
    ensures bit > 0
  {
    (if wing == 0 then 1 else 2) * if side == WHITE then 1 else 4
  }

  predicate Has(rights: nat, bit: nat)
    requires bit > 0
  {
    rights / bit % 2 == 1
  }

  function Clear(rights: nat, bit: nat): nat
    requires bit > 0
  {
    if Has(rights, bit) then rights - bit else rights
  }

  ghost predicate HomesOk(board: Board, rights: nat, side: nat, wing: nat) {
    Has(rights, RightBit(side, wing)) ==>
      board[Home(side) + 4] == Piece(side, KING) && board[Corner(side, wing)] == Piece(side, ROOK)
  }

  // ----- counting pieces -----

  function Is(piece: nat): nat -> bool {
    (p: nat) => p == piece
  }

  function Of(side: nat): nat -> bool {
    (p: nat) => Side(p) == side
  }

  ghost function Tally(board: seq<nat>, which: nat -> bool): nat {
    if board == [] then 0
    else Tally(board[..|board| - 1], which) + if which(board[|board| - 1]) then 1 else 0
  }

  ghost function One(b: bool): nat {
    if b then 1 else 0
  }

  lemma {:induction false} TallyUpdate(board: seq<nat>, i: nat, v: nat, which: nat -> bool)
    requires i < |board|
    ensures Tally(board[i := v], which) + One(which(board[i])) == Tally(board, which) + One(which(v))
  {
    var n := |board| - 1;
    if i < n {
      TallyUpdate(board[..n], i, v, which);
      assert board[i := v][..n] == board[..n][i := v];
    } else {
      assert board[i := v][..n] == board[..n];
    }
  }

  lemma {:induction false} TallyOne(board: seq<nat>, i: nat, which: nat -> bool)
    requires i < |board| && which(board[i])
    ensures Tally(board, which) >= 1
  {
    var n := |board| - 1;
    if i < n {
      TallyOne(board[..n], i, which);
    }
  }

  // ----- positions -----

  ghost predicate SquareOk(board: Board, square: nat)
    requires square < 64
  {
    PieceCode(board[square]) && (Kind(board[square]) == PAWN ==> 8 <= square < 56)
  }

  ghost predicate PawnBeside(p: Position, rank: nat, file: nat, beside: nat)
    requires rank < 8
  {
    beside < 8 && (beside == file - 1 || beside == file + 1) && p.pieces[rank * 8 + beside] == Piece(p.side, PAWN)
  }

  ghost predicate Beside(p: Position, rank: nat, file: nat)
    requires rank < 8
  {
    exists beside: nat :: PawnBeside(p, rank, file, beside)
  }

  /** A pawn has just passed over the target and one of the side to move can take it. */
  ghost predicate EnPassantOk(p: Position) {
    var pawnRank := if p.side == WHITE then 4 else 3;
    var file := p.enPassant % 8;
    p.enPassant < NO_SQUARE ==>
      && p.enPassant / 8 == (if p.side == WHITE then 5 else 2)
      && p.pieces[p.enPassant] == 0
      && p.pieces[pawnRank * 8 + file] == Piece(Other(p.side), PAWN)
      && Beside(p, pawnRank, file)
  }

  ghost predicate PositionOk(p: Position) {
    && (p.side == WHITE || p.side == BLACK) && p.rights <= 15 && p.enPassant <= NO_SQUARE
    && (forall i | 0 <= i < |p.reserved| :: p.reserved[i] == 0)
    && (forall square | 0 <= square < 64 :: SquareOk(p.pieces, square))
    && Tally(p.pieces, Is(Piece(WHITE, KING))) == 1 && Tally(p.pieces, Is(Piece(BLACK, KING))) == 1
    && HomesOk(p.pieces, p.rights, WHITE, 0) && HomesOk(p.pieces, p.rights, WHITE, 1)
    && HomesOk(p.pieces, p.rights, BLACK, 0) && HomesOk(p.pieces, p.rights, BLACK, 1)
    && EnPassantOk(p)
  }

  lemma TallyNext(board: seq<nat>, n: nat, which: nat -> bool)
    requires n < |board|
    ensures Tally(board[..n + 1], which) == Tally(board[..n], which) + One(which(board[n]))
  {
    assert board[..n + 1][..n] == board[..n];
  }

  /** The squares and the kings on them. */
  method CountKings(p: Position) returns (ok: bool, white: nat, black: nat)
    ensures ok <==> forall square | 0 <= square < 64 :: SquareOk(p.pieces, square)
    ensures ok ==> white == Tally(p.pieces, Is(Piece(WHITE, KING))) && black == Tally(p.pieces, Is(Piece(BLACK, KING)))
  {
    hide Tally;
    white, black := 0, 0;
    TallyNothing(p.pieces, Is(Piece(WHITE, KING)));
    TallyNothing(p.pieces, Is(Piece(BLACK, KING)));
    for square := 0 to 64
      invariant forall s | 0 <= s < square :: SquareOk(p.pieces, s)
      invariant white == Tally(p.pieces[..square], Is(Piece(WHITE, KING))) && black == Tally(p.pieces[..square], Is(Piece(BLACK, KING)))
    {
      var piece := p.pieces[square];
      TallyNext(p.pieces, square, Is(Piece(WHITE, KING)));
      TallyNext(p.pieces, square, Is(Piece(BLACK, KING)));
      if piece != 0 {
        if piece == 7 || piece == 8 || piece > 14 {
          assert !SquareOk(p.pieces, square);
          return false, white, black;
        }
        if Kind(piece) == KING {
          if Side(piece) == WHITE {
            white := white + 1;
          } else {
            black := black + 1;
          }
        }
        if Kind(piece) == PAWN && (square < 8 || square >= 56) {
          assert !SquareOk(p.pieces, square);
          return false, white, black;
        }
      }
    }
    assert p.pieces[..64] == p.pieces;
    ok := true;
  }

  lemma TallyNothing(board: seq<nat>, which: nat -> bool)
    ensures Tally(board[..0], which) == 0
  {
  }

  method ValidPosition(p: Position) returns (ok: bool)
    ensures ok <==> PositionOk(p)
  {
    hide Tally, SquareOk;
    if (p.side != WHITE && p.side != BLACK) || p.rights > 15 || p.enPassant > NO_SQUARE
       || exists i | 0 <= i < |p.reserved| :: p.reserved[i] != 0 {
      return false;
    }
    var squares, white, black := CountKings(p);
    if !squares || white != 1 || black != 1 {
      return false;
    }
    var homes := true;
    for side := 1 to 3
      invariant homes ==> forall s: nat, wing: nat | 1 <= s < side && wing < 2 :: HomesOk(p.pieces, p.rights, s, wing)
      invariant !homes ==> exists s: nat, wing: nat | 1 <= s < 3 && wing < 2 :: !HomesOk(p.pieces, p.rights, s, wing)
    {
      var base := if side == 1 then 0 else 56;
      var shifted := p.rights / (if side == 1 then 1 else 4);
      var rights := shifted % 4;
      SideRights(p.rights, side);
      if (rights != 0 && p.pieces[base + 4] != Piece(side, KING))
         || (rights % 2 == 1 && p.pieces[base + 7] != Piece(side, ROOK))
         || (rights / 2 == 1 && p.pieces[base] != Piece(side, ROOK)) {
        assert !HomesOk(p.pieces, p.rights, side, 0) || !HomesOk(p.pieces, p.rights, side, 1);
        homes := false;
        break;
      }
      assert HomesOk(p.pieces, p.rights, side, 0) && HomesOk(p.pieces, p.rights, side, 1);
    }
    if !homes {
      FourHomes(p);
      return false;
    }
    ok := EnPassantSquare(p);
  }

  /** The two bits of a side. */
  lemma SideRights(rights: nat, side: nat)
    requires 1 <= side < 3
    ensures var two := rights / (if side == 1 then 1 else 4) % 4;
      (Has(rights, RightBit(side, 0)) <==> two % 2 == 1) && (Has(rights, RightBit(side, 1)) <==> two / 2 == 1)
  {
    Halves(rights);
    Whole(rights);
    LowBits(if side == 1 then rights else rights / 4);
  }

  lemma LowBits(v: nat)
    ensures v % 4 % 2 == v % 2 && v % 4 / 2 == v / 2 % 2
  {
  }

  lemma FourHomes(p: Position)
    requires exists s: nat, wing: nat | 1 <= s < 3 && wing < 2 :: !HomesOk(p.pieces, p.rights, s, wing)
    ensures !PositionOk(p)
  {
    hide HomesOk, SquareOk, Tally, EnPassantOk;
    var s: nat, wing: nat :| 1 <= s < 3 && wing < 2 && !HomesOk(p.pieces, p.rights, s, wing);
    assert s == WHITE || s == BLACK;
    assert wing == 0 || wing == 1;
  }

  method EnPassantSquare(p: Position) returns (ok: bool)
    requires p.enPassant <= NO_SQUARE
    ensures ok <==> EnPassantOk(p)
  {
    if p.enPassant != NO_SQUARE {
      var target := p.enPassant;
      var rank := if p.side == WHITE then 5 else 2;
      var pawnRank := if p.side == WHITE then 4 else 3;
      var file := target % 8;
      if target / 8 != rank || p.pieces[target] != 0 || p.pieces[pawnRank * 8 + file] != Piece(Other(p.side), PAWN) {
        return false;
      }
      var own := Piece(p.side, PAWN);
      forall beside: nat
        ensures PawnBeside(p, pawnRank, file, beside) <==>
          (beside + 1 == file && p.pieces[pawnRank * 8 + file - 1] == own) || (beside == file + 1 && file < 7 && p.pieces[pawnRank * 8 + file + 1] == own)
      {
        if beside + 1 == file {
          assert pawnRank * 8 + file - 1 == pawnRank * 8 + beside;
        }
        if beside == file + 1 {
          assert pawnRank * 8 + file + 1 == pawnRank * 8 + beside;
        }
      }
      if !((file > 0 && p.pieces[pawnRank * 8 + file - 1] == own) || (file < 7 && p.pieces[pawnRank * 8 + file + 1] == own)) {
        return false;
      }
      if file > 0 && p.pieces[pawnRank * 8 + file - 1] == own {
        assert PawnBeside(p, pawnRank, file, file - 1);
      } else {
        assert PawnBeside(p, pawnRank, file, file + 1);
      }
      assert exists beside: nat :: PawnBeside(p, pawnRank, file, beside);
      assert EnPassantOk(p);
    }
    ok := true;
    assert EnPassantOk(p);
  }

  // ----- transitions -----

  /** Castling squares: where the rook starts and ends, and the right that is used. */
  function RookFrom(before: Position, move: Move): nat {
    Home(before.side) + if move.form == CASTLE_KING then 7 else 0
  }

  function RookTo(before: Position, move: Move): nat {
    Home(before.side) + if move.form == CASTLE_KING then 5 else 3
  }

  function KingTo(before: Position, move: Move): nat {
    Home(before.side) + if move.form == CASTLE_KING then 6 else 2
  }

  predicate Castling(move: Move) {
    move.form == CASTLE_KING || move.form == CASTLE_QUEEN
  }

  /** The square of the pawn taken in passing. */
  function PassedSquare(before: Position, move: Move): nat {
    (if before.side == WHITE then 4 else 3) * 8 + move.to % 8
  }

  ghost predicate MoveShape(move: Move) {
    && move.from < 64 && move.to < 64 && move.from != move.to && move.form <= EN_PASSANT
    && (move.promotion == 0 || KNIGHT <= move.promotion <= QUEEN)
  }

  ghost predicate CastleOk(before: Position, move: Move)
    requires MoveShape(move)
  {
    && Kind(before.pieces[move.from]) == KING && move.promotion == 0
    && move.from == Home(before.side) + 4 && move.to == KingTo(before, move)
    && Has(before.rights, RightBit(before.side, if move.form == CASTLE_KING then 0 else 1))
    && before.pieces[RookFrom(before, move)] == Piece(before.side, ROOK)
    && forall square | (if move.form == CASTLE_KING then Home(before.side) + 5 else Home(before.side) + 1) <= square < (if move.form == CASTLE_KING then Home(before.side) + 7 else Home(before.side) + 4) ::
      before.pieces[square] == 0
  }

  ghost predicate PassingOk(before: Position, move: Move)
    requires MoveShape(move)
  {
    && Kind(before.pieces[move.from]) == PAWN && move.promotion == 0
    && before.enPassant == move.to && before.pieces[move.to] == 0
    && move.from / 8 == (if before.side == WHITE then 4 else 3)
    && move.to / 8 == (if before.side == WHITE then 5 else 2)
    && (move.to % 8 == move.from % 8 + 1 || move.to % 8 + 1 == move.from % 8)
    && before.pieces[PassedSquare(before, move)] == Piece(Other(before.side), PAWN)
  }

  /** A pawn promotes exactly when it reaches the last rank, and nothing else does. */
  ghost predicate PromotionOk(before: Position, move: Move)
    requires MoveShape(move)
  {
    move.promotion != 0 <==>
      Kind(before.pieces[move.from]) == PAWN && move.to / 8 == (if before.side == WHITE then 7 else 0)
  }

  ghost predicate MoveOk(before: Position, move: Move) {
    && MoveShape(move)
    && Side(before.pieces[move.from]) == before.side
    && Side(before.pieces[move.to]) != before.side && Kind(before.pieces[move.to]) != KING
    && (if Castling(move) then CastleOk(before, move)
        else if move.form == EN_PASSANT then PassingOk(before, move)
        else PromotionOk(before, move))
  }

  /** What stands on a square after the move. */
  ghost function Placed(before: Position, move: Move, square: nat): nat
    requires square < 64 && MoveShape(move)
  {
    if Castling(move) && square == RookTo(before, move) then Piece(before.side, ROOK)
    else if Castling(move) && square == RookFrom(before, move) then 0
    else if move.form == EN_PASSANT && square == PassedSquare(before, move) then 0
    else if square == move.to then
      if move.form == ORDINARY && move.promotion != 0 then Piece(before.side, move.promotion) else before.pieces[move.from]
    else if square == move.from then 0
    else before.pieces[square]
  }

  /** The right's own rook leaves or is taken. */
  predicate CornerGone(before: Position, move: Move, side: nat, wing: nat)
    requires move.from < 64 && move.to < 64
  {
    || (move.from == Corner(side, wing) && before.pieces[move.from] == Piece(side, ROOK))
    || (move.to == Corner(side, wing) && before.pieces[move.to] == Piece(side, ROOK))
  }

  /** A right goes with a king's move, and with its own rook's leaving or being taken. */
  predicate Forfeits(before: Position, move: Move, side: nat, wing: nat)
    requires move.from < 64 && move.to < 64
  {
    (Kind(before.pieces[move.from]) == KING && before.side == side) || CornerGone(before, move, side, wing)
  }

  ghost function Lost(before: Position, move: Move, side: nat, wing: nat): nat
    requires move.from < 64 && move.to < 64
  {
    if Has(before.rights, RightBit(side, wing)) && Forfeits(before, move, side, wing) then RightBit(side, wing) else 0
  }

  ghost function RightsAfter(before: Position, move: Move): int
    requires move.from < 64 && move.to < 64
  {
    before.rights - Lost(before, move, WHITE, 0) - Lost(before, move, WHITE, 1) - Lost(before, move, BLACK, 0) - Lost(before, move, BLACK, 1)
  }

  /** A target can only be left by a pawn's double step, on the square between. */
  ghost predicate TargetOk(before: Position, move: Move, after: Position)
    requires MoveShape(move)
  {
    after.enPassant != NO_SQUARE ==>
      && move.form == ORDINARY && Kind(before.pieces[move.from]) == PAWN
      && move.from / 8 == (if before.side == WHITE then 1 else 6)
      && move.to / 8 == (if before.side == WHITE then 3 else 4)
      && move.from % 8 == move.to % 8 && after.enPassant == (move.from + move.to) / 2
  }

  ghost predicate TransitionOk(before: Position, move: Move, after: Position) {
    && MoveOk(before, move) && after.side == Other(before.side)
    && (forall square | 0 <= square < 64 :: after.pieces[square] == Placed(before, move, square))
    && after.rights == RightsAfter(before, move)
    && TargetOk(before, move, after)
  }

  /** Applies the form of the move to the board. */
  method Expect(before: Position, move: Move) returns (ok: bool, expected: Board)
    requires MoveShape(move)
    requires Side(before.pieces[move.from]) == before.side && Side(before.pieces[move.to]) != before.side && Kind(before.pieces[move.to]) != KING
    ensures ok <==> MoveOk(before, move)
    ensures ok ==> forall square | 0 <= square < 64 :: expected[square] == Placed(before, move, square)
  {
    var moving, captured := before.pieces[move.from], before.pieces[move.to];
    expected := before.pieces[move.from := 0][move.to := moving];
    if move.form == CASTLE_KING || move.form == CASTLE_QUEEN {
      var clear := CastleAllowed(before, move);
      if !clear {
        return false, expected;
      }
      expected := expected[RookFrom(before, move) := 0];
      expected := expected[RookTo(before, move) := Piece(before.side, ROOK)];
    } else if move.form == EN_PASSANT {
      var sourceRank := if before.side == WHITE then 4 else 3;
      var targetRank := if before.side == WHITE then 5 else 2;
      var fileDelta := (move.to % 8) as int - (move.from % 8) as int;
      var capturedSquare := sourceRank * 8 + move.to % 8;
      if Kind(moving) != PAWN || move.promotion != 0 || before.enPassant != move.to || captured != 0
         || move.from / 8 != sourceRank || move.to / 8 != targetRank || (fileDelta != -1 && fileDelta != 1)
         || before.pieces[capturedSquare] != Piece(Other(before.side), PAWN) {
        return false, expected;
      }
      expected := expected[capturedSquare := 0];
    } else {
      var finalRank := move.to / 8 == if before.side == WHITE then 7 else 0;
      if (move.promotion != 0 && (Kind(moving) != PAWN || !finalRank)) || (Kind(moving) == PAWN && finalRank && move.promotion == 0) {
        return false, expected;
      }
      if move.promotion != 0 {
        expected := expected[move.to := Piece(before.side, move.promotion)];
      }
    }
    ok := true;
  }

  method CastleAllowed(before: Position, move: Move) returns (ok: bool)
    requires MoveShape(move) && Castling(move)
    ensures ok <==> CastleOk(before, move)
  {
    var base := if before.side == WHITE then 0 else 56;
    var kingSide := move.form == CASTLE_KING;
    var right := (if kingSide then 1 else 2) * if before.side == WHITE then 1 else 4;
    if Kind(before.pieces[move.from]) != KING || move.promotion != 0
       || move.from != base + 4 || move.to != base + (if kingSide then 6 else 2)
       || !Has(before.rights, right) || before.pieces[RookFrom(before, move)] != Piece(before.side, ROOK) {
      return false;
    }
    var first, last := base + (if kingSide then 5 else 1), base + if kingSide then 7 else 4;
    for square := first to last
      invariant forall s | first <= s < square :: before.pieces[s] == 0
    {
      if before.pieces[square] != 0 {
        return false;
      }
    }
    ok := true;
  }

  ghost function Without(rights: nat, a: bool, b: bool, c: bool, d: bool): int {
    rights - (if a && Has(rights, 1) then 1 else 0) - (if b && Has(rights, 2) then 2 else 0)
      - (if c && Has(rights, 4) then 4 else 0) - (if d && Has(rights, 8) then 8 else 0)
  }

  lemma Half(v: nat, q: nat, bit: nat)
    requires v == 2 * q + bit && bit < 2
    ensures v / 2 == q && v % 2 == bit
  {
  }

  lemma Halves(v: nat)
    ensures v / 4 == v / 2 / 2 && v / 8 == v / 2 / 2 / 2 && v / 16 == v / 2 / 2 / 2 / 2
  {
  }

  lemma Bits(v: nat, h: nat, a: nat, b: nat, c: nat, d: nat)
    requires a < 2 && b < 2 && c < 2 && d < 2 && v == 16 * h + 8 * d + 4 * c + 2 * b + a
    ensures v % 2 == a && v / 2 % 2 == b && v / 4 % 2 == c && v / 8 % 2 == d
  {
    Halves(v);
    Half(v, 8 * h + 4 * d + 2 * c + b, a);
    Half(v / 2, 4 * h + 2 * d + c, b);
    Half(v / 2 / 2, 2 * h + d, c);
    Half(v / 2 / 2 / 2, h, d);
  }

  lemma Digits(v: nat)
    ensures v == 16 * (v / 16) + 8 * (v / 8 % 2) + 4 * (v / 4 % 2) + 2 * (v / 2 % 2) + v % 2
  {
    Halves(v);
  }

  lemma Whole(v: nat)
    ensures v / 1 == v
  {
  }

  lemma SameBits(a: nat, b: nat)
    requires a <= 15 && b <= 15 && Has(a, 1) == Has(b, 1) && Has(a, 2) == Has(b, 2) && Has(a, 4) == Has(b, 4) && Has(a, 8) == Has(b, 8)
    ensures a == b
  {
    Digits(a);
    Digits(b);
    Whole(a);
    Whole(b);
  }

  lemma HasWithout(rights: nat, a: bool, b: bool, c: bool, d: bool)
    ensures var r := Without(rights, a, b, c, d);
      && 0 <= r <= rights && (Has(r, 1) <==> Has(rights, 1) && !a) && (Has(r, 2) <==> Has(rights, 2) && !b)
      && (Has(r, 4) <==> Has(rights, 4) && !c) && (Has(r, 8) <==> Has(rights, 8) && !d)
  {
    Digits(rights);
    Whole(rights);
    var r := Without(rights, a, b, c, d);
    Whole(r);
    Bits(r, rights / 16, if a then 0 else rights % 2, if b then 0 else rights / 2 % 2, if c then 0 else rights / 4 % 2, if d then 0 else rights / 8 % 2);
  }

  /** Whether the right has been cleared when the loops have reached turn k. */
  ghost predicate Gone(before: Position, move: Move, side: nat, wing: nat, k: nat)
    requires move.from < 64 && move.to < 64
  {
    || (Kind(before.pieces[move.from]) == KING && before.side == side)
    || (2 * (side - 1) + wing < k && CornerGone(before, move, side, wing))
  }

  ghost function Remaining(before: Position, move: Move, k: nat): int
    requires move.from < 64 && move.to < 64
  {
    Without(before.rights, Gone(before, move, WHITE, 0, k), Gone(before, move, WHITE, 1, k), Gone(before, move, BLACK, 0, k), Gone(before, move, BLACK, 1, k))
  }

  lemma RemainingNext(before: Position, move: Move, side: nat, wing: nat)
    requires move.from < 64 && move.to < 64 && 1 <= side < 3 && wing < 2
    ensures var k := 2 * (side - 1) + wing;
      && Remaining(before, move, k) >= 0
      && Remaining(before, move, k + 1) ==
        if CornerGone(before, move, side, wing) then Clear(Remaining(before, move, k), RightBit(side, wing)) else Remaining(before, move, k)
  {
    hide Has, CornerGone;
    var k := 2 * (side - 1) + wing;
    HasWithout(before.rights, Gone(before, move, WHITE, 0, k), Gone(before, move, WHITE, 1, k), Gone(before, move, BLACK, 0, k), Gone(before, move, BLACK, 1, k));
  }

  lemma RemainingFirst(before: Position, move: Move)
    requires move.from < 64 && move.to < 64 && Side(before.pieces[move.from]) == before.side
    ensures Remaining(before, move, 0) ==
      if Kind(before.pieces[move.from]) != KING then before.rights
      else
        var side := if before.side == WHITE then WHITE else BLACK;
        Clear(Clear(before.rights, RightBit(side, 0)), RightBit(side, 1))
  {
    hide Has;
    var king := Kind(before.pieces[move.from]) == KING;
    HasWithout(before.rights, king && before.side == WHITE, false, king && before.side == BLACK, false);
  }

  lemma RemainingLast(before: Position, move: Move)
    requires move.from < 64 && move.to < 64
    ensures Remaining(before, move, 4) == RightsAfter(before, move) >= 0
  {
    hide Has, Kind, Side, Piece;
    HasWithout(before.rights, Gone(before, move, WHITE, 0, 4), Gone(before, move, WHITE, 1, 4), Gone(before, move, BLACK, 0, 4), Gone(before, move, BLACK, 1, 4));
  }

  /** Clears the rights the move gives up. */
  method KeepRights(before: Position, move: Move) returns (rights: nat)
    requires move.from < 64 && move.to < 64 && Side(before.pieces[move.from]) == before.side
    ensures rights == RightsAfter(before, move)
  {
    hide Has, Forfeits, Remaining, RightsAfter, Clear;
    var moving, captured := before.pieces[move.from], before.pieces[move.to];
    rights := before.rights;
    RemainingFirst(before, move);
    if Kind(moving) == KING {
      var side := if before.side == WHITE then WHITE else BLACK;
      rights := Clear(Clear(rights, RightBit(side, 0)), RightBit(side, 1));
    }
    for side := 1 to 3
      invariant rights == Remaining(before, move, 2 * (side - 1))
    {
      for wing := 0 to 2
        invariant rights == Remaining(before, move, 2 * (side - 1) + wing)
      {
        var square := Corner(side, wing);
        RemainingNext(before, move, side, wing);
        if (move.from == square && moving == Piece(side, ROOK)) || (move.to == square && captured == Piece(side, ROOK)) {
          rights := Clear(rights, RightBit(side, wing));
        }
      }
    }
    RemainingLast(before, move);
  }

  method ValidTransition(before: Position, move: Move, after: Position) returns (ok: bool)
    ensures ok <==> TransitionOk(before, move, after)
  {
    hide Placed, CastleOk, PassingOk, PromotionOk, Has, RightsAfter;
    if move.from >= 64 || move.to >= 64 || move.from == move.to || move.form > EN_PASSANT
       || (move.promotion != 0 && (move.promotion < KNIGHT || move.promotion > QUEEN))
       || after.side as int != Other(before.side) {
      return false;
    }
    var moving, captured := before.pieces[move.from], before.pieces[move.to];
    if Side(moving) != before.side || Side(captured) == before.side || Kind(captured) == KING {
      return false;
    }
    var applied, expected := Expect(before, move);
    if !applied {
      return false;
    }
    if expected != after.pieces {
      SomeSquare(expected, after.pieces);
      return false;
    }
    var rights := KeepRights(before, move);
    if after.rights != rights {
      return false;
    }
    if after.enPassant != NO_SQUARE {
      var initialRank := if before.side == WHITE then 1 else 6;
      var finalRank := if before.side == WHITE then 3 else 4;
      if move.form != ORDINARY || Kind(moving) != PAWN || move.from / 8 != initialRank || move.to / 8 != finalRank
         || move.from % 8 != move.to % 8 || after.enPassant != (move.from + move.to) / 2 {
        return false;
      }
    }
    ok := true;
  }

  lemma SomeSquare(a: Board, b: Board)
    requires a != b
    ensures exists square | 0 <= square < 64 :: a[square] != b[square]
  {
    assert (forall square | 0 <= square < 64 :: a[square] == b[square]) ==> a == b;
  }

  // ----- what one transition keeps -----

  ghost predicate AllHomes(board: Board, rights: nat) {
    && HomesOk(board, rights, WHITE, 0) && HomesOk(board, rights, WHITE, 1)
    && HomesOk(board, rights, BLACK, 0) && HomesOk(board, rights, BLACK, 1)
  }

  /** The part of PositionOk that transitions keep by themselves. */
  ghost predicate Sound(p: Position) {
    && (p.side == WHITE || p.side == BLACK) && p.rights <= 15
    && (forall square | 0 <= square < 64 :: PieceCode(p.pieces[square]))
    && Tally(p.pieces, Is(Piece(WHITE, KING))) == 1 && Tally(p.pieces, Is(Piece(BLACK, KING))) == 1
    && AllHomes(p.pieces, p.rights)
  }

  /** The board after the move as a chain of changes. */
  ghost function Chain(before: Position, move: Move): Board
    requires MoveOk(before, move)
  {
    var base := before.pieces[move.from := 0][move.to := Placed(before, move, move.to)];
    if Castling(move) then base[RookFrom(before, move) := 0][RookTo(before, move) := Piece(before.side, ROOK)]
    else if move.form == EN_PASSANT then base[PassedSquare(before, move) := 0]
    else base
  }

  lemma ChainIsPlaced(before: Position, move: Move, after: Position)
    requires TransitionOk(before, move, after)
    ensures after.pieces == Chain(before, move)
  {
    hide Kind, Side, Has, RightsAfter, TargetOk;
    var chain := Chain(before, move);
    forall square | 0 <= square < 64
      ensures chain[square] == Placed(before, move, square)
    {
    }
  }

  /** A change of two squares of the chain, counted. */
  lemma TallyMove(before: Position, move: Move, which: nat -> bool)
    requires MoveOk(before, move)
    ensures var base := before.pieces[move.from := 0][move.to := Placed(before, move, move.to)];
      Tally(base, which) + One(which(before.pieces[move.from])) + One(which(before.pieces[move.to])) ==
        Tally(before.pieces, which) + One(which(0)) + One(which(Placed(before, move, move.to)))
  {
    hide Tally, Placed;
    var lifted := before.pieces[move.from := 0];
    TallyUpdate(before.pieces, move.from, 0, which);
    TallyUpdate(lifted, move.to, Placed(before, move, move.to), which);
  }

  /** How the number of pieces of any kind changes. */
  ghost function Taken(before: Position, move: Move): nat
    requires MoveShape(move)
  {
    if move.form == EN_PASSANT then before.pieces[PassedSquare(before, move)] else before.pieces[move.to]
  }

  lemma TallyTransition(before: Position, move: Move, after: Position, which: nat -> bool)
    requires TransitionOk(before, move, after) && !which(0)
    ensures Tally(after.pieces, which) + One(which(before.pieces[move.from])) + One(which(Taken(before, move))) ==
      Tally(before.pieces, which) + One(which(if move.promotion != 0 then Piece(before.side, move.promotion) else before.pieces[move.from]))
  {
    hide Tally, Has, RightsAfter, TargetOk, Kind, Side;
    ChainIsPlaced(before, move, after);
    TallyMove(before, move, which);
    var base: Board := before.pieces[move.from := 0][move.to := Placed(before, move, move.to)];
    if Castling(move) {
      TallyUpdate(base, RookFrom(before, move), 0, which);
      TallyUpdate(base[RookFrom(before, move) := 0], RookTo(before, move), Piece(before.side, ROOK), which);
    } else if move.form == EN_PASSANT {
      TallyUpdate(base, PassedSquare(before, move), 0, which);
    }
  }

  /** A king stays the only king. */
  lemma KingStays(before: Position, move: Move, after: Position, side: nat)
    requires TransitionOk(before, move, after) && (side == WHITE || side == BLACK) && Sound(before)
    ensures Tally(after.pieces, Is(Piece(side, KING))) == Tally(before.pieces, Is(Piece(side, KING)))
  {
    hide Tally, Has, RightsAfter, TargetOk, Placed, AllHomes;
    assert PieceCode(before.pieces[move.from]);
    TallyTransition(before, move, after, Is(Piece(side, KING)));
  }

  lemma RightsBits(before: Position, move: Move, side: nat, wing: nat)
    requires move.from < 64 && move.to < 64 && (side == WHITE || side == BLACK) && wing < 2
    ensures 0 <= RightsAfter(before, move) <= before.rights
    ensures Has(RightsAfter(before, move), RightBit(side, wing)) <==>
      Has(before.rights, RightBit(side, wing)) && !Forfeits(before, move, side, wing)
  {
    hide Has, Forfeits;
    HasWithout(before.rights, Forfeits(before, move, WHITE, 0), Forfeits(before, move, WHITE, 1), Forfeits(before, move, BLACK, 0), Forfeits(before, move, BLACK, 1));
  }

  /** A right that is left still has its king and its rook at home. */
  lemma HomeStays(before: Position, move: Move, after: Position, side: nat, wing: nat)
    requires TransitionOk(before, move, after) && Sound(before) && (side == WHITE || side == BLACK) && wing < 2
    ensures HomesOk(after.pieces, after.rights, side, wing)
  {
    hide Tally, Has, RightsAfter, TargetOk;
    RightsBits(before, move, side, wing);
    if Has(after.rights, RightBit(side, wing)) {
      assert HomesOk(before.pieces, before.rights, side, wing);
      var king, corner := Home(side) + 4, Corner(side, wing);
      assert before.pieces[king] == Piece(side, KING) && before.pieces[corner] == Piece(side, ROOK);
      assert move.from != corner && move.to != corner;
      assert move.from != king && move.to != king;
      assert after.pieces[king] == Placed(before, move, king) && after.pieces[corner] == Placed(before, move, corner);
    }
  }

  lemma CodesStay(before: Position, move: Move, after: Position)
    requires TransitionOk(before, move, after) && Sound(before)
    ensures forall square | 0 <= square < 64 :: PieceCode(after.pieces[square])
  {
    hide Tally, Has, RightsAfter, TargetOk, AllHomes;
  }

  lemma SoundStays(before: Position, move: Move, after: Position)
    requires TransitionOk(before, move, after) && Sound(before)
    ensures Sound(after)
  {
    hide Tally, Has, RightsAfter, TargetOk, MoveOk, HomesOk, Placed;
    KingStays(before, move, after, WHITE);
    KingStays(before, move, after, BLACK);
    CodesStay(before, move, after);
    HomeStays(before, move, after, WHITE, 0);
    HomeStays(before, move, after, WHITE, 1);
    HomeStays(before, move, after, BLACK, 0);
    HomeStays(before, move, after, BLACK, 1);
    ShapeOf(before, move);
    RightsBits(before, move, WHITE, 0);
  }

  lemma ShapeOf(before: Position, move: Move)
    requires MoveOk(before, move)
    ensures MoveShape(move)
  {
  }

  /** The mover keeps all its pieces; the opponent loses one exactly on a capture. */
  lemma PiecesChange(before: Position, move: Move, after: Position)
    requires TransitionOk(before, move, after) && Sound(before)
    ensures Tally(after.pieces, Of(before.side)) == Tally(before.pieces, Of(before.side))
    ensures Tally(after.pieces, Of(after.side)) + One(Captures(before, move)) == Tally(before.pieces, Of(after.side))
  {
    hide Tally, Has, RightsAfter, TargetOk, Placed, AllHomes;
    TallyTransition(before, move, after, Of(before.side));
    TallyTransition(before, move, after, Of(after.side));
  }

  predicate Captures(before: Position, move: Move)
    requires move.to < 64
  {
    move.form == EN_PASSANT || before.pieces[move.to] != 0
  }

  // ----- whole lines -----

  /** What the batch check establishes about one line: the first position and each
      transition; later positions are not assumed. */
  ghost predicate LineOk(positions: seq<Position>, moves: seq<Move>) {
    && |positions| == |moves| + 1 && PositionOk(positions[0])
    && forall k | 0 <= k < |moves| :: TransitionOk(positions[k], moves[k], positions[k + 1])
  }

  lemma FirstSound(p: Position)
    requires PositionOk(p)
    ensures Sound(p)
  {
    hide Tally, Has;
    forall square | 0 <= square < 64
      ensures PieceCode(p.pieces[square])
    {
      assert SquareOk(p.pieces, square);
    }
  }

  /** Everywhere on a line: valid pieces, one king each, and rights only with king and
      rook at home. */
  lemma {:induction false} LineSound(positions: seq<Position>, moves: seq<Move>, k: nat)
    requires LineOk(positions, moves) && k < |positions|
    ensures Sound(positions[k])
  {
    hide TransitionOk, Sound, PositionOk;
    if k == 0 {
      FirstSound(positions[0]);
    } else {
      LineSound(positions, moves, k - 1);
      SoundStays(positions[k - 1], moves[k - 1], positions[k]);
    }
  }

  lemma RightsShrink(before: Position, move: Move, after: Position, side: nat, wing: nat)
    requires TransitionOk(before, move, after) && (side == WHITE || side == BLACK) && wing < 2
    ensures Has(after.rights, RightBit(side, wing)) ==> Has(before.rights, RightBit(side, wing))
  {
    hide Has, RightsAfter, Placed, TargetOk;
    RightsBits(before, move, side, wing);
  }

  /** A castling right, once gone, never comes back. */
  lemma {:induction false} LineRightsShrink(positions: seq<Position>, moves: seq<Move>, i: nat, j: nat, side: nat, wing: nat)
    requires LineOk(positions, moves) && i <= j < |positions| && (side == WHITE || side == BLACK) && wing < 2
    ensures Has(positions[j].rights, RightBit(side, wing)) ==> Has(positions[i].rights, RightBit(side, wing))
  {
    hide TransitionOk, Sound, PositionOk, Has;
    if i < j {
      LineRightsShrink(positions, moves, i, j - 1, side, wing);
      RightsShrink(positions[j - 1], moves[j - 1], positions[j], side, wing);
    }
  }

  /** How many pieces of a side the first k moves took. */
  ghost function TakenFrom(positions: seq<Position>, moves: seq<Move>, side: nat, k: nat): nat
    requires |positions| == |moves| + 1 && k <= |moves|
  {
    if k == 0 then 0
    else
      TakenFrom(positions, moves, side, k - 1) +
      One(positions[k - 1].side != side && moves[k - 1].to < 64 && Captures(positions[k - 1], moves[k - 1]))
  }

  lemma SidesOf(before: Position, move: Move, after: Position)
    requires TransitionOk(before, move, after) && Sound(before)
    ensures move.to < 64 && before.side + after.side == 3 && (before.side == WHITE || before.side == BLACK)
  {
    hide Tally, AllHomes, Placed, RightsAfter, TargetOk;
  }

  /** Pieces leave the board by captures alone. */
  lemma {:induction false} LinePieces(positions: seq<Position>, moves: seq<Move>, side: nat, k: nat)
    requires LineOk(positions, moves) && k < |positions| && (side == WHITE || side == BLACK)
    ensures Tally(positions[k].pieces, Of(side)) + TakenFrom(positions, moves, side, k) == Tally(positions[0].pieces, Of(side))
  {
    hide TransitionOk, Sound, PositionOk, Tally, Captures;
    if k > 0 {
      LinePieces(positions, moves, side, k - 1);
      LineSound(positions, moves, k - 1);
      SidesOf(positions[k - 1], moves[k - 1], positions[k]);
      PiecesChange(positions[k - 1], moves[k - 1], positions[k]);
    }
  }

  lemma SameStep(before: Position, other: Position, move: Move, after: Position, otherAfter: Position)
    requires TransitionOk(before, move, after) && TransitionOk(other, move, otherAfter)
    requires before.pieces == other.pieces && before.side == other.side && before.rights == other.rights
    ensures after.pieces == otherAfter.pieces && after.side == otherAfter.side && after.rights == otherAfter.rights
  {
    hide Has, MoveOk, TargetOk, Forfeits, Kind, Side;
    ShapeOf(before, move);
    assert RightsAfter(before, move) == RightsAfter(other, move) by {
      SameRights(before, other, move);
    }
    forall square | 0 <= square < 64
      ensures after.pieces[square] == otherAfter.pieces[square]
    {
      assert after.pieces[square] == Placed(before, move, square) == Placed(other, move, square) == otherAfter.pieces[square];
    }
  }

  lemma SameRights(before: Position, other: Position, move: Move)
    requires move.from < 64 && move.to < 64
    requires before.pieces == other.pieces && before.side == other.side && before.rights == other.rights
    ensures RightsAfter(before, move) == RightsAfter(other, move)
  {
    hide Has, Kind, Side;
  }

  /** The first position and the moves decide every later board, side and right. */
  lemma {:induction false} LineDetermined(positions: seq<Position>, others: seq<Position>, moves: seq<Move>, k: nat)
    requires LineOk(positions, moves) && LineOk(others, moves) && positions[0] == others[0] && k < |positions|
    ensures positions[k].pieces == others[k].pieces && positions[k].side == others[k].side && positions[k].rights == others[k].rights
  {
    hide TransitionOk, PositionOk;
    if k > 0 {
      LineDetermined(positions, others, moves, k - 1);
      SameStep(positions[k - 1], others[k - 1], moves[k - 1], positions[k], others[k]);
    }
  }
}
