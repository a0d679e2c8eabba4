/** What each chess value is written as, and that nothing is lost in writing it. */
module ChessTerms {
  import opened CanonicalUtf8
  import opened Octets
  import opened CanonicalPlan
  import opened ChessRules

  /** The bytes of an ASCII word. */
  function Word(s: string): (w: seq<Byte>)
    ensures |w| == |s| && forall i | 0 <= i < |w| :: w[i] < 0x80
  {
    seq(|s|, i requires 0 <= i < |s| => if s[i] as int < 0x80 then s[i] as int else 0x3f)
  }

  ghost function Written(s: string): Term {
    Term.Text(Word(s))
  }

  ghost function FieldTerm(name: string, value: Term): Term {
    Term.Node([Written(name), value])
  }

  function SideName(side: nat): (s: string)
    ensures 0 < |s| <= 12
  {
    if side == WHITE then "white" else "black"
  }

  function KindName(kind: nat): (s: string)
    ensures 0 < |s| <= 12
  {
    if kind == 0 then "empty" else if kind == 1 then "pawn" else if kind == 2 then "knight" else if kind == 3 then "bishop"
    else if kind == 4 then "rook" else if kind == 5 then "queen" else "king"
  }

  function FormName(form: nat): (s: string)
    ensures 0 < |s| <= 12
  {
    if form == 0 then "ordinary" else if form == 1 then "castle-king" else if form == 2 then "castle-queen" else "en-passant"
  }

  function PromotionName(kind: nat): (s: string)
    ensures 0 < |s| <= 12
  {
    if kind == 0 then "none" else if kind == 1 then "invalid" else KindName(kind)
  }

  function RightName(has: bool): (s: string)
    ensures 0 < |s| <= 12
  {
    if has then "true" else "false"
  }

  ghost function PieceTerm(piece: nat): Term {
    if piece == 0 then Written("empty")
    else Term.Node([Written("Chess_Piece"), Written(SideName(Side(piece))), Written(KindName(Kind(piece)))])
  }

  ghost function NumberTerm(value: nat): Term {
    Term.Node([Written("number"), Term.Text(Decimal(value))])
  }

  ghost function SquareTerm(square: nat): Term {
    if square == NO_SQUARE then Written("none")
    else Term.Node([Written("Chess_Square"), FieldTerm("file", NumberTerm(square % 8)), FieldTerm("rank", NumberTerm(square / 8))])
  }

  /** What identifies a position. */
  datatype Key = Key(pieces: Board, side: nat, rights: nat, enPassant: nat)

  function KeyOf(p: Position): Key {
    Key(p.pieces, p.side, p.rights, p.enPassant)
  }

  ghost function BoardParts(pieces: seq<nat>): (parts: seq<Term>)
    ensures |parts| == |pieces| + 1 && parts[0] == Written("board") && forall i | 0 <= i < |pieces| :: parts[i + 1] == PieceTerm(pieces[i])
  {
    [Written("board")] + seq(|pieces|, i requires 0 <= i < |pieces| => PieceTerm(pieces[i]))
  }

  ghost function RightsParts(rights: nat): (parts: seq<Term>)
    ensures |parts| == 5
  {
    [Written("castling-rights"), Written(RightName(Has(rights, 1))), Written(RightName(Has(rights, 2))),
     Written(RightName(Has(rights, 4))), Written(RightName(Has(rights, 8)))]
  }

  ghost function RightsTerm(rights: nat): Term {
    Term.Node(RightsParts(rights))
  }

  ghost function PositionParts(k: Key): (parts: seq<Term>)
    ensures |parts| == 5 && parts[0] == Written("Chess_Position")
  {
    [Written("Chess_Position"), Term.Node(BoardParts(k.pieces)), FieldTerm("side-to-move", Written(SideName(k.side))),
     RightsTerm(k.rights), FieldTerm("legal-en-passant", SquareTerm(k.enPassant))]
  }

  ghost function PositionTerm(k: Key): Term {
    Term.Node(PositionParts(k))
  }

  /** A move and the piece that makes it. */
  datatype Action = Action(move: Move, moving: nat)

  ghost function MoveParts(a: Action): (parts: seq<Term>)
    ensures |parts| == 6 && parts[0] == Written("Chess_Move")
  {
    [Written("Chess_Move"), FieldTerm("piece", PieceTerm(a.moving)), FieldTerm("from", SquareTerm(a.move.from)),
     FieldTerm("to", SquareTerm(a.move.to)), FieldTerm("promotion", Written(PromotionName(a.move.promotion))),
     FieldTerm("form", Written(FormName(a.move.form)))]
  }

  ghost function MoveTerm(a: Action): Term {
    Term.Node(MoveParts(a))
  }

  ghost predicate KeyOk(k: Key) {
    && (k.side == WHITE || k.side == BLACK) && k.rights <= 15 && k.enPassant <= NO_SQUARE
    && forall square | 0 <= square < 64 :: PieceCode(k.pieces[square])
  }

  ghost predicate ActionOk(a: Action) {
    MoveShape(a.move) && PieceCode(a.moving) && a.moving <= 14
  }

  /** A line: P0, M0, P1, ..., Pn. */
  ghost function LineParts(keys: seq<Key>, actions: seq<Action>): (parts: seq<Term>)
    requires |keys| == |actions| + 1
    ensures |parts| == 2 * |actions| + 2
    decreases |actions|
  {
    if actions == [] then [Written("Chess_Line"), PositionTerm(keys[0])]
    else
      var n := |actions| - 1;
      LineParts(keys[..n + 1], actions[..n]) + [MoveTerm(actions[n]), PositionTerm(keys[n + 1])]
  }

  // ----- injectivity -----

  lemma WordInjective(a: string, b: string)
    requires Written(a) == Written(b)
    ensures |a| == |b| && forall i | 0 <= i < |a| :: Word(a)[i] == Word(b)[i]
  {
  }

  lemma NodeSame(a: seq<Term>, b: seq<Term>, i: nat)
    requires Term.Node(a) == Term.Node(b) && i < |a|
    ensures |a| == |b| && a[i] == b[i]
  {
  }

  lemma FieldSame(name: string, a: Term, b: Term)
    requires FieldTerm(name, a) == FieldTerm(name, b)
    ensures a == b
  {
    NodeSame([Written(name), a], [Written(name), b], 1);
  }

  lemma SideNameInjective(a: nat, b: nat)
    requires 1 <= a <= 2 && 1 <= b <= 2 && Written(SideName(a)) == Written(SideName(b))
    ensures a == b
  {
    WordInjective(SideName(a), SideName(b));
    assert Word("white")[0] == 'w' as int && Word("black")[0] == 'b' as int;
  }

  lemma KindNameInjective(a: nat, b: nat)
    requires a <= 6 && b <= 6 && Written(KindName(a)) == Written(KindName(b))
    ensures a == b
  {
    WordInjective(KindName(a), KindName(b));
    assert Word("pawn")[0] == 'p' as int && Word("rook")[0] == 'r' as int && Word("king")[0] == 'k' as int;
    assert Word("knight")[0] == 'k' as int && Word("bishop")[0] == 'b' as int;
    assert Word("empty")[0] == 'e' as int && Word("queen")[0] == 'q' as int;
  }

  lemma FormNameInjective(a: nat, b: nat)
    requires a <= 3 && b <= 3 && Written(FormName(a)) == Written(FormName(b))
    ensures a == b
  {
    WordInjective(FormName(a), FormName(b));
  }

  lemma PromotionNameInjective(a: nat, b: nat)
    requires a <= 5 && b <= 5 && a != 1 && b != 1 && Written(PromotionName(a)) == Written(PromotionName(b))
    ensures a == b
  {
    WordInjective(PromotionName(a), PromotionName(b));
    assert Word("none")[0] == 'n' as int && Word("rook")[0] == 'r' as int;
    assert Word("knight")[0] == 'k' as int && Word("bishop")[0] == 'b' as int;
  }

  lemma RightNameInjective(a: bool, b: bool)
    requires Written(RightName(a)) == Written(RightName(b))
    ensures a == b
  {
    WordInjective(RightName(a), RightName(b));
  }

  lemma PieceTermInjective(a: nat, b: nat)
    requires PieceCode(a) && PieceCode(b) && PieceTerm(a) == PieceTerm(b)
    ensures a == b
  {
    hide Written, SideName, KindName;
    if a != 0 && b != 0 {
      var x := [Written("Chess_Piece"), Written(SideName(Side(a))), Written(KindName(Kind(a)))];
      var y := [Written("Chess_Piece"), Written(SideName(Side(b))), Written(KindName(Kind(b)))];
      NodeSame(x, y, 1);
      NodeSame(x, y, 2);
      SideNameInjective(Side(a), Side(b));
      KindNameInjective(Kind(a), Kind(b));
    } else {
      TextIsNotNode("empty");
    }
  }

  lemma TextIsNotNode(s: string)
    ensures Written(s).Text?
  {
  }

  lemma NumberTermInjective(a: nat, b: nat)
    requires NumberTerm(a) == NumberTerm(b)
    ensures a == b
  {
    hide Written, Decimal;
    NodeSame([Written("number"), Term.Text(Decimal(a))], [Written("number"), Term.Text(Decimal(b))], 1);
    DecimalInjective(a, b);
  }

  lemma SquareTermInjective(a: nat, b: nat)
    requires a <= NO_SQUARE && b <= NO_SQUARE && SquareTerm(a) == SquareTerm(b)
    ensures a == b
  {
    hide Written, NumberTerm, FieldTerm;
    if a != NO_SQUARE && b != NO_SQUARE {
      var x := [Written("Chess_Square"), FieldTerm("file", NumberTerm(a % 8)), FieldTerm("rank", NumberTerm(a / 8))];
      var y := [Written("Chess_Square"), FieldTerm("file", NumberTerm(b % 8)), FieldTerm("rank", NumberTerm(b / 8))];
      NodeSame(x, y, 1);
      NodeSame(x, y, 2);
      FieldSame("file", NumberTerm(a % 8), NumberTerm(b % 8));
      FieldSame("rank", NumberTerm(a / 8), NumberTerm(b / 8));
      NumberTermInjective(a % 8, b % 8);
      NumberTermInjective(a / 8, b / 8);
      assert a == 8 * (a / 8) + a % 8 && b == 8 * (b / 8) + b % 8;
    } else {
      TextIsNotNode("none");
    }
  }

  lemma BoardInjective(a: Board, b: Board)
    requires Term.Node(BoardParts(a)) == Term.Node(BoardParts(b))
    requires forall square | 0 <= square < 64 :: PieceCode(a[square]) && PieceCode(b[square])
    ensures a == b
  {
    hide PieceTerm, PieceCode;
    forall square | 0 <= square < 64
      ensures a[square] == b[square]
    {
      assert BoardParts(a)[square + 1] == PieceTerm(a[square]) && BoardParts(b)[square + 1] == PieceTerm(b[square]);
      PieceTermInjective(a[square], b[square]);
    }
  }

  lemma RightsInjective(a: nat, b: nat)
    requires a <= 15 && b <= 15 && RightsTerm(a) == RightsTerm(b)
    ensures a == b
  {
    hide Written, Has;
    var x, y := RightsParts(a), RightsParts(b);
    NodeSame(x, y, 1);
    NodeSame(x, y, 2);
    NodeSame(x, y, 3);
    NodeSame(x, y, 4);
    RightNameInjective(Has(a, 1), Has(b, 1));
    RightNameInjective(Has(a, 2), Has(b, 2));
    RightNameInjective(Has(a, 4), Has(b, 4));
    RightNameInjective(Has(a, 8), Has(b, 8));
    SameBits(a, b);
  }

  /** A position can be read back from what it is written as. */
  lemma PositionTermInjective(a: Key, b: Key)
    requires KeyOk(a) && KeyOk(b) && PositionTerm(a) == PositionTerm(b)
    ensures a == b
  {
    hide Written, FieldTerm, RightsTerm, SquareTerm, BoardParts, SideName, PieceCode;
    var x, y := PositionParts(a), PositionParts(b);
    NodeSame(x, y, 1);
    NodeSame(x, y, 2);
    NodeSame(x, y, 3);
    NodeSame(x, y, 4);
    FieldSame("side-to-move", Written(SideName(a.side)), Written(SideName(b.side)));
    FieldSame("legal-en-passant", SquareTerm(a.enPassant), SquareTerm(b.enPassant));
    BoardInjective(a.pieces, b.pieces);
    SideNameInjective(a.side, b.side);
    RightsInjective(a.rights, b.rights);
    SquareTermInjective(a.enPassant, b.enPassant);
  }

  /** So can a move with its piece. */
  lemma MoveTermInjective(a: Action, b: Action)
    requires ActionOk(a) && ActionOk(b) && MoveTerm(a) == MoveTerm(b)
    ensures a == b
  {
    hide Written, FieldTerm, PieceTerm, SquareTerm, PromotionName, FormName, PieceCode;
    var x, y := MoveParts(a), MoveParts(b);
    NodeSame(x, y, 1);
    NodeSame(x, y, 2);
    NodeSame(x, y, 3);
    NodeSame(x, y, 4);
    NodeSame(x, y, 5);
    FieldSame("piece", PieceTerm(a.moving), PieceTerm(b.moving));
    FieldSame("from", SquareTerm(a.move.from), SquareTerm(b.move.from));
    FieldSame("to", SquareTerm(a.move.to), SquareTerm(b.move.to));
    FieldSame("promotion", Written(PromotionName(a.move.promotion)), Written(PromotionName(b.move.promotion)));
    FieldSame("form", Written(FormName(a.move.form)), Written(FormName(b.move.form)));
    PieceTermInjective(a.moving, b.moving);
    SquareTermInjective(a.move.from, b.move.from);
    SquareTermInjective(a.move.to, b.move.to);
    PromotionNameInjective(a.move.promotion, b.move.promotion);
    FormNameInjective(a.move.form, b.move.form);
  }

  /** Distinct histories stay distinct, even when they end alike. */
  lemma {:induction false} LinePartsInjective(keys: seq<Key>, actions: seq<Action>, otherKeys: seq<Key>, otherActions: seq<Action>)
    requires |keys| == |actions| + 1 && |otherKeys| == |otherActions| + 1
    requires (forall k | 0 <= k < |keys| :: KeyOk(keys[k])) && (forall k | 0 <= k < |otherKeys| :: KeyOk(otherKeys[k]))
    requires (forall k | 0 <= k < |actions| :: ActionOk(actions[k])) && (forall k | 0 <= k < |otherActions| :: ActionOk(otherActions[k]))
    requires LineParts(keys, actions) == LineParts(otherKeys, otherActions)
    ensures keys == otherKeys && actions == otherActions
    decreases |actions|
  {
    hide PositionTerm, MoveTerm, KeyOk, ActionOk;
    assert |actions| == |otherActions|;
    var parts, others := LineParts(keys, actions), LineParts(otherKeys, otherActions);
    var last := |parts| - 1;
    if actions == [] {
      assert parts[1] == others[1];
      PositionTermInjective(keys[0], otherKeys[0]);
      assert keys == [keys[0]] && otherKeys == [otherKeys[0]];
    } else {
      var n := |actions| - 1;
      assert parts[last] == others[last] && parts[last - 1] == others[last - 1];
      PositionTermInjective(keys[n + 1], otherKeys[n + 1]);
      MoveTermInjective(actions[n], otherActions[n]);
      assert parts[..last - 1] == LineParts(keys[..n + 1], actions[..n]) && others[..last - 1] == LineParts(otherKeys[..n + 1], otherActions[..n]);
      LinePartsInjective(keys[..n + 1], actions[..n], otherKeys[..n + 1], otherActions[..n]);
      assert keys == keys[..n + 1] + [keys[n + 1]] && actions == actions[..n] + [actions[n]];
      assert otherKeys == otherKeys[..n + 1] + [otherKeys[n + 1]] && otherActions == otherActions[..n] + [otherActions[n]];
    }
  }
}
