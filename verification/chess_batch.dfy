/** The check of a batch of chess lines before it is projected. */
module ChessBatch {
  import opened ChessRules

  const LINE_VERSION: nat := 1

  datatype Range = Range(firstPosition: nat, firstMove: nat, moveCount: nat)

  datatype Batch = Batch(version: nat, reserved: nat, positions: seq<Position>, moves: seq<Move>, lines: seq<Range>,
                         maximumPositions: nat, maximumMoves: nat, maximumLines: nat, maximumRequests: nat, maximumOperands: nat)

  datatype Status = Ok | InvalidVersion | InvalidArgument | Limit | PositionInvalid | TransitionInvalid

  ghost predicate SizesOk(b: Batch) {
    && b.version == LINE_VERSION && b.reserved == 0 && b.positions != [] && b.lines != []
    && |b.positions| <= b.maximumPositions && |b.moves| <= b.maximumMoves && |b.lines| <= b.maximumLines
    && b.maximumRequests > 0 && b.maximumOperands >= 2
  }

  /** Where line i has to start. */
  ghost function PositionStart(lines: seq<Range>, i: nat): nat
    requires i <= |lines|
  {
    if i == 0 then 0 else PositionStart(lines, i - 1) + lines[i - 1].moveCount + 1
  }

  ghost function MoveStart(lines: seq<Range>, i: nat): nat
    requires i <= |lines|
  {
    if i == 0 then 0 else MoveStart(lines, i - 1) + lines[i - 1].moveCount
  }

  ghost predicate RangeOk(b: Batch, i: nat)
    requires i < |b.lines|
  {
    && b.lines[i].firstPosition == PositionStart(b.lines, i) && b.lines[i].firstMove == MoveStart(b.lines, i)
    && 2 + 2 * b.lines[i].moveCount <= b.maximumOperands
  }

  /** The ranges partition both arrays, in order. */
  ghost predicate Partitioned(b: Batch) {
    && (forall i | 0 <= i < |b.lines| :: RangeOk(b, i))
    && PositionStart(b.lines, |b.lines|) == |b.positions| && MoveStart(b.lines, |b.lines|) == |b.moves|
  }

  lemma {:induction false} StartsGrow(lines: seq<Range>, i: nat, j: nat)
    requires i <= j <= |lines|
    ensures PositionStart(lines, i) + (j - i) <= PositionStart(lines, j) && MoveStart(lines, i) <= MoveStart(lines, j)
  {
    if i < j {
      StartsGrow(lines, i, j - 1);
    }
  }

  /** Line i lies within the arrays. */
  lemma LineWithin(b: Batch, i: nat)
    requires Partitioned(b) && i < |b.lines|
    ensures var line := b.lines[i];
      line.firstPosition + line.moveCount < |b.positions| && line.firstMove + line.moveCount <= |b.moves|
  {
    assert RangeOk(b, i);
    StartsGrow(b.lines, i + 1, |b.lines|);
  }

  ghost predicate LineInside(b: Batch, i: nat)
    requires i < |b.lines|
  {
    b.lines[i].firstPosition + b.lines[i].moveCount < |b.positions| && b.lines[i].firstMove + b.lines[i].moveCount <= |b.moves|
  }

  ghost predicate StepsOk(b: Batch, i: nat)
    requires i < |b.lines| && LineInside(b, i)
  {
    forall ply | 0 <= ply < b.lines[i].moveCount :: PlyOk(b, i, ply)
  }

  ghost predicate PlyOk(b: Batch, i: nat, ply: nat)
    requires i < |b.lines| && LineInside(b, i) && ply < b.lines[i].moveCount
  {
    var line := b.lines[i];
    TransitionOk(b.positions[line.firstPosition + ply], b.moves[line.firstMove + ply], b.positions[line.firstPosition + ply + 1])
  }

  ghost predicate BatchOk(b: Batch) {
    && SizesOk(b) && Partitioned(b)
    && (forall k | 0 <= k < |b.positions| :: PositionOk(b.positions[k]))
    && forall i | 0 <= i < |b.lines| :: LineInside(b, i) && StepsOk(b, i)
  }

  ghost predicate Shapeless(b: Batch) {
    b.reserved != 0 || b.positions == [] || b.lines == []
  }

  ghost predicate Oversized(b: Batch) {
    |b.positions| > b.maximumPositions || |b.moves| > b.maximumMoves || |b.lines| > b.maximumLines
    || b.maximumRequests == 0 || b.maximumOperands < 2
  }

  /** Line i starts where the lines before it end, and stays within the arrays. */
  ghost predicate InPlace(b: Batch, i: nat)
    requires i < |b.lines|
  {
    && b.lines[i].firstPosition == PositionStart(b.lines, i) && b.lines[i].firstMove == MoveStart(b.lines, i)
    && MoveStart(b.lines, i) + b.lines[i].moveCount <= |b.moves| && PositionStart(b.lines, i) + b.lines[i].moveCount < |b.positions|
  }

  /** The first line that is out of order is in its place, but too long for a record. */
  ghost predicate TooLongLine(b: Batch) {
    exists i | 0 <= i < |b.lines| ::
      (forall j | 0 <= j < i :: InPlace(b, j) && RangeOk(b, j)) && InPlace(b, i) && !RangeOk(b, i)
  }

  /** What a batch deserves: the first reason against it, in the order of the checks. */
  ghost function Verdict(b: Batch): Status {
    if b.version != LINE_VERSION then InvalidVersion
    else if Shapeless(b) then InvalidArgument
    else if Oversized(b) || TooLongLine(b) then Limit
    else if !Partitioned(b) then InvalidArgument
    else if exists k | 0 <= k < |b.positions| :: !PositionOk(b.positions[k]) then PositionInvalid
    else if exists i | 0 <= i < |b.lines| :: LineInside(b, i) && !StepsOk(b, i) then TransitionInvalid
    else Ok
  }

  method CheckRanges(b: Batch) returns (status: Status)
    requires SizesOk(b)
    ensures status == Ok <==> Partitioned(b)
    ensures status == Limit <==> TooLongLine(b)
    ensures status == Ok || status == InvalidArgument || status == Limit
  {
    hide RangeOk, InPlace;
    var nextPosition, nextMove := 0, 0;
    for index := 0 to |b.lines|
      invariant nextPosition == PositionStart(b.lines, index) <= |b.positions| && nextMove == MoveStart(b.lines, index) <= |b.moves|
      invariant forall i | 0 <= i < index :: InPlace(b, i) && RangeOk(b, i)
    {
      var line := b.lines[index];
      InPlaceIs(b, index);
      if line.firstPosition != nextPosition || line.firstMove != nextMove || line.moveCount > |b.moves| - nextMove
         || nextPosition >= |b.positions| || line.moveCount >= |b.positions| - nextPosition {
        RangeBad(b, index);
        FirstBad(b, index);
        return InvalidArgument;
      }
      RangeIs(b, index);
      if line.moveCount > (b.maximumOperands - 2) / 2 {
        return Limit;
      }
      nextPosition := nextPosition + line.moveCount + 1;
      nextMove := nextMove + line.moveCount;
    }
    if nextPosition != |b.positions| || nextMove != |b.moves| {
      return InvalidArgument;
    }
    status := Ok;
  }

  lemma RangeIs(b: Batch, i: nat)
    requires SizesOk(b) && i < |b.lines|
    ensures RangeOk(b, i) <==>
      b.lines[i].firstPosition == PositionStart(b.lines, i) && b.lines[i].firstMove == MoveStart(b.lines, i)
      && b.lines[i].moveCount <= (b.maximumOperands - 2) / 2
  {
  }

  lemma RangeBad(b: Batch, i: nat)
    requires i < |b.lines|
    requires var line := b.lines[i];
      line.firstPosition != PositionStart(b.lines, i) || line.firstMove != MoveStart(b.lines, i)
      || MoveStart(b.lines, i) + line.moveCount > |b.moves| || PositionStart(b.lines, i) + line.moveCount >= |b.positions|
    ensures !Partitioned(b)
  {
    if Partitioned(b) {
      assert RangeOk(b, i);
      LineWithin(b, i);
    }
  }

  lemma InPlaceIs(b: Batch, i: nat)
    requires i < |b.lines|
    ensures InPlace(b, i) <==>
      b.lines[i].firstPosition == PositionStart(b.lines, i) && b.lines[i].firstMove == MoveStart(b.lines, i)
      && MoveStart(b.lines, i) + b.lines[i].moveCount <= |b.moves| && PositionStart(b.lines, i) + b.lines[i].moveCount < |b.positions|
  {
  }

  lemma FirstBad(b: Batch, i: nat)
    requires i < |b.lines| && !InPlace(b, i) && forall j | 0 <= j < i :: RangeOk(b, j)
    ensures !TooLongLine(b)
  {
  }

  method CheckSteps(b: Batch, i: nat) returns (ok: bool)
    requires i < |b.lines| && LineInside(b, i)
    ensures ok <==> StepsOk(b, i)
  {
    hide TransitionOk;
    var line := b.lines[i];
    for ply := 0 to line.moveCount
      invariant forall k | 0 <= k < ply :: PlyOk(b, i, k)
    {
      var valid := ValidTransition(b.positions[line.firstPosition + ply], b.moves[line.firstMove + ply], b.positions[line.firstPosition + ply + 1]);
      assert valid <==> PlyOk(b, i, ply);
      if !valid {
        return false;
      }
    }
    ok := true;
  }

  method Validate(b: Batch) returns (status: Status)
    ensures status == Ok <==> BatchOk(b)
    ensures status == Verdict(b)
  {
    hide PositionOk, StepsOk, Partitioned, TooLongLine;
    if b.version != LINE_VERSION {
      return InvalidVersion;
    }
    if b.reserved != 0 || b.positions == [] || b.lines == [] {
      return InvalidArgument;
    }
    if |b.positions| > b.maximumPositions || |b.moves| > b.maximumMoves || |b.lines| > b.maximumLines
       || b.maximumRequests == 0 || b.maximumOperands < 2 {
      return Limit;
    }
    status := CheckRanges(b);
    if status != Ok {
      return;
    }
    for index := 0 to |b.positions|
      invariant forall k | 0 <= k < index :: PositionOk(b.positions[k])
    {
      var valid := ValidPosition(b.positions[index]);
      if !valid {
        return PositionInvalid;
      }
    }
    for index := 0 to |b.lines|
      invariant forall i | 0 <= i < index :: LineInside(b, i) && StepsOk(b, i)
    {
      LineWithin(b, index);
      var valid := CheckSteps(b, index);
      if !valid {
        return TransitionInvalid;
      }
    }
    status := Ok;
  }

  /** Every line of an accepted batch is a line in the sense of LineOk, so all that lines
      keep holds of it. */
  lemma AcceptedLine(b: Batch, i: nat)
    requires BatchOk(b) && i < |b.lines|
    ensures LineInside(b, i)
    ensures var line := b.lines[i];
      LineOk(b.positions[line.firstPosition..line.firstPosition + line.moveCount + 1], b.moves[line.firstMove..line.firstMove + line.moveCount])
  {
    hide PositionOk, TransitionOk;
    var line := b.lines[i];
    assert LineInside(b, i) && StepsOk(b, i);
    var positions := b.positions[line.firstPosition..line.firstPosition + line.moveCount + 1];
    var moves := b.moves[line.firstMove..line.firstMove + line.moveCount];
    forall k | 0 <= k < |moves|
      ensures TransitionOk(positions[k], moves[k], positions[k + 1])
    {
      assert PlyOk(b, i, k);
      assert positions[k] == b.positions[line.firstPosition + k] && positions[k + 1] == b.positions[line.firstPosition + k + 1];
    }
  }
}
