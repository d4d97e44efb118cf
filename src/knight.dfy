/** Knight.java: eight L-shaped jumps; only an ally on the target blocks. */
module Knights {
  import opened Wrappers
  import opened Positions
  import opened Pieces
  import opened Boards
  import opened Steps

  const KnightOffsets: seq<Offset> := [(-2, -1), (-2, 1), (-1, -2), (-1, 2), (1, -2), (1, 2), (2, -1), (2, 1)]

  function Abs(x: int): nat {
    if x < 0 then -x else x
  }

  /** (rowDiff == 2 && colDiff == 1) || (rowDiff == 1 && colDiff == 2). */
  predicate IsKnightJump(from: Pos, to: Pos) {
    var rowDiff := Abs(to.row - from.row);
    var colDiff := Abs(to.col - from.col);
    (rowDiff == 2 && colDiff == 1) || (rowDiff == 1 && colDiff == 2)
  }

  /** getPossibleMoves, as a value. */
  function KnightMoves(s: Snapshot, white: bool, from: Pos): seq<Pos> {
    OffsetTargets(s, white, from, KnightOffsets)
  }

  /** isValidMove. */
  predicate KnightValid(s: Snapshot, white: bool, from: Pos, to: Pos) {
    if !IsValidPosition(Some(to)) then false
    else if !IsKnightJump(from, to) then false
    else !HasAllyAt(s, white, to)
  }

  /** getPossibleMoves. */
  method PossibleMoves(piece: Piece, board: Board) returns (moves: seq<Pos>)
    requires board.Valid()
    ensures moves == KnightMoves(board.Snap(), piece.isWhite, piece.position)
  {
    moves := CollectSteps(piece, board, KnightOffsets);
  }

  /** isValidMove. */
  method IsValidMove(piece: Piece, board: Board, to: Pos) returns (valid: bool)
    requires board.Valid()
    ensures valid == KnightValid(board.Snap(), piece.isWhite, piece.position, to)
  {
    if !IsValidPosition(Some(to)) {
      return false;
    }
    var rowDiff := Abs(to.row - piece.position.row);
    var colDiff := Abs(to.col - piece.position.col);
    var isValidKnightMove := (rowDiff == 2 && colDiff == 1) || (rowDiff == 1 && colDiff == 2);
    if !isValidKnightMove {
      return false;
    }
    var ally := HasAllyPieceAt(piece, board, to);
    return !ally;
  }

  /** The offsets are exactly the knight jumps. */
  lemma JumpOffsets(from: Pos, t: Pos)
    ensures IsKnightJump(from, t) <==> exists i | 0 <= i < |KnightOffsets| :: t == Shift(from, KnightOffsets[i])
  {
    if IsKnightJump(from, t) {
      var dr, dc := t.row - from.row, t.col - from.col;
      var i := if dr == -2 then (if dc == -1 then 0 else 1)
               else if dr == -1 then (if dc == -2 then 2 else 3)
               else if dr == 1 then (if dc == -2 then 4 else 5)
               else (if dc == -1 then 6 else 7);
      assert t == Shift(from, KnightOffsets[i]);
    }
  }

  /** At most eight targets, each on the board, a knight jump away, and not ally-held; isValidMove agrees with the list. */
  lemma KnightMovesSpec(s: Snapshot, white: bool, from: Pos)
    ensures |KnightMoves(s, white, from)| <= 8
    ensures forall t :: t in KnightMoves(s, white, from) <==> KnightValid(s, white, from, t)
    ensures forall t :: t in KnightMoves(s, white, from) ==>
              t.IsValid() && IsKnightJump(from, t) && !HasAllyAt(s, white, t)
  {
    OffsetTargetsSpec(s, white, from, KnightOffsets);
    forall t ensures t in KnightMoves(s, white, from) <==> KnightValid(s, white, from, t) {
      JumpOffsets(from, t);
    }
  }

  /** isValidMove rejects off-board targets and the knight's own square. */
  lemma KnightRejects(s: Snapshot, white: bool, from: Pos, to: Pos)
    requires !to.IsValid() || to == from
    ensures !KnightValid(s, white, from, to)
  {
  }

  /** getSymbol. */
  lemma KnightSymbol()
    ensures Symbol(Knight, true) == "N" && Symbol(Knight, false) == "n"
  {
  }
}
