/** Bishop.java: the four diagonal rays. */
module Bishops {
  import opened Wrappers
  import opened Positions
  import opened Pieces
  import opened Boards
  import opened Sliding

  const BishopDirs: seq<Dir> := [(1, 1), (1, -1), (-1, 1), (-1, -1)]

  /** getPossibleMoves, as a value. */
  function BishopMoves(s: Snapshot, white: bool, from: Pos): seq<Pos> {
    SlideMoves(s, white, from, BishopDirs)
  }

  /** isValidMove: on the board, rowDiff == colDiff, and isPathClear. */
  predicate BishopValid(s: Snapshot, white: bool, from: Pos, to: Pos) {
    if !IsValidPosition(Some(to)) then false
    else if Abs(to.row - from.row) != Abs(to.col - from.col) then false
    else PathClear(s, white, from, to)
  }

  /** getPossibleMoves. */
  method PossibleMoves(piece: Piece, board: Board) returns (moves: seq<Pos>)
    requires board.Valid()
    ensures moves == BishopMoves(board.Snap(), piece.isWhite, piece.position)
  {
    moves := WalkRays(piece, board, BishopDirs);
  }

  /** isValidMove. */
  method IsValidMove(piece: Piece, board: Board, to: Pos) returns (valid: bool)
    requires board.Valid()
    ensures valid == BishopValid(board.Snap(), piece.isWhite, piece.position, to)
  {
    if !IsValidPosition(Some(to)) {
      return false;
    }
    var rowDiff := Abs(to.row - piece.position.row);
    var colDiff := Abs(to.col - piece.position.col);
    if rowDiff != colDiff {
      return false;
    }
    valid := IsPathClear(piece, board, piece.position, to);
  }

  /** Toward an aligned square, the step is diagonal exactly when the square is on a diagonal. */
  lemma DiagonalStep(from: Pos, t: Pos)
    requires t != from && Aligned(from, t)
    ensures StepToward(from, t) in BishopDirs <==> Abs(t.row - from.row) == Abs(t.col - from.col)
  {
  }

  /**
   * With the bishop on its own square, isValidMove holds exactly for the
   * squares getPossibleMoves lists: squares on a diagonal through it, other
   * than its own, whose in-between squares are empty and which are empty or
   * enemy-held.
   */
  lemma BishopMovesValid(s: Snapshot, white: bool, from: Pos, t: Pos)
    requires from.IsValid() && HasAllyAt(s, white, from)
    ensures t in BishopMoves(s, white, from) <==> BishopValid(s, white, from, t)
    ensures t in BishopMoves(s, white, from) <==>
              t.IsValid() && t != from && Abs(t.row - from.row) == Abs(t.col - from.col) && PathClear(s, white, from, t)
  {
    SlideTargets(s, white, from, BishopDirs, t);
    if t == from {
      PathClearRejectsOwnSquare(s, white, from);
    } else if Aligned(from, t) {
      DiagonalStep(from, t);
    }
  }

  /** isValidMove rejects the bishop's own square and every square off the board. */
  lemma BishopRejects(s: Snapshot, white: bool, from: Pos, to: Pos)
    requires HasAllyAt(s, white, from) && (!to.IsValid() || to == from)
    ensures !BishopValid(s, white, from, to)
  {
    if to == from {
      PathClearRejectsOwnSquare(s, white, from);
    }
  }

  /** At most thirteen targets. */
  lemma BishopBound(s: Snapshot, white: bool, from: Pos)
    requires from.IsValid()
    ensures |BishopMoves(s, white, from)| <= 13
  {
    SlideFour(s, white, from, (1, 1), (1, -1), (-1, 1), (-1, -1));
    RayBound(s, white, from, (1, 1));
    RayBound(s, white, from, (1, -1));
    RayBound(s, white, from, (-1, 1));
    RayBound(s, white, from, (-1, -1));
  }

  /** getSymbol and getName. */
  lemma BishopSymbol()
    ensures Symbol(Bishop, true) == "B" && Symbol(Bishop, false) == "b" && Name(Bishop) == "Bispo"
  {
  }
}
