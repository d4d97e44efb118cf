/** Rook.java: the four orthogonal rays. */
module Rooks {
  import opened Wrappers
  import opened Positions
  import opened Pieces
  import opened Boards
  import opened Sliding

  const RookDirs: seq<Dir> := [(0, 1), (0, -1), (1, 0), (-1, 0)]

  /** getPossibleMoves, as a value. */
  function RookMoves(s: Snapshot, white: bool, from: Pos): seq<Pos> {
    SlideMoves(s, white, from, RookDirs)
  }

  /** isValidMove: on the board, rowDiff == 0 or colDiff == 0, and isPathClear. */
  predicate RookValid(s: Snapshot, white: bool, from: Pos, to: Pos) {
    if !IsValidPosition(Some(to)) then false
    else if Abs(to.row - from.row) != 0 && Abs(to.col - from.col) != 0 then false
    else PathClear(s, white, from, to)
  }

  /** getPossibleMoves. */
  method PossibleMoves(piece: Piece, board: Board) returns (moves: seq<Pos>)
    requires board.Valid()
    ensures moves == RookMoves(board.Snap(), piece.isWhite, piece.position)
  {
    moves := WalkRays(piece, board, RookDirs);
  }

  /** isValidMove. */
  method IsValidMove(piece: Piece, board: Board, to: Pos) returns (valid: bool)
    requires board.Valid()
    ensures valid == RookValid(board.Snap(), piece.isWhite, piece.position, to)
  {
    if !IsValidPosition(Some(to)) {
      return false;
    }
    var rowDiff := Abs(to.row - piece.position.row);
    var colDiff := Abs(to.col - piece.position.col);
    if rowDiff != 0 && colDiff != 0 {
      return false;
    }
    valid := IsPathClear(piece, board, piece.position, to);
  }

  /** The orthogonal directions are exactly the steps toward squares on the same row or column. */
  lemma OrthogonalStep(from: Pos, t: Pos)
    requires t != from
    ensures StepToward(from, t) in RookDirs <==> t.row == from.row || t.col == from.col
  {
  }

  /**
   * With the rook on its own square, isValidMove holds exactly for the
   * squares getPossibleMoves lists: squares sharing its row or column, other
   * than its own, whose in-between squares are empty and which are empty or
   * enemy-held.
   */
  lemma RookMovesValid(s: Snapshot, white: bool, from: Pos, t: Pos)
    requires from.IsValid() && HasAllyAt(s, white, from)
    ensures t in RookMoves(s, white, from) <==> RookValid(s, white, from, t)
    ensures t in RookMoves(s, white, from) <==>
              t.IsValid() && t != from && (t.row == from.row || t.col == from.col) && PathClear(s, white, from, t)
  {
    SlideTargets(s, white, from, RookDirs, t);
    if t == from {
      PathClearRejectsOwnSquare(s, white, from);
    } else {
      OrthogonalStep(from, t);
    }
  }

  /** isValidMove rejects the rook's own square and every square off the board. */
  lemma RookRejects(s: Snapshot, white: bool, from: Pos, to: Pos)
    requires HasAllyAt(s, white, from) && (!to.IsValid() || to == from)
    ensures !RookValid(s, white, from, to)
  {
    if to == from {
      PathClearRejectsOwnSquare(s, white, from);
    }
  }

  /** At most fourteen targets. */
  lemma RookBound(s: Snapshot, white: bool, from: Pos)
    requires from.IsValid()
    ensures |RookMoves(s, white, from)| <= 14
  {
    SlideFour(s, white, from, (0, 1), (0, -1), (1, 0), (-1, 0));
    RayBound(s, white, from, (0, 1));
    RayBound(s, white, from, (0, -1));
    RayBound(s, white, from, (1, 0));
    RayBound(s, white, from, (-1, 0));
  }

  /** getSymbol and getName. */
  lemma RookSymbol()
    ensures Symbol(Rook, true) == "R" && Symbol(Rook, false) == "r" && Name(Rook) == "Torre"
  {
  }
}
