/**
 * Pawn.java: one step forward, a double step from the start row, the two
 * diagonal captures, and the en-passant target the board records.
 */
module Pawns {
  import opened Wrappers
  import opened Positions
  import opened Pieces
  import opened Boards
  import opened Sliding

  /** White pawns move up the rows (towards row 0), black pawns down. */
  function Forward(white: bool): int {
    if white then -1 else 1
  }

  function StartRow(white: bool): int {
    if white then 6 else 1
  }

  /** The en-passant square is listed when it is on the row ahead and an adjacent column; nothing else is looked at. */
  predicate OffersEnPassant(s: Snapshot, white: bool, from: Pos) {
    s.enPassant.Some? && s.enPassant.value.row == from.row + Forward(white) &&
    Abs(s.enPassant.value.col - from.col) == 1
  }

  /** The forward part: one step onto an empty square, then from the start row a second onto an empty square. */
  function ForwardMoves(s: Snapshot, white: bool, from: Pos): seq<Pos> {
    var dir := Forward(white);
    var oneForward := Pos(from.row + dir, from.col);
    var twoForward := Pos(from.row + 2 * dir, from.col);
    if IsValidPosition(Some(oneForward)) && IsEmpty(s, oneForward) then
      [oneForward] +
      (if from.row == StartRow(white) && IsValidPosition(Some(twoForward)) && IsEmpty(s, twoForward) then [twoForward] else [])
    else []
  }

  /** The diagonal one row ahead on side `side` (-1 left, +1 right), when an enemy holds it. */
  function CaptureMove(s: Snapshot, white: bool, from: Pos, side: int): seq<Pos> {
    var diagonal := Pos(from.row + Forward(white), from.col + side);
    if IsValidPosition(Some(diagonal)) && HasEnemyAt(s, white, diagonal) then [diagonal] else []
  }

  function EnPassantMove(s: Snapshot, white: bool, from: Pos): seq<Pos> {
    if OffersEnPassant(s, white, from) then [s.enPassant.value] else []
  }

  /** getPossibleMoves, as a value: forward moves, left capture, right capture, en passant. */
  function PawnMoves(s: Snapshot, white: bool, from: Pos): seq<Pos> {
    ForwardMoves(s, white, from) + CaptureMove(s, white, from, -1) + CaptureMove(s, white, from, 1) +
    EnPassantMove(s, white, from)
  }

  /**
   * isValidMove, branch for branch.  The en-passant branch comes after the
   * diagonal-capture branch that has already answered for the same squares.
   */
  predicate PawnValid(s: Snapshot, white: bool, from: Pos, to: Pos) {
    if !IsValidPosition(Some(to)) then false
    else
      var dir := Forward(white);
      var rowDiff := to.row - from.row;
      var colDiff := Abs(to.col - from.col);
      if colDiff == 0 && rowDiff == dir && IsEmpty(s, to) then true
      else if colDiff == 0 && rowDiff == 2 * dir && from.row == StartRow(white) && IsEmpty(s, to) then
        IsEmpty(s, Pos(from.row + dir, from.col))
      else if colDiff != 0 && colDiff == 1 && rowDiff == dir then HasEnemyAt(s, white, to)
      else if s.enPassant == Some(to) && colDiff == 1 && rowDiff == dir then IsEmpty(s, to)
      else false
  }

  /** getPossibleMoves. */
  method PossibleMoves(piece: Piece, board: Board) returns (moves: seq<Pos>)
    requires board.Valid()
    ensures moves == PawnMoves(board.Snap(), piece.isWhite, piece.position)
  {
    var direction := if piece.isWhite then -1 else 1;
    moves := AddForward(piece, board, direction);
    var left := AddCapture(piece, board, direction, -1);
    var right := AddCapture(piece, board, direction, 1);
    moves := moves + left + right;
    var enPassant := board.enPassantTarget;
    if enPassant.Some? && enPassant.value.row == piece.position.row + direction {
      if Abs(enPassant.value.col - piece.position.col) == 1 {
        moves := moves + [Pos(enPassant.value.row, enPassant.value.col)];
      }
    }
  }

  /** The forward part of getPossibleMoves. */
  method AddForward(piece: Piece, board: Board, direction: int) returns (moves: seq<Pos>)
    requires board.Valid() && direction == Forward(piece.isWhite)
    ensures moves == ForwardMoves(board.Snap(), piece.isWhite, piece.position)
  {
    moves := [];
    var position := piece.position;
    var startRow := if piece.isWhite then 6 else 1;
    var oneForward := Pos(position.row + direction, position.col);
    var empty := IsValidPosition(Some(oneForward)) && board.IsEmpty(oneForward);
    if empty {
      moves := moves + [oneForward];
      if position.row == startRow {
        var twoForward := Pos(position.row + 2 * direction, position.col);
        var emptyTwo := IsValidPosition(Some(twoForward)) && board.IsEmpty(twoForward);
        if emptyTwo {
          moves := moves + [twoForward];
        }
      }
    }
  }

  /** One diagonal capture of getPossibleMoves. */
  method AddCapture(piece: Piece, board: Board, direction: int, side: int) returns (moves: seq<Pos>)
    requires board.Valid() && direction == Forward(piece.isWhite)
    ensures moves == CaptureMove(board.Snap(), piece.isWhite, piece.position, side)
  {
    var diagonal := Pos(piece.position.row + direction, piece.position.col + side);
    var enemy := IsValidPosition(Some(diagonal)) && HasEnemyPieceAt(piece, board, diagonal);
    moves := if enemy then [diagonal] else [];
  }

  /** isValidMove. */
  method IsValidMove(piece: Piece, board: Board, to: Pos) returns (valid: bool)
    requires board.Valid()
    ensures valid == PawnValid(board.Snap(), piece.isWhite, piece.position, to)
  {
    if !IsValidPosition(Some(to)) {
      return false;
    }
    var position := piece.position;
    var direction := if piece.isWhite then -1 else 1;
    var startRow := if piece.isWhite then 6 else 1;
    var rowDiff := to.row - position.row;
    var colDiff := Abs(to.col - position.col);
    var emptyTo := board.IsEmpty(to);
    if colDiff == 0 {
      if rowDiff == direction && emptyTo {
        return true;
      }
      if rowDiff == 2 * direction && position.row == startRow && emptyTo {
        var intermediate := Pos(position.row + direction, position.col);
        valid := board.IsEmpty(intermediate);
        return;
      }
    } else if colDiff == 1 && rowDiff == direction {
      valid := HasEnemyPieceAt(piece, board, to);
      return;
    }
    var ep := board.enPassantTarget;
    if ep.Some? && ep.value == to && colDiff == 1 && rowDiff == direction {
      valid := emptyTo;
      return;
    }
    return false;
  }

  /** A forward square is on the pawn's column, empty, and one row ahead or, from the start row over an empty square, two. */
  lemma ForwardMovesSpec(s: Snapshot, white: bool, from: Pos, t: Pos)
    ensures |ForwardMoves(s, white, from)| <= 2
    ensures t in ForwardMoves(s, white, from) <==>
              t.IsValid() && t.col == from.col && IsEmpty(s, t) &&
              (t.row == from.row + Forward(white) ||
               (t.row == from.row + 2 * Forward(white) && from.row == StartRow(white) &&
                IsEmpty(s, Pos(from.row + Forward(white), from.col))))
  {
  }

  /** A capture square is the enemy-held diagonal one row ahead on that side. */
  lemma CaptureMoveSpec(s: Snapshot, white: bool, from: Pos, side: int, t: Pos)
    ensures |CaptureMove(s, white, from, side)| <= 1
    ensures t in CaptureMove(s, white, from, side) <==>
              t == Pos(from.row + Forward(white), from.col + side) && t.IsValid() && HasEnemyAt(s, white, t)
  {
  }

  /**
   * What each listed square is: a square on the pawn's column is a forward
   * move; any other is an enemy-held diagonal one row ahead or the
   * en-passant target, which is listed whenever it lies on the row ahead
   * and an adjacent column.
   */
  lemma PawnMovesSpec(s: Snapshot, white: bool, from: Pos, t: Pos)
    ensures |PawnMoves(s, white, from)| <= 5
    ensures t in PawnMoves(s, white, from) && t.col == from.col ==> t in ForwardMoves(s, white, from)
    ensures t in PawnMoves(s, white, from) && t.col != from.col && s.enPassant != Some(t) ==>
              t.IsValid() && t.row == from.row + Forward(white) && Abs(t.col - from.col) == 1 && HasEnemyAt(s, white, t)
    ensures OffersEnPassant(s, white, from) ==> s.enPassant.value in PawnMoves(s, white, from)
  {
    ForwardMovesSpec(s, white, from, t);
    CaptureMoveSpec(s, white, from, -1, t);
    CaptureMoveSpec(s, white, from, 1, t);
  }

  /** Away from the en-passant square, isValidMove holds exactly for the squares getPossibleMoves lists. */
  lemma PawnMovesValid(s: Snapshot, white: bool, from: Pos, t: Pos)
    requires s.enPassant != Some(t)
    ensures t in PawnMoves(s, white, from) <==> PawnValid(s, white, from, t)
  {
    ForwardMovesSpec(s, white, from, t);
    CaptureMoveSpec(s, white, from, -1, t);
    CaptureMoveSpec(s, white, from, 1, t);
  }

  /**
   * isValidMove rejects every empty diagonal square, the en-passant target
   * among them, and the pawn's own square; yet getPossibleMoves lists an
   * en-passant target on the row ahead and an adjacent column.
   */
  lemma PawnRejectsEnPassant(s: Snapshot, white: bool, from: Pos, to: Pos)
    ensures !PawnValid(s, white, from, from)
    ensures to.row == from.row + Forward(white) && Abs(to.col - from.col) == 1 && IsEmpty(s, to) ==>
              !PawnValid(s, white, from, to)
    ensures s.enPassant == Some(to) && OffersEnPassant(s, white, from) ==>
              to in PawnMoves(s, white, from)
  {
  }

  /** getSymbol and getName. */
  lemma PawnSymbol()
    ensures Symbol(Pawn, true) == "P" && Symbol(Pawn, false) == "p" && Name(Pawn) == "Pe\U{E3}o"
  {
  }
}
