/** Move.java: a move record whose special-move marks are filled in after construction. */
module Moves {
  import opened Wrappers
  import opened Positions
  import opened Pieces

  class Move {
    const from: Pos
    const to: Pos
    const pieceMoved: Piece
    var pieceCaptured: Piece?
    var isCastling: bool
    var isEnPassant: bool
    var promotionPiece: Piece?

    /** Move(from, to, pieceMoved): no capture, no castling, no en passant, no promotion. */
    constructor (from: Pos, to: Pos, pieceMoved: Piece)
      ensures this.from == from && this.to == to && this.pieceMoved == pieceMoved
      ensures pieceCaptured == null && !isCastling && !isEnPassant && promotionPiece == null
    {
      this.from := from;
      this.to := to;
      this.pieceMoved := pieceMoved;
      pieceCaptured := null;  // Java's default for an unset reference field
      isCastling := false;
      isEnPassant := false;
      promotionPiece := null;
    }

    /** Move(from, to, pieceMoved, pieceCaptured): the same, with the captured piece recorded. */
    constructor WithCapture(from: Pos, to: Pos, pieceMoved: Piece, pieceCaptured: Piece?)
      ensures this.from == from && this.to == to && this.pieceMoved == pieceMoved
      ensures this.pieceCaptured == pieceCaptured && !isCastling && !isEnPassant && promotionPiece == null
    {
      this.from := from;
      this.to := to;
      this.pieceMoved := pieceMoved;
      isCastling := false;
      isEnPassant := false;
      promotionPiece := null;
      this.pieceCaptured := pieceCaptured;
    }

    method SetPieceCaptured(pieceCaptured: Piece?)
      modifies this
      ensures this.pieceCaptured == pieceCaptured
      ensures isCastling == old(isCastling) && isEnPassant == old(isEnPassant) && promotionPiece == old(promotionPiece)
    {
      this.pieceCaptured := pieceCaptured;
    }

    method SetCastling(castling: bool)
      modifies this
      ensures isCastling == castling
      ensures pieceCaptured == old(pieceCaptured) && isEnPassant == old(isEnPassant) && promotionPiece == old(promotionPiece)
    {
      isCastling := castling;
    }

    method SetEnPassant(enPassant: bool)
      modifies this
      ensures isEnPassant == enPassant
      ensures pieceCaptured == old(pieceCaptured) && isCastling == old(isCastling) && promotionPiece == old(promotionPiece)
    {
      isEnPassant := enPassant;
    }

    method SetPromotionPiece(promotionPiece: Piece?)
      modifies this
      ensures this.promotionPiece == promotionPiece
      ensures pieceCaptured == old(pieceCaptured) && isCastling == old(isCastling) && isEnPassant == old(isEnPassant)
    {
      this.promotionPiece := promotionPiece;
    }
  }
}
