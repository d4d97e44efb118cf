/**
 * Pieces (Piece.java and the getSymbol/getName of its six subclasses).
 *
 * A piece object carries its colour, its square and its hasMoved flag; the
 * board mutates the last two.  The rules only ever look at what a square
 * holds, so they are stated over `Snapshot`, the value a board denotes:
 * eight rows of eight cells, as in the source's Piece[8][8], plus the
 * en-passant target that the source keeps on the board.
 */
module Pieces {
  import opened Wrappers
  import opened Positions

  datatype Kind = Pawn | Knight | Bishop | Rook | Queen | King

  /** The contents of an occupied square: kind, colour and hasMoved. */
  datatype Cell = Cell(kind: Kind, white: bool, moved: bool)

  /** The value a board denotes. */
  datatype Snapshot = Snapshot(rows: seq<seq<Option<Cell>>>, enPassant: Option<Pos>)

  /**
   * Board.isSquareAttacked(square, byWhite) is called by the source but its
   * body is not part of this model; it is passed around as this oracle.
   */
  type AttackOracle = (Snapshot, Pos, bool) -> bool

  class Piece {
    const kind: Kind
    const isWhite: bool
    var position: Pos
    var hasMoved: bool

    constructor (kind: Kind, isWhite: bool, position: Pos)
      ensures this.kind == kind && this.isWhite == isWhite
      ensures this.position == position && !hasMoved
    {
      this.kind := kind;
      this.isWhite := isWhite;
      this.position := position;
      hasMoved := false;
    }

    method SetPosition(position: Pos)
      modifies this
      ensures this.position == position && hasMoved == old(hasMoved)
    {
      this.position := position;
    }

    method SetHasMoved(hasMoved: bool)
      modifies this
      ensures this.hasMoved == hasMoved && position == old(position)
    {
      this.hasMoved := hasMoved;
    }

    /** What this piece looks like from the square it stands on. */
    function AsCell(): Cell
      reads this
    {
      Cell(kind, isWhite, hasMoved)
    }
  }

  /** The cell a square holding `p` (possibly nothing) denotes. */
  function CellOf(p: Piece?): (c: Option<Cell>)
    reads p
    ensures c.Some? <==> p != null
  {
    if p == null then None else Some(p.AsCell())
  }

  /** getSymbol: one letter, upper case for white. */
  function SymbolChar(kind: Kind, white: bool): char {
    match kind
    case Pawn => if white then 'P' else 'p'
    case Knight => if white then 'N' else 'n'
    case Bishop => if white then 'B' else 'b'
    case Rook => if white then 'R' else 'r'
    case Queen => if white then 'Q' else 'q'
    case King => if white then 'K' else 'k'
  }

  function Symbol(kind: Kind, white: bool): (s: string)
    ensures |s| == 1 && s[0] == SymbolChar(kind, white)
  {
    [SymbolChar(kind, white)]
  }

  /** Each kind and colour has its own symbol, and none of them is '.'. */
  lemma SymbolInjective(k1: Kind, w1: bool, k2: Kind, w2: bool)
    ensures SymbolChar(k1, w1) == SymbolChar(k2, w2) <==> k1 == k2 && w1 == w2
    ensures SymbolChar(k1, w1) != '.'
  {
  }

  /** getName of each subclass (the source's Portuguese names). */
  function Name(kind: Kind): string {
    match kind
    case Pawn => "Pe\U{E3}o"
    case Knight => "Cavalo"
    case Bishop => "Bispo"
    case Rook => "Torre"
    case Queen => "Rainha"
    case King => "Rei"
  }

  // ---- board queries of Piece.java, on the board's value ----

  /** Board.getPieceAt: nothing off the board. */
  function At(s: Snapshot, p: Pos): (c: Option<Cell>)
    ensures !p.IsValid() ==> c == None
  {
    if p.IsValid() && |s.rows| == 8 && |s.rows[p.row]| == 8 then s.rows[p.row][p.col] else None
  }

  /** Board.isEmpty. */
  predicate IsEmpty(s: Snapshot, p: Pos) {
    At(s, p) == None
  }

  /** isValidPosition: a non-null position on the board. */
  predicate IsValidPosition(p: Option<Pos>) {
    p.Some? && p.value.IsValid()
  }

  /** hasPieceAt. */
  predicate HasPieceAt(s: Snapshot, p: Pos) {
    At(s, p).Some?
  }

  /** hasEnemyPieceAt, for a piece of colour `white`. */
  predicate HasEnemyAt(s: Snapshot, white: bool, p: Pos) {
    At(s, p).Some? && At(s, p).value.white != white
  }

  /** hasAllyPieceAt, for a piece of colour `white`. */
  predicate HasAllyAt(s: Snapshot, white: bool, p: Pos) {
    At(s, p).Some? && At(s, p).value.white == white
  }

  /** At most one of ally/enemy holds; neither holds exactly on empty or off-board squares. */
  lemma AllyEnemyExclusive(s: Snapshot, white: bool, p: Pos)
    ensures !(HasAllyAt(s, white, p) && HasEnemyAt(s, white, p))
    ensures HasPieceAt(s, p) <==> HasAllyAt(s, white, p) || HasEnemyAt(s, white, p)
    ensures !HasAllyAt(s, white, p) && !HasEnemyAt(s, white, p) <==> !p.IsValid() || IsEmpty(s, p)
  {
  }

  /** An enemy of one colour is an ally of the other. */
  lemma EnemyIsOtherAlly(s: Snapshot, white: bool, p: Pos)
    ensures HasEnemyAt(s, white, p) <==> HasAllyAt(s, !white, p)
  {
  }
}
