/**
 * The evaluation functions of the engines: evaluatePosition of ChessAI
 * (material only), evaluate of IASuprema and avaliarTabuleiro of IANivel8
 * (material + 10 * mobility + king safety), each scanning the board in
 * row-major order.  The last two are the same code with different piece
 * values, so they are one model with the value table as a parameter.
 */
module Evaluation {
  import opened Wrappers
  import opened Positions
  import opened Pieces
  import opened Boards
  import opened Rules
  import opened Scans
  import Search

  // ---- piece values ----

  /** Which getPieceValue: ChessAI and IANivel8 test the class, IASuprema switches on getName. */
  datatype Table = Basic | Suprema

  /** getPieceValue of ChessAI and IANivel8 (an instanceof chain). */
  function BasicWorth(kind: Kind): int {
    match kind
    case Pawn => 100
    case Knight => 300
    case Bishop => 300
    case Rook => 500
    case Queen => 900
    case King => 10000
  }

  /** getPieceValue of IASuprema: a switch on the Portuguese name, 0 for any other name. */
  function NamedWorth(name: string): int {
    if name == "Pe\U{E3}o" then 100
    else if name == "Cavalo" then 320
    else if name == "Bispo" then 330
    else if name == "Torre" then 500
    else if name == "Rainha" then 900
    else if name == "Rei" then 20000
    else 0
  }

  function Worth(t: Table, kind: Kind): int {
    match t
    case Basic => BasicWorth(kind)
    case Suprema => NamedWorth(Name(kind))
  }

  /** The two tables, kind by kind; the name switch never falls through to 0. */
  lemma WorthTables(kind: Kind)
    ensures Worth(Basic, kind) == [100, 300, 300, 500, 900, 10000][KindIndex(kind)]
    ensures Worth(Suprema, kind) == [100, 320, 330, 500, 900, 20000][KindIndex(kind)]
    ensures 100 <= Worth(Basic, kind) <= Worth(Suprema, kind) <= 20000
  {
  }

  function KindIndex(kind: Kind): (i: nat)
    ensures i < 6
  {
    match kind
    case Pawn => 0
    case Knight => 1
    case Bishop => 2
    case Rook => 3
    case Queen => 4
    case King => 5
  }

  // ---- the terms of the evaluation, as values ----

  /** One square's material: the piece's value, counted for its owner and against the other side. */
  function SquareMaterial(s: Snapshot, white: bool, t: Table): Pos -> int {
    p => match At(s, p)
         case None => 0
         case Some(c) => if c.white == white then Worth(t, c.kind) else -Worth(t, c.kind)
  }

  /** The material loop: own material minus the opponent's. */
  function Material(s: Snapshot, white: bool, t: Table): int {
    Sum(s, SquareMaterial(s, white, t), 8)
  }

  /** One square's mobility: how many squares getPossibleMoves lists for a piece of that side. */
  function SquareMobility(s: Snapshot, white: bool, attacks: AttackOracle): Pos -> int {
    p => match At(s, p)
         case None => 0
         case Some(c) => if c.white == white then |Targets(s, c, p, attacks)| else 0
  }

  /** The mobility loop. */
  function Mobility(s: Snapshot, white: bool, attacks: AttackOracle): int {
    Sum(s, SquareMobility(s, white, attacks), 8)
  }

  /** The king is found and attacked by the other side. */
  predicate KingAttacked(s: Snapshot, white: bool, attacks: AttackOracle) {
    KingSquare(s, white).Some? && attacks(s, KingSquare(s, white).value, !white)
  }

  /** The king-safety terms: -50 for an attacked own king, +50 for an attacked enemy king. */
  function KingSafety(s: Snapshot, white: bool, attacks: AttackOracle): int {
    (if KingAttacked(s, white, attacks) then -50 else 0) + (if KingAttacked(s, !white, attacks) then 50 else 0)
  }

  /** evaluate / avaliarTabuleiro: material + 10 * mobility + king safety, for the side given. */
  function Evaluation(s: Snapshot, white: bool, t: Table, attacks: AttackOracle): int {
    Material(s, white, t) + Mobility(s, white, attacks) * 10 + KingSafety(s, white, attacks)
  }

  // ---- properties ----

  /** Material is antisymmetric in the side: what one side gains the other loses. */
  lemma MaterialAntisymmetric(s: Snapshot, white: bool, t: Table)
    ensures Material(s, !white, t) == -Material(s, white, t)
  {
    SumNegate(s, SquareMaterial(s, white, t), SquareMaterial(s, !white, t), 8);
  }

  /** The king-safety terms are antisymmetric in the side too. */
  lemma KingSafetyAntisymmetric(s: Snapshot, white: bool, attacks: AttackOracle)
    ensures KingSafety(s, !white, attacks) == -KingSafety(s, white, attacks)
  {
  }

  lemma {:induction false} RowSumMirror(s: Snapshot, f: Pos -> int, r1: int, r2: int, col: nat)
    requires col <= 8 && forall c | 0 <= c < 8 :: f(Pos(r2, c)) == -f(Pos(r1, c))
    ensures RowSum(s, f, r2, col) == -RowSum(s, f, r1, col)
  {
    if col > 0 {
      RowSumMirror(s, f, r1, r2, col - 1);
    }
  }

  /** Row 7 - r of the initial setup holds the pieces of row r in the other colour. */
  lemma InitialRowsMirror(white: bool, t: Table, r: int)
    requires 0 <= r < 4
    ensures RowSum(InitialSnapshot(), SquareMaterial(InitialSnapshot(), white, t), 7 - r, 8)
            == -RowSum(InitialSnapshot(), SquareMaterial(InitialSnapshot(), white, t), r, 8)
  {
    var f := SquareMaterial(InitialSnapshot(), white, t);
    forall c | 0 <= c < 8 ensures f(Pos(7 - r, c)) == -f(Pos(r, c)) {
      InitialAt(Pos(r, c));
      InitialAt(Pos(7 - r, c));
    }
    RowSumMirror(InitialSnapshot(), f, r, 7 - r, 8);
  }

  /** A board sum, row by row. */
  lemma SumByRows(s: Snapshot, f: Pos -> int)
    ensures Sum(s, f, 8) == RowSum(s, f, 0, 8) + RowSum(s, f, 1, 8) + RowSum(s, f, 2, 8) + RowSum(s, f, 3, 8)
                          + RowSum(s, f, 4, 8) + RowSum(s, f, 5, 8) + RowSum(s, f, 6, 8) + RowSum(s, f, 7, 8)
  {
    assert Sum(s, f, 1) == RowSum(s, f, 0, 8);
    assert Sum(s, f, 2) == RowSum(s, f, 0, 8) + RowSum(s, f, 1, 8);
    assert Sum(s, f, 4) == Sum(s, f, 2) + RowSum(s, f, 2, 8) + RowSum(s, f, 3, 8);
    assert Sum(s, f, 6) == Sum(s, f, 4) + RowSum(s, f, 4, 8) + RowSum(s, f, 5, 8);
  }

  /** The initial setup is balanced: material is 0 for either side, whatever the table. */
  lemma MaterialInitial(white: bool, t: Table)
    ensures Material(InitialSnapshot(), white, t) == 0
  {
    SumByRows(InitialSnapshot(), SquareMaterial(InitialSnapshot(), white, t));
    InitialRowsMirror(white, t, 0);
    InitialRowsMirror(white, t, 1);
    InitialRowsMirror(white, t, 2);
    InitialRowsMirror(white, t, 3);
  }

  lemma MaterialBound(s: Snapshot, white: bool, t: Table)
    ensures -1_280_000 <= Material(s, white, t) <= 1_280_000
  {
    var f := SquareMaterial(s, white, t);
    forall p: Pos | p.IsValid() ensures -20000 <= f(p) <= 20000 {
      if At(s, p).Some? {
        WorthTables(At(s, p).value.kind);
      }
    }
    SumBoundRows(s, f, 8, 20000);
  }

  lemma MobilityBound(s: Snapshot, white: bool, attacks: AttackOracle)
    ensures -1728 <= Mobility(s, white, attacks) <= 1728
  {
    var f := SquareMobility(s, white, attacks);
    forall p: Pos | p.IsValid() ensures -27 <= f(p) <= 27 {
      if At(s, p).Some? {
        TargetsBound(s, At(s, p).value, p, attacks);
      }
    }
    SumBoundRows(s, f, 8, 27);
  }

  /** Every evaluation is far inside the Java int range, so none of its additions overflows. */
  lemma EvaluationBound(s: Snapshot, white: bool, t: Table, attacks: AttackOracle)
    ensures -1_300_000 <= Evaluation(s, white, t, attacks) <= 1_300_000
  {
    var material, mobility, safety := Material(s, white, t), Mobility(s, white, attacks), KingSafety(s, white, attacks);
    MaterialBound(s, white, t);
    MobilityBound(s, white, attacks);
    EvaluationOf(s, white, t, attacks, material, mobility, safety);
    assert -17_280 <= mobility * 10 <= 17_280;
  }

  /** The evaluation as the Java int the engines compute. */
  function Evaluation32(s: Snapshot, white: bool, t: Table, attacks: AttackOracle): (r: Search.I32)
    ensures -1_300_000 <= r <= 1_300_000
  {
    EvaluationBound(s, white, t, attacks);
    Evaluation(s, white, t, attacks)
  }

  // ---- the scanning loops on the board ----
  // Each loop reads the board without changing it; the ghost `s` is the board's snapshot,
  // and every method promises that the board still shows `s` afterwards.

  /** One row of the material loop. */
  method RowMaterial(board: Board, ghost s: Snapshot, row: int, isWhite: bool, t: Table) returns (score: int)
    requires board.Valid() && board.Snap() == s && 0 <= row < 8
    ensures board.Valid() && board.Snap() == s
    ensures score == RowSum(s, SquareMaterial(s, isWhite, t), row, 8)
  {
    ghost var f := SquareMaterial(s, isWhite, t);
    score := 0;
    for col := 0 to 8
      invariant score == RowSum(s, f, row, col)
    {
      var piece := board.GetPieceAt(Pos(row, col));
      if piece != null {
        var value := Worth(t, piece.kind);
        score := if piece.isWhite == isWhite then score + value else score - value;
      }
    }
  }

  /** The material loop of evaluatePosition (ChessAI), evaluate and avaliarTabuleiro. */
  method MaterialScore(board: Board, ghost s: Snapshot, isWhite: bool, t: Table) returns (score: int)
    requires board.Valid() && board.Snap() == s
    ensures board.Valid() && board.Snap() == s
    ensures score == Material(s, isWhite, t)
  {
    ghost var f := SquareMaterial(s, isWhite, t);
    score := 0;
    for row := 0 to 8
      invariant board.Valid() && board.Snap() == s
      invariant score == Sum(s, f, row)
    {
      var more := RowMaterial(board, s, row, isWhite, t);
      score := score + more;
    }
  }

  /** One row of the mobility loop. */
  method RowMobility(board: Board, ghost s: Snapshot, row: int, isWhite: bool, attacks: AttackOracle) returns (mobility: int)
    requires board.Valid() && board.Snap() == s && 0 <= row < 8
    ensures board.Valid() && board.Snap() == s
    ensures mobility == RowSum(s, SquareMobility(s, isWhite, attacks), row, 8)
  {
    ghost var f := SquareMobility(s, isWhite, attacks);
    mobility := 0;
    for col := 0 to 8
      invariant board.Valid() && board.Snap() == s
      invariant mobility == RowSum(s, f, row, col)
    {
      var piece := board.GetPieceAt(Pos(row, col));
      if piece != null && piece.isWhite == isWhite {
        StandingWalkable(s, piece);
        var moves := PossibleMoves(piece, board, attacks);
        assert board.Snap() == s;
        mobility := mobility + |moves|;
      }
    }
  }

  /** The mobility loop of evaluate and avaliarTabuleiro. */
  method MobilityScore(board: Board, ghost s: Snapshot, isWhite: bool, attacks: AttackOracle) returns (mobility: int)
    requires board.Valid() && board.Snap() == s
    ensures board.Valid() && board.Snap() == s
    ensures mobility == Mobility(s, isWhite, attacks)
  {
    ghost var f := SquareMobility(s, isWhite, attacks);
    mobility := 0;
    for row := 0 to 8
      invariant board.Valid() && board.Snap() == s
      invariant mobility == Sum(s, f, row)
    {
      var more := RowMobility(board, s, row, isWhite, attacks);
      mobility := mobility + more;
    }
  }

  /** KingSafety, with the two king squares already found. */
  lemma KingSafetyOf(s: Snapshot, white: bool, attacks: AttackOracle, own: Option<Pos>, opp: Option<Pos>)
    requires own == KingSquare(s, white) && opp == KingSquare(s, !white)
    ensures KingSafety(s, white, attacks) ==
              (if own.Some? && attacks(s, own.value, !white) then -50 else 0)
              + (if opp.Some? && attacks(s, opp.value, white) then 50 else 0)
  {
  }

  /** The king-safety lines of evaluate and avaliarTabuleiro: both kings are looked up and tested. */
  method KingSafetyScore(board: Board, ghost s: Snapshot, isWhite: bool, attacks: AttackOracle) returns (delta: int)
    requires board.Valid() && board.Snap() == s
    ensures board.Valid() && board.Snap() == s
    ensures delta == KingSafety(s, isWhite, attacks)
  {
    delta := 0;
    var kingPos := board.FindKing(isWhite);
    assert board.Snap() == s;
    if kingPos.Some? && attacks(board.Snap(), kingPos.value, !isWhite) {
      delta := delta - 50;
    }
    var oppKingPos := board.FindKing(!isWhite);
    assert board.Snap() == s;
    if oppKingPos.Some? && attacks(board.Snap(), oppKingPos.value, isWhite) {
      delta := delta + 50;
    }
    KingSafetyOf(s, isWhite, attacks, kingPos, oppKingPos);
  }

  /** Evaluation, with its three terms already computed. */
  lemma EvaluationOf(s: Snapshot, white: bool, t: Table, attacks: AttackOracle, material: int, mobility: int, safety: int)
    requires material == Material(s, white, t) && mobility == Mobility(s, white, attacks)
    requires safety == KingSafety(s, white, attacks)
    ensures Evaluation(s, white, t, attacks) == material + mobility * 10 + safety
  {
  }

  /** evaluate (IASuprema) and avaliarTabuleiro (IANivel8). */
  method Evaluate(board: Board, ghost s: Snapshot, isWhite: bool, t: Table, attacks: AttackOracle) returns (score: int)
    requires board.Valid() && board.Snap() == s
    ensures board.Valid() && board.Snap() == s
    ensures score == Evaluation(s, isWhite, t, attacks)
  {
    var material := MaterialScore(board, s, isWhite, t);
    var mobility := MobilityScore(board, s, isWhite, attacks);
    score := material + mobility * 10;
    var safety := KingSafetyScore(board, s, isWhite, attacks);
    EvaluationOf(s, isWhite, t, attacks, material, mobility, safety);
    score := score + safety;
  }
}
