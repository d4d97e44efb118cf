/**
 * The game controller (Game.java): whose turn it is, the selected square,
 * the move history, the draw counters and the end-of-game test, the human
 * move with its special cases (en passant, castling, promotion), and the
 * engine's reply.
 *
 * The value part states, over `GameState`, what each step of the
 * controller does; the class `Game` holds the source's fields and its
 * methods are proved to perform exactly those steps on the heap.
 */
module Games {
  import opened Wrappers
  import opened Positions
  import opened Pieces
  import opened Boards
  import opened Rules
  import opened Scans
  import opened Legality
  import opened Picks
  import Moves
  import Greedy
  import Suprema
  import Nivel8

  /** gameResult: the source keeps a display string; the model keeps which of the four endings it names. */
  datatype Outcome = Checkmate(whiteWins: bool) | Stalemate | FiftyMoveRule | Repetition

  /** What the controller knows, apart from the history of Move objects and the engine settings. */
  datatype GameState = GameState(
    board: Snapshot,
    whiteTurn: bool,
    selected: Option<Pos>,
    over: bool,
    result: Option<Outcome>,
    halfmoves: int,
    counts: map<string, int>)

  /** The state a new game, and resetGame, start from. */
  function InitialState(): GameState {
    GameState(InitialSnapshot(), true, None, false, None, 0, map[])
  }

  /** positionCount.getOrDefault(key, 0). */
  function Count(counts: map<string, int>, key: string): int {
    if key in counts then counts[key] else 0
  }

  function Abs(x: int): int {
    if x < 0 then -x else x
  }

  /** Java's int division by 2, which truncates toward zero. */
  function Half(x: int): int {
    if x >= 0 then x / 2 else -((-x) / 2)
  }

  // ---- generatePositionKey ----

  /** One square of the key: "." for an empty square, else getSymbol of its piece. */
  function SquareChar(s: Snapshot, p: Pos): char {
    match At(s, p)
    case None => '.'
    case Some(c) => SymbolChar(c.kind, c.white)
  }

  /** The first `cols` squares of row r, left to right. */
  function RowKey(s: Snapshot, r: int, cols: nat): (k: string)
    requires cols <= 8
    ensures |k| == cols
  {
    if cols == 0 then "" else RowKey(s, r, cols - 1) + [SquareChar(s, Pos(r, cols - 1))]
  }

  /** The first `rows` rows of the key, in row-major order. */
  function BoardKey(s: Snapshot, rows: nat): (k: string)
    requires rows <= 8
    ensures |k| == 8 * rows
  {
    if rows == 0 then "" else BoardKey(s, rows - 1) + RowKey(s, rows - 1, 8)
  }

  /** The en-passant part of the key: Position.toString of the target, or "null". */
  function EnPassantKey(ep: Option<Pos>): string {
    if ep.None? then "null" else ep.value.ToString()
  }

  function TurnMark(whiteTurn: bool): char {
    if whiteTurn then 'W' else 'B'
  }

  /** generatePositionKey: 64 square characters, the en-passant target, the turn. */
  function PositionKey(s: Snapshot, whiteTurn: bool): string {
    BoardKey(s, 8) + EnPassantKey(s.enPassant) + [TurnMark(whiteTurn)]
  }

  lemma {:induction false} RowKeyAt(s: Snapshot, r: int, cols: nat, c: nat)
    requires c < cols <= 8
    ensures RowKey(s, r, cols)[c] == SquareChar(s, Pos(r, c))
    decreases cols
  {
    if c < cols - 1 {
      RowKeyAt(s, r, cols - 1, c);
    }
  }

  /** Character 8 * r + c of the key is square (r, c). */
  lemma {:induction false} BoardKeyAt(s: Snapshot, rows: nat, r: int, c: int)
    requires 0 <= r < rows <= 8 && 0 <= c < 8
    ensures BoardKey(s, rows)[8 * r + c] == SquareChar(s, Pos(r, c))
    decreases rows
  {
    if r < rows - 1 {
      BoardKeyAt(s, rows - 1, r, c);
    } else {
      RowKeyAt(s, r, 8, c);
    }
  }

  /** A square's character tells its kind and colour, and nothing else. */
  lemma SquareCharSpec(s: Snapshot, t: Snapshot, p: Pos)
    ensures SquareChar(s, p) == SquareChar(t, p) <==> ManAt(s, p) == ManAt(t, p)
  {
    if At(s, p).Some? && At(t, p).Some? {
      SymbolInjective(At(s, p).value.kind, At(s, p).value.white, At(t, p).value.kind, At(t, p).value.white);
    } else if At(s, p).Some? {
      SymbolInjective(At(s, p).value.kind, At(s, p).value.white, At(s, p).value.kind, At(s, p).value.white);
    } else if At(t, p).Some? {
      SymbolInjective(At(t, p).value.kind, At(t, p).value.white, At(t, p).value.kind, At(t, p).value.white);
    }
  }

  lemma BoardKeyEqual(s: Snapshot, t: Snapshot)
    requires forall p: Pos | p.IsValid() :: ManAt(s, p) == ManAt(t, p)
    ensures BoardKey(s, 8) == BoardKey(t, 8)
  {
    forall k | 0 <= k < 64 ensures BoardKey(s, 8)[k] == BoardKey(t, 8)[k] {
      var q := SquareOf(k);
      BoardKeyAt(s, 8, q.row, q.col);
      BoardKeyAt(t, 8, q.row, q.col);
      SquareCharSpec(s, t, q);
    }
  }

  /** On squares of the board, the en-passant part of the key determines the target. */
  lemma EnPassantKeyInjective(a: Option<Pos>, b: Option<Pos>)
    requires a.None? || a.value.IsValid()
    requires b.None? || b.value.IsValid()
    ensures EnPassantKey(a) == EnPassantKey(b) <==> a == b
  {
    if a.Some? {
      ValidToString(a.value);
    }
    if b.Some? {
      ValidToString(b.value);
    }
    if a.Some? && b.Some? {
      ToStringInjective(a.value, b.value);
    }
  }

  /**
   * Two positions share a key exactly when every square holds the same kind
   * and colour, the en-passant targets agree and the same side is to move.
   * The hasMoved flags, and so the castling rights, are not part of the key.
   */
  lemma PositionKeyInjective(s: Snapshot, w: bool, t: Snapshot, v: bool)
    requires s.enPassant.None? || s.enPassant.value.IsValid()
    requires t.enPassant.None? || t.enPassant.value.IsValid()
    ensures PositionKey(s, w) == PositionKey(t, v) <==>
              (forall p: Pos | p.IsValid() :: ManAt(s, p) == ManAt(t, p)) && s.enPassant == t.enPassant && w == v
  {
    var ks := PositionKey(s, w);
    var kt := PositionKey(t, v);
    EnPassantKeyInjective(s.enPassant, t.enPassant);
    if ks == kt {
      assert ks[|ks| - 1] == TurnMark(w) && kt[|kt| - 1] == TurnMark(v);
      assert ks[64..|ks| - 1] == EnPassantKey(s.enPassant);
      assert kt[64..|kt| - 1] == EnPassantKey(t.enPassant);
      forall p: Pos | p.IsValid() ensures ManAt(s, p) == ManAt(t, p) {
        BoardKeyAt(s, 8, p.row, p.col);
        BoardKeyAt(t, 8, p.row, p.col);
        assert ks[8 * p.row + p.col] == kt[8 * p.row + p.col];
        SquareCharSpec(s, t, p);
      }
    }
    if (forall p: Pos | p.IsValid() :: ManAt(s, p) == ManAt(t, p)) && s.enPassant == t.enPassant && w == v {
      BoardKeyEqual(s, t);
    }
  }

  // ---- the end of the game ----

  /** isCheckmate: in check and without a legal move. */
  predicate Checkmated(s: Snapshot, white: bool, attacks: AttackOracle) {
    KingInCheck(s, white, attacks) && !HasLegalMoves(s, white, attacks)
  }

  /** isStalemate: not in check and without a legal move. */
  predicate Stalemated(s: Snapshot, white: bool, attacks: AttackOracle) {
    !KingInCheck(s, white, attacks) && !HasLegalMoves(s, white, attacks)
  }

  /** isThreefoldRepetition: the current key has been counted three times or more. */
  predicate Repeated(s: Snapshot, whiteTurn: bool, counts: map<string, int>) {
    Count(counts, PositionKey(s, whiteTurn)) >= 3
  }

  /**
   * The tests of checkGameEnd for the side to move, in the source's order:
   * checkmate, stalemate, fifty moves, threefold repetition.
   */
  function EndOf(s: Snapshot, whiteTurn: bool, halfmoves: int, counts: map<string, int>, attacks: AttackOracle): (r: Option<Outcome>)
    ensures (r == Some(Checkmate(!whiteTurn)) || r == Some(Stalemate)) <==> !HasLegalMoves(s, whiteTurn, attacks)
    ensures r.Some? && r.value.Checkmate? ==> r.value.whiteWins == !whiteTurn && KingInCheck(s, whiteTurn, attacks)
    ensures r == Some(Stalemate) ==> !KingInCheck(s, whiteTurn, attacks)
    ensures r == Some(FiftyMoveRule) <==> HasLegalMoves(s, whiteTurn, attacks) && halfmoves >= 50
    ensures r.None? <==>
              HasLegalMoves(s, whiteTurn, attacks) && halfmoves < 50 && !Repeated(s, whiteTurn, counts)
  {
    if Checkmated(s, whiteTurn, attacks) then Some(Checkmate(!whiteTurn))
    else if Stalemated(s, whiteTurn, attacks) then Some(Stalemate)
    else if halfmoves >= 50 then Some(FiftyMoveRule)
    else if Repeated(s, whiteTurn, counts) then Some(Repetition)
    else None
  }

  /** checkGameEnd: when the side to move has lost or drawn, the game is over with that result; nothing else changes. */
  function Ended(st: GameState, attacks: AttackOracle): (r: GameState)
    ensures r == st.(over := r.over, result := r.result)
    ensures var e := EndOf(st.board, st.whiteTurn, st.halfmoves, st.counts, attacks);
              (e.Some? ==> r.over && r.result == e) && (e.None? ==> r == st)
  {
    var e := EndOf(st.board, st.whiteTurn, st.halfmoves, st.counts, attacks);
    if e.Some? then st.(over := true, result := e) else st
  }

  /** Checkmate and stalemate exclude each other, and one of them holds exactly when no legal move exists. */
  lemma MateOrStalemate(s: Snapshot, white: bool, attacks: AttackOracle)
    ensures !(Checkmated(s, white, attacks) && Stalemated(s, white, attacks))
    ensures Checkmated(s, white, attacks) || Stalemated(s, white, attacks) <==>
              forall m | m in AllPlies(s, white, attacks) :: WouldCheck(s, m.from, m.to, white, attacks)
  {
    HasLegalMovesSpec(s, white, attacks);
  }

  // ---- the board side of a move ----

  /** handleEnPassantPreMove: the target is cleared, then set to the square a pawn's double step passes over. */
  function EnPassantMarked(s: Snapshot, m: Ply): (r: Snapshot)
    ensures r.rows == s.rows
    ensures r.enPassant.Some? <==>
              m.piece.kind == Pawn && m.to.col == m.from.col && Abs(m.to.row - m.from.row) == 2
    ensures r.enPassant.Some? ==>
              r.enPassant.value == Pos(m.from.row + (if m.to.row > m.from.row then 1 else -1), m.from.col)
  {
    var rowDiff := Abs(m.to.row - m.from.row);
    var colDiff := Abs(m.to.col - m.from.col);
    if m.piece.kind == Pawn && colDiff == 0 && rowDiff == 2 then
      s.(enPassant := Some(Pos(Half(m.from.row + m.to.row), m.from.col)))
    else
      s.(enPassant := None)
  }

  /** The move handleSpecialMoves treats as castling: a king moving two columns. */
  predicate Castles(m: Ply) {
    m.piece.kind == King && Abs(m.to.col - m.from.col) == 2
  }

  function RookFrom(m: Ply): Pos {
    Pos(m.from.row, if m.to.col > m.from.col then 7 else 0)
  }

  function RookTo(m: Ply): Pos {
    Pos(m.from.row, m.from.col + (if m.to.col > m.from.col then 1 else -1))
  }

  /** A pawn reaching the last row for its colour. */
  predicate Promotes(m: Ply) {
    m.piece.kind == Pawn && m.to.row == (if m.piece.white then 0 else 7)
  }

  /** handleSpecialMoves, after the mover has moved: the castling rook's move, then the promotion to a queen. */
  function Special(s: Snapshot, m: Ply): (r: Snapshot)
    requires WellFormed(s)
    ensures WellFormed(r) && r.enPassant == s.enPassant
  {
    MoveOnEffect(s, RookFrom(m), RookTo(m));
    var castled := if Castles(m) then MoveOn(s, RookFrom(m), RookTo(m)) else s;
    if Promotes(m) then SetAt(castled, m.to, Some(Cell(Queen, m.piece.white, false))) else castled
  }

  /** executeMove: movePiece, then handleSpecialMoves. */
  function Executed(s: Snapshot, m: Ply): (r: Snapshot)
    requires WellFormed(s)
    ensures WellFormed(r) && r.enPassant == s.enPassant
  {
    MoveOnEffect(s, m.from, m.to);
    Special(MoveOn(s, m.from, m.to), m)
  }

  /** The square behind a pawn's diagonal step, where handleEnPassantPostMove looks for a pawn. */
  function CapturedSquare(m: Ply): Pos {
    Pos(m.to.row + (if m.piece.white then 1 else -1), m.to.col)
  }

  /** handleEnPassantPostMove's test: a pawn's diagonal step without a capture, with an enemy pawn behind it. */
  predicate TakesEnPassant(s: Snapshot, m: Ply) {
    var behind := At(s, CapturedSquare(m));
    m.piece.kind == Pawn && m.captured.None? &&
    Abs(m.to.row - m.from.row) == 1 && Abs(m.to.col - m.from.col) == 1 &&
    behind.Some? && behind.value.kind == Pawn && behind.value.white != m.piece.white
  }

  /** handleEnPassantPostMove: the pawn behind the destination is removed. */
  function EnPassantTaken(s: Snapshot, m: Ply): (r: Snapshot)
    requires WellFormed(s)
    ensures WellFormed(r) && r.enPassant == s.enPassant
  {
    if TakesEnPassant(s, m) then SetAt(s, CapturedSquare(m), None) else s
  }

  /** The board after a human move: the en-passant hooks around executeMove. */
  function Played(s: Snapshot, m: Ply): (r: Snapshot)
    requires WellFormed(s)
    ensures WellFormed(r) && r.enPassant == EnPassantMarked(s, m).enPassant
  {
    EnPassantTaken(Executed(EnPassantMarked(s, m), m), m)
  }

  /**
   * Castling from the king's square on column 4 with the rook in its
   * corner: the king lands two columns over, the rook on the square it
   * passed, and both corners of the move are left empty.
   */
  lemma CastlingEffect(s: Snapshot, m: Ply, king: Cell, rook: Cell)
    requires WellFormed(s) && Castles(m) && m.from.IsValid() && m.to.IsValid() && m.to.row == m.from.row
    requires m.from.col == 4
    requires At(s, m.from) == Some(king) && At(s, RookFrom(m)) == Some(rook)
    requires IsEmpty(s, m.to) && IsEmpty(s, RookTo(m))
    ensures var r := Executed(s, m);
              && At(r, m.to) == Some(king.(moved := true))
              && At(r, RookTo(m)) == Some(rook.(moved := true))
              && IsEmpty(r, m.from) && IsEmpty(r, RookFrom(m))
  {
    var moved := MoveOn(s, m.from, m.to);
    MoveOnEffect(s, m.from, m.to);
    assert At(moved, RookFrom(m)) == Some(rook);
    MoveOnEffect(moved, RookFrom(m), RookTo(m));
  }

  /** A promotion leaves a fresh queen of the mover's colour on the last row. */
  lemma PromotionEffect(s: Snapshot, m: Ply)
    requires WellFormed(s) && Promotes(m) && m.to.IsValid()
    ensures At(Executed(s, m), m.to) == Some(Cell(Queen, m.piece.white, false))
    ensures forall q: Pos :: q != m.from && q != m.to ==> At(Executed(s, m), q) == At(s, q)
  {
    MoveOnEffect(s, m.from, m.to);
  }

  /** An en-passant capture empties the square behind the destination and removes exactly one piece. */
  lemma EnPassantEffect(s: Snapshot, m: Ply)
    requires WellFormed(s) && TakesEnPassant(s, m)
    ensures IsEmpty(EnPassantTaken(s, m), CapturedSquare(m))
    ensures PieceCount(EnPassantTaken(s, m)) == PieceCount(s) - 1
    ensures forall q: Pos :: q != CapturedSquare(m) ==> At(EnPassantTaken(s, m), q) == At(s, q)
  {
    SetAtCount(s, CapturedSquare(m), None);
  }

  // ---- the controller's steps ----

  /** updateGameStateCounters: the fifty-move clock and the count of the position key, with the mover's turn. */
  function Counted(st: GameState, m: Ply): (r: GameState)
    ensures r == st.(halfmoves := r.halfmoves, counts := r.counts)
    ensures r.halfmoves == if m.piece.kind == Pawn || m.captured.Some? then 0 else st.halfmoves + 1
    ensures var key := PositionKey(st.board, st.whiteTurn);
              Count(r.counts, key) == Count(st.counts, key) + 1 &&
              forall k :: k != key ==> Count(r.counts, k) == Count(st.counts, k)
  {
    var key := PositionKey(st.board, st.whiteTurn);
    st.(halfmoves := if m.piece.kind == Pawn || m.captured.Some? then 0 else st.halfmoves + 1,
        counts := st.counts[key := Count(st.counts, key) + 1])
  }

  /** The checks of makeMove: a selection, a game not over, a piece there whose isValidMove accepts, no king taken, no self-check. */
  predicate Accepts(s: Snapshot, sel: Option<Pos>, over: bool, to: Pos, attacks: AttackOracle) {
    sel.Some? && !over && At(s, sel.value).Some? &&
    ValidMove(s, At(s, sel.value).value, sel.value, to, attacks) &&
    !KingAt(s, to) && !WouldCheck(s, sel.value, to, At(s, sel.value).value.white, attacks)
  }

  /** The Move makeMove builds: the selected piece, and the destination's occupant as captured. */
  function Proposed(s: Snapshot, from: Pos, to: Pos): (m: Ply)
    requires At(s, from).Some?
    ensures m.from == from && m.to == to && m.piece == Identity(At(s, from).value)
    ensures m.captured == ManAt(s, to)
  {
    Ply(from, to, Identity(At(s, from).value), ManAt(s, to))
  }

  /**
   * The rest of makeMove once the move is accepted: the board changes, the
   * counters, the turn passes, the selection is cleared, and the end of the
   * game is tested for the side now to move.
   */
  function HumanCommit(st: GameState, m: Ply, attacks: AttackOracle): (r: GameState)
    requires WellFormed(st.board)
    ensures WellFormed(r.board) && r.board == Played(st.board, m)
    ensures r.whiteTurn == !st.whiteTurn && r.selected.None?
  {
    Advanced(st.(board := Played(st.board, m)), m, attacks)
  }

  /** The steps of makeMove after the board has changed: the counters, the turn, the selection, checkGameEnd. */
  function Advanced(st: GameState, m: Ply, attacks: AttackOracle): (r: GameState)
    ensures r.board == st.board && r.whiteTurn == !st.whiteTurn && r.selected.None?
  {
    TurnPassed(Counted(st, m).(selected := None), attacks)
  }

  /** The end of both makeMove and makeAIMove: the turn passes and checkGameEnd runs for the side now to move. */
  function TurnPassed(st: GameState, attacks: AttackOracle): (r: GameState)
    ensures r.board == st.board && r.whiteTurn == !st.whiteTurn && r.selected == st.selected
    ensures r.halfmoves == st.halfmoves && r.counts == st.counts
  {
    Ended(st.(whiteTurn := !st.whiteTurn), attacks)
  }

  /** The dispatch of makeAIMove on advancedAILevel: IASuprema, IANivel8, or ChessAI with its random draw. */
  function EngineChoice(s: Snapshot, whiteTurn: bool, level: int, difficulty: int, attacks: AttackOracle, roll: real, pick: nat)
    : (r: Option<Ply>)
    requires WellFormed(s)
    ensures r.Some? ==> r.value in AllPlies(s, false, attacks)
    ensures AllPlies(s, false, attacks) == [] ==> r.None?
  {
    var plies := AllPlies(s, false, attacks);
    if plies == [] then None
    else if level == 1 then Chosen(plies, Suprema.RootChoice(attacks, s, false, plies))
    else if level == 2 then Chosen(plies, Nivel8.RootChoice(attacks, s, false, plies))
    else if whiteTurn then None
    else if Greedy.Deviates(difficulty, roll) then Some(plies[pick % |plies|])
    else Chosen(plies, Greedy.GreedyChoice(s, plies))
  }

  /** makeAIMove's guard on the engine's answer: a king capture or a self-check is replaced by findAnyLegalMove(false). */
  function AIPlay(s: Snapshot, m: Ply, attacks: AttackOracle): Option<Ply> {
    if !KingAt(s, m.to) && !WouldCheck(s, m.from, m.to, m.piece.white, attacks) then Some(m)
    else AnyLegalMove(s, false, attacks)
  }

  /** The move makeAIMove plays, if any. */
  function AIReply(st: GameState, level: int, difficulty: int, attacks: AttackOracle, roll: real, pick: nat): Option<Ply>
    requires WellFormed(st.board)
  {
    match EngineChoice(st.board, st.whiteTurn, level, difficulty, attacks, roll, pick)
    case None => None
    case Some(m) => AIPlay(st.board, m, attacks)
  }

  /** The rest of makeAIMove: executeMove (without the en-passant hooks and the counters), the turn passes, checkGameEnd. */
  function AICommit(st: GameState, m: Ply, attacks: AttackOracle): (r: GameState)
    requires WellFormed(st.board)
    ensures WellFormed(r.board) && r.board == Executed(st.board, m)
    ensures r.whiteTurn == !st.whiteTurn && r.halfmoves == st.halfmoves && r.counts == st.counts
  {
    TurnPassed(st.(board := Executed(st.board, m)), attacks)
  }

  /** Whether makeMove calls makeAIMove after the human move, and what it plays. */
  function Reply(st: GameState, enabled: bool, level: int, difficulty: int, attacks: AttackOracle, roll: real, pick: nat): Option<Ply>
    requires WellFormed(st.board)
  {
    if enabled && Greedy.ShouldMakeMove(st.whiteTurn, st.over) then AIReply(st, level, difficulty, attacks, roll, pick) else None
  }

  function Answered(st: GameState, r: Option<Ply>, attacks: AttackOracle): GameState
    requires WellFormed(st.board)
  {
    if r.Some? then AICommit(st, r.value, attacks) else st
  }

  /** getPossibleMovesForSelected: the possible moves of the selected piece that take no king and keep its own king safe. */
  function Selectable(s: Snapshot, sel: Option<Pos>, attacks: AttackOracle): seq<Pos> {
    if sel.None? || At(s, sel.value).None? then []
    else
      var c := At(s, sel.value).value;
      Kept(s, sel.value, c.white, true, attacks, Targets(s, c, sel.value, attacks))
  }

  // ---- what the steps guarantee ----

  /**
   * The highlighted squares are the moves makeMove accepts, for a piece on
   * its square (a king on its home column, a pawn not aimed at the
   * en-passant target).
   */
  lemma ShownIffAccepted(s: Snapshot, p: Pos, to: Pos, attacks: AttackOracle)
    requires p.IsValid() && At(s, p).Some?
    requires At(s, p).value.kind == King ==> p.col == 4
    requires At(s, p).value.kind == Pawn ==> s.enPassant != Some(to)
    ensures to in Selectable(s, Some(p), attacks) <==> Accepts(s, Some(p), false, to, attacks)
  {
    var c := At(s, p).value;
    TargetsValid(s, c, p, to, attacks);
    KeptMember(s, p, c.white, true, attacks, Targets(s, c, p, attacks), to);
  }

  /** An accepted human move is one of the moves the engines generate for that colour, and it is legal. */
  lemma AcceptedIsGenerated(s: Snapshot, p: Pos, to: Pos, attacks: AttackOracle)
    requires p.IsValid() && At(s, p).Some?
    requires At(s, p).value.kind == King ==> p.col == 4
    requires At(s, p).value.kind == Pawn ==> s.enPassant != Some(to)
    ensures var c := At(s, p).value;
              Accepts(s, Some(p), false, to, attacks) <==>
              Proposed(s, p, to) in AllPlies(s, c.white, attacks) && !KingAt(s, to) && !WouldCheck(s, p, to, c.white, attacks)
  {
    var c := At(s, p).value;
    TargetsValid(s, c, p, to, attacks);
    AllPliesSpec(s, c.white, attacks, Proposed(s, p, to));
  }

  /**
   * The engine's answer, once guarded: a generated black move that takes no
   * king and leaves the black king out of check; nothing only when black
   * has no such move.
   */
  lemma AIPlaySafe(s: Snapshot, m: Ply, attacks: AttackOracle)
    requires m in AllPlies(s, false, attacks)
    ensures AIPlay(s, m, attacks).None? <==>
              forall n | n in AllPlies(s, false, attacks) :: KingAt(s, n.to) || WouldCheck(s, n.from, n.to, false, attacks)
    ensures AIPlay(s, m, attacks).Some? ==>
              var x := AIPlay(s, m, attacks).value;
              x.(captured := ManAt(s, x.to)) in AllPlies(s, false, attacks) &&
              !KingAt(s, x.to) && !WouldCheck(s, x.from, x.to, false, attacks)
  {
    AllPliesSpec(s, false, attacks, m);
    AnyLegalMoveSpec(s, false, attacks);
  }

  /** The AI never plays a king capture or a self-check, and it passes when it has no such move. */
  lemma AIReplySafe(st: GameState, level: int, difficulty: int, attacks: AttackOracle, roll: real, pick: nat)
    requires WellFormed(st.board)
    ensures var r := AIReply(st, level, difficulty, attacks, roll, pick);
              r.Some? ==> r.value.(captured := ManAt(st.board, r.value.to)) in AllPlies(st.board, false, attacks) &&
                          !KingAt(st.board, r.value.to) && !WouldCheck(st.board, r.value.from, r.value.to, false, attacks)
  {
    var e := EngineChoice(st.board, st.whiteTurn, level, difficulty, attacks, roll, pick);
    if e.Some? {
      AIPlaySafe(st.board, e.value, attacks);
    }
  }

  /**
   * The key updateGameStateCounters records carries the turn of the side
   * that moved, while checkGameEnd looks up the key with the turn of the
   * side to move: a move never raises the count its own repetition test reads.
   */
  lemma OwnEntryNotCounted(st: GameState, m: Ply)
    requires WellFormed(st.board)
    ensures var moved := st.(board := Played(st.board, m));
            var lookup := PositionKey(moved.board, !st.whiteTurn);
            Count(Counted(moved, m).counts, lookup) == Count(st.counts, lookup)
  {
    var moved := st.(board := Played(st.board, m));
    var recorded := PositionKey(moved.board, st.whiteTurn);
    var lookup := PositionKey(moved.board, !st.whiteTurn);
    assert recorded[|recorded| - 1] != lookup[|lookup| - 1];
  }

  /** The flags executeMove and the en-passant hooks leave on the human move. */
  ghost predicate FlagsOf(move: Moves.Move, s: Snapshot, m: Ply)
    reads move
    requires WellFormed(s)
  {
    && move.isCastling == Castles(m)
    && move.isEnPassant == TakesEnPassant(Executed(EnPassantMarked(s, m), m), m)
    && (move.promotionPiece != null <==> Promotes(m))
    && (move.promotionPiece != null ==> move.promotionPiece.kind == Queen && move.promotionPiece.isWhite == m.piece.white)
  }

  /** A sequence that starts with ys + [x] starts with ys, and x follows. */
  lemma PrefixSnoc<T>(xs: seq<T>, ys: seq<T>, x: T)
    requires |ys| < |xs| && xs[..|ys| + 1] == ys + [x]
    ensures xs[..|ys|] == ys && xs[|ys|] == x
  {
    assert xs[..|ys|] == xs[..|ys| + 1][..|ys|];
  }

  class Game {
    var board: Board
    var isWhiteTurn: bool
    var moveHistory: seq<Moves.Move>
    var selectedPosition: Option<Pos>
    var gameOver: bool
    var gameResult: Option<Outcome>
    const ai: Greedy.ChessAI
    var advancedAILevel: int
    var aiEnabled: bool
    var aiSupreme: bool
    var halfmoveClock: int
    var positionCount: map<string, int>

    ghost predicate Valid()
      reads this, board, board.squares, board.Footprint, ai
    {
      board.Valid() && ai.Valid()
    }

    /** The controller's state as a value. */
    ghost function State(): GameState
      reads this, board, board.squares, board.Footprint
      requires board.Valid()
    {
      GameState(board.Snap(), isWhiteTurn, selectedPosition, gameOver, gameResult, halfmoveClock, positionCount)
    }

    /** The engine settings, which no move changes. */
    ghost function Settings(): (bool, bool, int)
      reads this
    {
      (aiEnabled, aiSupreme, advancedAILevel)
    }

    /** Game(): a new board, white to move, no history, the AI off, default difficulty. */
    constructor ()
      ensures Valid() && fresh(board) && fresh(ai)
      ensures State() == InitialState() && moveHistory == []
      ensures !aiEnabled && !aiSupreme && advancedAILevel == 0 && ai.difficulty == 2
    {
      board := new Board();
      isWhiteTurn := true;
      moveHistory := [];
      selectedPosition := None;
      gameOver := false;
      gameResult := None;
      ai := new Greedy.ChessAI();
      advancedAILevel := 0;
      aiEnabled := false;
      aiSupreme := false;
      halfmoveClock := 0;
      positionCount := map[];
    }

    method SetAdvancedAILevel(level: int)
      requires Valid()
      modifies this
      ensures Valid() && board == old(board) && moveHistory == old(moveHistory) && State() == old(State())
      ensures Settings() == (aiEnabled, aiSupreme, level) && aiEnabled == old(aiEnabled) && aiSupreme == old(aiSupreme)
    {
      advancedAILevel := level;
    }

    method SetAIEnabled(enabled: bool)
      requires Valid()
      modifies this
      ensures Valid() && board == old(board) && moveHistory == old(moveHistory) && State() == old(State())
      ensures aiEnabled == enabled && aiSupreme == old(aiSupreme) && advancedAILevel == old(advancedAILevel)
    {
      aiEnabled := enabled;
    }

    /** setAISupremeMode: the flag, and the difficulty set to 10 (clamped to 3) when switched on. */
    method SetAISupremeMode(enabled: bool)
      requires Valid()
      modifies this, ai
      ensures Valid() && board == old(board) && moveHistory == old(moveHistory) && State() == old(State())
      ensures aiSupreme == enabled && aiEnabled == old(aiEnabled) && advancedAILevel == old(advancedAILevel)
      ensures ai.difficulty == if enabled then 3 else old(ai.difficulty)
    {
      aiSupreme := enabled;
      if enabled {
        ai.SetDifficulty(10);
      }
    }

    method SetAIDifficulty(difficulty: int)
      requires Valid()
      modifies ai
      ensures Valid() && ai.difficulty == Greedy.ClampDifficulty(difficulty)
    {
      ai.SetDifficulty(difficulty);
    }

    /** selectPiece: a square holding a piece of the side to move becomes the selection; anything else clears it. */
    method SelectPiece(position: Pos) returns (selected: bool)
      requires Valid()
      modifies this
      ensures Valid() && board == old(board) && moveHistory == old(moveHistory) && Settings() == old(Settings())
      ensures selected <==> At(board.Snap(), position).Some? && At(board.Snap(), position).value.white == isWhiteTurn
      ensures State() == old(State()).(selected := if selected then Some(position) else None)
    {
      var piece := board.GetPieceAt(position);
      if piece == null || piece.isWhite != isWhiteTurn {
        selectedPosition := None;
        selected := false;
      } else {
        selectedPosition := Some(position);
        selected := true;
      }
    }

    /** isKingInCheck(isWhite), on the game's board. */
    method IsKingInCheck(isWhite: bool, attacks: AttackOracle) returns (r: bool)
      requires Valid()
      ensures r == KingInCheck(board.Snap(), isWhite, attacks)
    {
      r := KingInCheckOn(board, board.Snap(), isWhite, attacks);
    }

    /** hasLegalMoves: the scan of findAnyLegalMove, without skipping king captures, finds a move. */
    method HasLegalMoves(isWhite: bool, attacks: AttackOracle) returns (r: bool)
      requires Valid()
      ensures r == Legality.HasLegalMoves(board.Snap(), isWhite, attacks)
    {
      var move := FirstSafeMove(board, board.Snap(), isWhite, false, attacks);
      r := move != null;
    }

    method IsCheckmate(isWhite: bool, attacks: AttackOracle) returns (r: bool)
      requires Valid()
      ensures r == Checkmated(board.Snap(), isWhite, attacks)
    {
      var check := IsKingInCheck(isWhite, attacks);
      if !check {
        r := false;
      } else {
        var legal := HasLegalMoves(isWhite, attacks);
        r := !legal;
      }
    }

    method IsStalemate(isWhite: bool, attacks: AttackOracle) returns (r: bool)
      requires Valid()
      ensures r == Stalemated(board.Snap(), isWhite, attacks)
    {
      var check := IsKingInCheck(isWhite, attacks);
      if check {
        r := false;
      } else {
        var legal := HasLegalMoves(isWhite, attacks);
        r := !legal;
      }
    }

    /** findAnyLegalMove: the first generated move that takes no king and keeps the own king safe. */
    method FindAnyLegalMove(isWhite: bool, attacks: AttackOracle) returns (move: Moves.Move?)
      requires Valid()
      ensures var any := AnyLegalMove(board.Snap(), isWhite, attacks);
                && (move == null <==> any.None?)
                && (move != null ==> fresh(move) && Record(move) == any.value)
    {
      move := FirstSafeMove(board, board.Snap(), isWhite, true, attacks);
    }

    /** generatePositionKey. */
    method GeneratePositionKey() returns (key: string)
      requires Valid()
      ensures key == PositionKey(board.Snap(), isWhiteTurn)
    {
      ghost var s := board.Snap();
      key := "";
      for row := 0 to 8
        invariant key == BoardKey(s, row)
      {
        var part := RowKeyOn(board, s, row);
        key := key + part;
      }
      var ep := board.enPassantTarget;
      key := key + (if ep.Some? then ep.value.ToString() else "null");
      key := key + (if isWhiteTurn then "W" else "B");
    }

    method IsThreefoldRepetition() returns (r: bool)
      requires Valid()
      ensures r == Repeated(board.Snap(), isWhiteTurn, positionCount)
    {
      var currentKey := GeneratePositionKey();
      r := Count(positionCount, currentKey) >= 3;
    }

    /** The tests of checkGameEnd, in its order, for the side to move. */
    method GameEnd(attacks: AttackOracle) returns (e: Option<Outcome>)
      requires Valid()
      ensures e == EndOf(board.Snap(), isWhiteTurn, halfmoveClock, positionCount, attacks)
    {
      var mate := IsCheckmate(isWhiteTurn, attacks);
      if mate {
        return Some(Checkmate(!isWhiteTurn));
      }
      var stale := IsStalemate(isWhiteTurn, attacks);
      if stale {
        return Some(Stalemate);
      }
      if halfmoveClock >= 50 {
        return Some(FiftyMoveRule);
      }
      var repeated := IsThreefoldRepetition();
      e := if repeated then Some(Repetition) else None;
    }

    /** checkGameEnd: the game is over, with that result, when one of the tests holds. */
    method CheckGameEnd(attacks: AttackOracle)
      requires Valid()
      modifies this
      ensures Valid() && board == old(board) && moveHistory == old(moveHistory) && Settings() == old(Settings())
      ensures State() == Ended(old(State()), attacks)
    {
      var e := GameEnd(attacks);
      if e.Some? {
        gameOver := true;
        gameResult := e;
      }
    }

    /** updateGameStateCounters. */
    method UpdateGameStateCounters(move: Moves.Move)
      requires Valid()
      modifies this
      ensures Valid() && board == old(board) && moveHistory == old(moveHistory) && Settings() == old(Settings())
      ensures State() == Counted(old(State()), Record(move))
    {
      var clock, counts := CountersAfter(move);
      halfmoveClock, positionCount := clock, counts;
    }

    /** The two counters updateGameStateCounters stores: the reset or advanced clock, and the count of the key raised by one. */
    method CountersAfter(move: Moves.Move) returns (clock: int, counts: map<string, int>)
      requires Valid()
      ensures var r := Counted(State(), Record(move)); clock == r.halfmoves && counts == r.counts
    {
      clock := if move.pieceMoved.kind == Pawn || move.pieceCaptured != null then 0 else halfmoveClock + 1;
      var positionKey := GeneratePositionKey();
      counts := positionCount[positionKey := Count(positionCount, positionKey) + 1];
    }

    /** handleEnPassantPreMove (the source passes move.getPieceMoved() as the piece). */
    method HandleEnPassantPreMove(move: Moves.Move)
      requires Valid()
      modifies board
      ensures Valid() && board.squares == old(board.squares) && board.Footprint == old(board.Footprint)
      ensures board.Snap() == EnPassantMarked(old(board.Snap()), Record(move))
    {
      board.SetEnPassantTarget(None);
      if move.pieceMoved.kind == Pawn {
        var rowDiff := Abs(move.to.row - move.from.row);
        var colDiff := Abs(move.to.col - move.from.col);
        if colDiff == 0 && rowDiff == 2 {
          var midRow := Half(move.from.row + move.to.row);
          board.SetEnPassantTarget(Some(Pos(midRow, move.from.col)));
        }
      }
    }

    /** handleEnPassantPostMove (the source passes move.getPieceMoved() as the piece). */
    method HandleEnPassantPostMove(move: Moves.Move)
      requires Valid()
      modifies board.squares, move
      ensures Valid() && Record(move) == old(Record(move))
      ensures board.Snap() == EnPassantTaken(old(board.Snap()), Record(move))
      ensures move.isEnPassant == (old(move.isEnPassant) || TakesEnPassant(old(board.Snap()), Record(move)))
      ensures move.isCastling == old(move.isCastling) && move.promotionPiece == old(move.promotionPiece)
    {
      if move.pieceMoved.kind == Pawn && move.pieceCaptured == null {
        var rowDiff := Abs(move.to.row - move.from.row);
        var colDiff := Abs(move.to.col - move.from.col);
        if rowDiff == 1 && colDiff == 1 {
          var direction := if move.pieceMoved.isWhite then 1 else -1;
          var capturedPos := Pos(move.to.row + direction, move.to.col);
          var maybePawn := board.GetPieceAt(capturedPos);
          if maybePawn != null && maybePawn.kind == Pawn && maybePawn.isWhite != move.pieceMoved.isWhite {
            board.RemovePieceAt(capturedPos);
            move.SetEnPassant(true);
          }
        }
      }
    }

    /** handleCastling: the rook of that side jumps next to the king's square of departure. */
    method HandleCastling(move: Moves.Move)
      requires Valid()
      modifies board, board.squares, board.Footprint, move
      ensures fresh(board.Footprint - old(board.Footprint))
      ensures Valid() && board.squares == old(board.squares) && Record(move) == old(Record(move))
      ensures board.Snap() == MoveOn(old(board.Snap()), RookFrom(Record(move)), RookTo(Record(move)))
      ensures move.isCastling && move.isEnPassant == old(move.isEnPassant) && move.promotionPiece == old(move.promotionPiece)
    {
      var direction := if move.to.col > move.from.col then 1 else -1;
      var rookFrom := Pos(move.from.row, if direction > 0 then 7 else 0);
      var rookTo := Pos(move.from.row, move.from.col + direction);
      board.MovePiece(rookFrom, rookTo);
      move.SetCastling(true);
    }

    /** handlePawnPromotion: a new queen of the mover's colour on the destination. */
    method HandlePawnPromotion(move: Moves.Move)
      requires Valid()
      modifies board, board.squares, move
      ensures fresh(board.Footprint - old(board.Footprint))
      ensures Valid() && board.squares == old(board.squares) && Record(move) == old(Record(move))
      ensures board.Snap() == SetAt(old(board.Snap()), move.to, Some(Cell(Queen, move.pieceMoved.isWhite, false)))
      ensures move.promotionPiece != null && fresh(move.promotionPiece)
      ensures move.promotionPiece.kind == Queen && move.promotionPiece.isWhite == move.pieceMoved.isWhite
      ensures move.isCastling == old(move.isCastling) && move.isEnPassant == old(move.isEnPassant)
    {
      var newQueen := new Piece(Queen, move.pieceMoved.isWhite, move.to);
      board.SetPieceAt(move.to, newQueen);
      move.SetPromotionPiece(newQueen);
    }

    /** handleSpecialMoves. */
    method HandleSpecialMoves(move: Moves.Move)
      requires Valid()
      modifies board, board.squares, board.Footprint, move
      ensures fresh(board.Footprint - old(board.Footprint))
      ensures Valid() && board.squares == old(board.squares) && Record(move) == old(Record(move))
      ensures board.Snap() == Special(old(board.Snap()), Record(move))
      ensures move.isCastling == (old(move.isCastling) || Castles(Record(move)))
      ensures move.isEnPassant == old(move.isEnPassant)
      ensures Promotes(Record(move)) ==>
                move.promotionPiece != null && move.promotionPiece.kind == Queen && move.promotionPiece.isWhite == move.pieceMoved.isWhite
      ensures !Promotes(Record(move)) ==> move.promotionPiece == old(move.promotionPiece)
    {
      ghost var m := Record(move);
      ghost var s := board.Snap();
      if move.pieceMoved.kind == King && Abs(move.to.col - move.from.col) == 2 {
        HandleCastling(move);
      }
      if move.pieceMoved.kind == Pawn {
        var promotionRow := if move.pieceMoved.isWhite then 0 else 7;
        if move.to.row == promotionRow {
          HandlePawnPromotion(move);
        }
      }
    }

    /** executeMove. */
    method ExecuteMove(move: Moves.Move)
      requires Valid()
      modifies board, board.squares, board.Footprint, move
      ensures fresh(board.Footprint - old(board.Footprint))
      ensures Valid() && board.squares == old(board.squares) && Record(move) == old(Record(move))
      ensures board.Snap() == Executed(old(board.Snap()), Record(move))
      ensures move.isCastling == (old(move.isCastling) || Castles(Record(move)))
      ensures move.isEnPassant == old(move.isEnPassant)
      ensures Promotes(Record(move)) ==>
                move.promotionPiece != null && move.promotionPiece.kind == Queen && move.promotionPiece.isWhite == move.pieceMoved.isWhite
      ensures !Promotes(Record(move)) ==> move.promotionPiece == old(move.promotionPiece)
    {
      board.MovePiece(move.from, move.to);
      HandleSpecialMoves(move);
    }

    /** The board side of makeMove: handleEnPassantPreMove, executeMove, handleEnPassantPostMove. */
    method PlayOnBoard(move: Moves.Move)
      requires Valid()
      requires !move.isCastling && !move.isEnPassant && move.promotionPiece == null
      modifies board, board.squares, board.Footprint, move
      ensures fresh(board.Footprint - old(board.Footprint)) && board.squares == old(board.squares)
      ensures Valid() && Record(move) == old(Record(move))
      ensures board.Snap() == Played(old(board.Snap()), Record(move))
      ensures FlagsOf(move, old(board.Snap()), Record(move))
    {
      ghost var s := board.Snap();
      ghost var m := Record(move);
      HandleEnPassantPreMove(move);
      ExecuteMove(move);
      HandleEnPassantPostMove(move);
    }

    /** The checks at the head of makeMove, and the Move it builds. */
    method ValidatedMove(to: Pos, attacks: AttackOracle) returns (move: Moves.Move?)
      requires Valid()
      ensures move == null <==> !Accepts(board.Snap(), selectedPosition, gameOver, to, attacks)
      ensures move != null ==>
                && fresh(move) && Record(move) == Proposed(board.Snap(), selectedPosition.value, to)
                && !move.isCastling && !move.isEnPassant && move.promotionPiece == null
    {
      ghost var s := board.Snap();
      move := null;
      if selectedPosition.Some? && !gameOver {
        var piece := board.GetPieceAt(selectedPosition.value);
        if piece != null {
          StandingWalkable(s, piece);
          var valid := IsValidMove(piece, board, to, attacks);
          if valid {
            var candidate := new Moves.Move(selectedPosition.value, to, piece);
            var capturedPiece := board.GetPieceAt(to);
            if capturedPiece != null {
              candidate.SetPieceCaptured(capturedPiece);
            }
            if capturedPiece == null || capturedPiece.kind != King {
              var check := WouldCheckOn(board, s, candidate.from, candidate.to, candidate.pieceMoved.isWhite, attacks);
              if !check {
                move := candidate;
              }
            }
          }
        }
      }
    }

    /** The rest of makeMove once the move is accepted, up to and including checkGameEnd. */
    method Commit(move: Moves.Move, attacks: AttackOracle)
      requires Valid()
      requires !move.isCastling && !move.isEnPassant && move.promotionPiece == null
      modifies this, board, board.squares, board.Footprint, move
      ensures fresh(board.Footprint - old(board.Footprint)) && board.squares == old(board.squares)
      ensures Valid() && board == old(board) && Settings() == old(Settings())
      ensures Record(move) == old(Record(move)) && FlagsOf(move, old(board.Snap()), Record(move))
      ensures State() == HumanCommit(old(State()), Record(move), attacks)
      ensures moveHistory == old(moveHistory) + [move]
    {
      PlayOnBoard(move);
      Advance(move, attacks);
    }

    /** The part of makeMove after executeMove and the en-passant hooks. */
    method Advance(move: Moves.Move, attacks: AttackOracle)
      requires Valid()
      modifies this
      ensures Valid() && board == old(board) && Settings() == old(Settings())
      ensures State() == Advanced(old(State()), Record(move), attacks)
      ensures moveHistory == old(moveHistory) + [move]
    {
      UpdateGameStateCounters(move);
      selectedPosition := None;
      PassTurn(move, attacks);
    }

    /** The history gains the move, the turn passes, and checkGameEnd runs. */
    method PassTurn(move: Moves.Move, attacks: AttackOracle)
      requires Valid()
      modifies this
      ensures Valid() && board == old(board) && Settings() == old(Settings())
      ensures State() == TurnPassed(old(State()), attacks)
      ensures moveHistory == old(moveHistory) + [move]
    {
      moveHistory, isWhiteTurn := moveHistory + [move], !isWhiteTurn;
      CheckGameEnd(attacks);
    }

    /** The dispatch at the head of makeAIMove. */
    method EngineMove(attacks: AttackOracle, roll: real, pick: nat) returns (aiMove: Moves.Move?)
      requires Valid()
      ensures var c := EngineChoice(board.Snap(), isWhiteTurn, advancedAILevel, ai.difficulty, attacks, roll, pick);
                && (aiMove == null <==> c.None?)
                && (aiMove != null ==> fresh(aiMove) && Record(aiMove) == c.value)
    {
      if advancedAILevel == 1 {
        aiMove := Suprema.ChooseBestMove(board, board.Snap(), false, attacks);
      } else if advancedAILevel == 2 {
        aiMove := Nivel8.ChooseBestMove(board, board.Snap(), false, attacks);
      } else {
        aiMove := ai.MakeBestMove(board, board.Snap(), isWhiteTurn, attacks, roll, pick);
      }
    }

    /** The engine's answer, replaced by findAnyLegalMove(false) when it takes a king or leaves the black king in check. */
    method ChooseAIMove(attacks: AttackOracle, roll: real, pick: nat) returns (move: Moves.Move?)
      requires Valid()
      ensures var r := AIReply(State(), advancedAILevel, ai.difficulty, attacks, roll, pick);
                && (move == null <==> r.None?)
                && (move != null ==> fresh(move) && Record(move) == r.value)
    {
      var aiMove := EngineMove(attacks, roll, pick);
      if aiMove == null {
        return null;
      }
      var target := board.GetPieceAt(aiMove.to);
      var capturesKing := target != null && target.kind == King;
      var putsOwnKingInCheck := WouldCheckOn(board, board.Snap(), aiMove.from, aiMove.to, aiMove.pieceMoved.isWhite, attacks);
      move := aiMove;
      if capturesKing || putsOwnKingInCheck {
        move := FindAnyLegalMove(false, attacks);
      }
    }

    /** executeMove of the AI's move, the history, the turn back to the player, checkGameEnd. */
    method CommitAIMove(move: Moves.Move, attacks: AttackOracle)
      requires Valid()
      modifies this, board, board.squares, board.Footprint, move
      ensures fresh(board.Footprint - old(board.Footprint)) && board.squares == old(board.squares)
      ensures Valid() && board == old(board) && Settings() == old(Settings())
      ensures Record(move) == old(Record(move))
      ensures State() == AICommit(old(State()), Record(move), attacks)
      ensures moveHistory == old(moveHistory) + [move] && isWhiteTurn == !old(isWhiteTurn)
    {
      ExecuteMove(move);
      PassTurn(move, attacks);
    }

    /**
     * makeAIMove, black to move.  The recursive call at its end is never
     * taken: the AI's move hands the turn to white, and shouldMakeMove then fails.
     */
    method MakeAIMove(attacks: AttackOracle, roll: real, pick: nat)
      requires Valid() && !isWhiteTurn
      modifies this, board, board.squares, board.Footprint
      ensures fresh(board.Footprint - old(board.Footprint)) && board.squares == old(board.squares)
      ensures Valid() && board == old(board) && Settings() == old(Settings())
      ensures var r := old(AIReply(State(), advancedAILevel, ai.difficulty, attacks, roll, pick));
                && (r.None? ==> State() == old(State()) && moveHistory == old(moveHistory))
                && (r.Some? ==> State() == AICommit(old(State()), r.value, attacks) &&
                                |moveHistory| == |old(moveHistory)| + 1 && moveHistory[..|old(moveHistory)|] == old(moveHistory) &&
                                Record(moveHistory[|old(moveHistory)|]) == r.value)
    {
      var move := ChooseAIMove(attacks, roll, pick);
      if move != null {
        CommitAIMove(move, attacks);
        assert !(aiEnabled && Greedy.ShouldMakeMove(isWhiteTurn, gameOver));
      }
    }

    /**
     * makeMove(to): false, with nothing changed, unless the move is accepted;
     * otherwise the move is played and, when the AI is on and black is to
     * move in a game not over, the AI answers.
     */
    method MakeMove(to: Pos, attacks: AttackOracle, roll: real, pick: nat) returns (ok: bool)
      requires Valid()
      modifies this, board, board.squares, board.Footprint
      ensures fresh(board.Footprint - old(board.Footprint)) && board.squares == old(board.squares)
      ensures Valid() && board == old(board) && Settings() == old(Settings())
      ensures ok == old(Accepts(board.Snap(), selectedPosition, gameOver, to, attacks))
      ensures !ok ==> State() == old(State()) && moveHistory == old(moveHistory)
      ensures ok ==>
                var m := old(Proposed(board.Snap(), selectedPosition.value, to));
                var st := HumanCommit(old(State()), m, attacks);
                var r := Reply(st, aiEnabled, advancedAILevel, ai.difficulty, attacks, roll, pick);
                var n := |old(moveHistory)|;
                && State() == Answered(st, r, attacks)
                && |moveHistory| == n + (if r.Some? then 2 else 1) && moveHistory[..n] == old(moveHistory)
                && Record(moveHistory[n]) == m && FlagsOf(moveHistory[n], old(board.Snap()), m)
                && (r.Some? ==> Record(moveHistory[n + 1]) == r.value)
    {
      var move := ValidatedMove(to, attacks);
      ok := move != null;
      if ok {
        Play(move, old(Proposed(board.Snap(), selectedPosition.value, to)), attacks, roll, pick);
      }
    }

    /** makeMove once the move is accepted: Commit, then the AI's answer. */
    method Play(move: Moves.Move, ghost m: Ply, attacks: AttackOracle, roll: real, pick: nat)
      requires Valid() && Record(move) == m
      requires !move.isCastling && !move.isEnPassant && move.promotionPiece == null
      modifies this, board, board.squares, board.Footprint, move
      ensures fresh(board.Footprint - old(board.Footprint)) && board.squares == old(board.squares)
      ensures Valid() && board == old(board) && Settings() == old(Settings())
      ensures var st := HumanCommit(old(State()), m, attacks);
              var r := Reply(st, aiEnabled, advancedAILevel, ai.difficulty, attacks, roll, pick);
              var n := |old(moveHistory)|;
                && State() == Answered(st, r, attacks)
                && |moveHistory| == n + (if r.Some? then 2 else 1) && moveHistory[..n] == old(moveHistory)
                && moveHistory[n] == move && Record(move) == m && FlagsOf(move, old(board.Snap()), m)
                && (r.Some? ==> Record(moveHistory[n + 1]) == r.value)
    {
      ghost var before := moveHistory;
      Commit(move, attacks);
      ghost var st := State();
      ghost var r := Reply(st, aiEnabled, advancedAILevel, ai.difficulty, attacks, roll, pick);
      Answer(attacks, roll, pick);
      PrefixSnoc(moveHistory, before, move);
    }

    /** The end of makeMove: makeAIMove, when the AI is on and shouldMakeMove holds. */
    method Answer(attacks: AttackOracle, roll: real, pick: nat)
      requires Valid()
      modifies this, board, board.squares, board.Footprint
      ensures fresh(board.Footprint - old(board.Footprint)) && board.squares == old(board.squares)
      ensures Valid() && board == old(board) && Settings() == old(Settings())
      ensures var r := old(Reply(State(), aiEnabled, advancedAILevel, ai.difficulty, attacks, roll, pick));
              var n := |old(moveHistory)|;
                && State() == Answered(old(State()), r, attacks)
                && |moveHistory| == n + (if r.Some? then 1 else 0) && moveHistory[..n] == old(moveHistory)
                && (r.Some? ==> Record(moveHistory[n]) == r.value)
    {
      if aiEnabled && Greedy.ShouldMakeMove(isWhiteTurn, gameOver) {
        MakeAIMove(attacks, roll, pick);
      }
    }

    /** getPossibleMovesForSelected. */
    method GetPossibleMovesForSelected(attacks: AttackOracle) returns (legalMoves: seq<Pos>)
      requires Valid()
      ensures legalMoves == Selectable(board.Snap(), selectedPosition, attacks)
    {
      legalMoves := [];
      if selectedPosition.Some? {
        var piece := board.GetPieceAt(selectedPosition.value);
        if piece != null {
          ghost var s := board.Snap();
          StandingWalkable(s, piece);
          var possibleMoves := PossibleMoves(piece, board, attacks);
          ghost var keep := KeepTest(s, piece.position, piece.isWhite, true, attacks);
          for i := 0 to |possibleMoves|
            invariant board.Valid() && board.Snap() == s
            invariant legalMoves == Filter(possibleMoves[..i], keep)
          {
            var testMove := TryTarget(board, s, piece, possibleMoves[i], true, attacks);
            FilterSnoc(possibleMoves, keep, i);
            if testMove != null {
              legalMoves := legalMoves + [possibleMoves[i]];
            }
          }
          assert possibleMoves[..|possibleMoves|] == possibleMoves;
        }
      }
    }

    /** resetGame: a new board and the initial state; the history is emptied; the AI settings stay. */
    method ResetGame()
      requires Valid()
      modifies this
      ensures Valid() && fresh(board)
      ensures State() == InitialState() && moveHistory == [] && Settings() == old(Settings())
    {
      board := new Board();
      isWhiteTurn := true;
      moveHistory := [];
      selectedPosition := None;
      gameOver := false;
      gameResult := None;
      halfmoveClock := 0;
      positionCount := map[];
    }
  }

  /** The inner loop of generatePositionKey over row `row`. */
  method RowKeyOn(board: Board, ghost s: Snapshot, row: int) returns (part: string)
    requires board.Valid() && board.Snap() == s && 0 <= row < 8
    ensures part == RowKey(s, row, 8)
  {
    part := "";
    for col := 0 to 8
      invariant part == RowKey(s, row, col)
    {
      var piece := board.GetPieceAt(Pos(row, col));
      part := part + (if piece == null then "." else Symbol(piece.kind, piece.isWhite));
    }
  }
}
