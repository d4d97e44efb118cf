/**
 * IANivel8: negamax with alpha-beta pruning and a captures-only quiescence
 * search.  The side to move is `cor` in the engine (1 for white, -1 for
 * black); here it is the flag `white`, with `-cor` the flag negated.  Every
 * negation of a score or a window bound is Java's 32-bit negation, Neg32.
 */
module Nivel8 {
  import opened Wrappers
  import opened Pieces
  import opened Boards
  import opened Scans
  import opened Evaluation
  import opened Picks
  import Search
  import Moves

  /** PROFUNDIDADE_MAXIMA. */
  const MaxDepth: nat := 3

  /**
   * The tree negamax walks: all generated moves, the capture moves of
   * getCaptureMoves, avaliarTabuleiro with the instanceof piece values, and
   * the piece count, which every capture lowers.
   */
  function ChessTree(attacks: AttackOracle): Search.Tree<Snapshot> {
    Search.Tree((p: Snapshot, white: bool) => if WellFormed(p) then Successors(p, AllPlies(p, white, attacks)) else [],
                (p: Snapshot, white: bool) => if WellFormed(p) then Successors(p, AllCaptures(p, white, attacks)) else [],
                (p: Snapshot, white: bool) => Evaluation32(p, white, Basic, attacks),
                (p: Snapshot) => PieceCount(p))
  }

  /** Every capture removes a piece, so quiescence terminates. */
  lemma TreeShrinks(attacks: AttackOracle)
    ensures Search.Shrinks(ChessTree(attacks))
  {
    var t := ChessTree(attacks);
    forall p: Snapshot, white: bool, c: Snapshot | c in t.captures(p, white) ensures t.size(c) < t.size(p) {
      var caps := AllCaptures(p, white, attacks);
      var k :| 0 <= k < |caps| && c == Successors(p, caps)[k];
      assert caps[k] in caps;
      CaptureShrinks(p, white, attacks, caps[k]);
    }
  }

  // ---- the searches of the model over the chess tree ----

  /** cor * avaliarTabuleiro(board, cor == 1). */
  function Stand(attacks: AttackOracle, s: Snapshot, white: bool): Search.Score {
    Search.Signed(white, Evaluation32(s, white, Basic, attacks))
  }

  /** quiescence(board, cor, alfa, beta). */
  function Quiesce(attacks: AttackOracle, s: Snapshot, white: bool, alfa: Search.I32, beta: Search.I32): Search.I32 {
    TreeShrinks(attacks);
    Search.Quiescence(ChessTree(attacks), s, white, alfa, beta)
  }

  /** The capture loop of quiescence from the i-th capture on. */
  function CaptureLoop(attacks: AttackOracle, s: Snapshot, white: bool, i: nat, alfa: Search.I32, beta: Search.I32): Search.I32
    requires WellFormed(s) && i <= |AllCaptures(s, white, attacks)|
  {
    TreeShrinks(attacks);
    Search.QLoop(ChessTree(attacks), s, white, i, alfa, beta)
  }

  /** negamax(board, depth, cor, alfa, beta). */
  function Nega(attacks: AttackOracle, s: Snapshot, depth: nat, white: bool, alfa: Search.I32, beta: Search.I32): Search.I32 {
    TreeShrinks(attacks);
    Search.Negamax(ChessTree(attacks), s, depth, white, alfa, beta)
  }

  /** The move loop of negamax over the positions cs, from the i-th on. */
  function MoveLoop(attacks: AttackOracle, cs: seq<Snapshot>, i: nat, d: nat, white: bool, alfa: Search.I32, beta: Search.I32,
                    valorMax: Search.I32): Search.I32
    requires i <= |cs|
  {
    TreeShrinks(attacks);
    Search.NegaLoop(ChessTree(attacks), cs, i, d, white, alfa, beta, valorMax)
  }

  /** quiescence: beta when the stand-pat score reaches it, else the capture loop from alfa raised to it. */
  lemma QuiesceUnfold(attacks: AttackOracle, s: Snapshot, white: bool, alfa: Search.I32, beta: Search.I32)
    requires WellFormed(s)
    ensures var stand := Stand(attacks, s, white);
      Quiesce(attacks, s, white, alfa, beta) ==
        if stand >= beta then beta else CaptureLoop(attacks, s, white, 0, if stand > alfa then stand else alfa, beta)
  {
  }

  /** The capture loop after the last capture answers alfa. */
  lemma CaptureLoopEnd(attacks: AttackOracle, s: Snapshot, white: bool, alfa: Search.I32, beta: Search.I32)
    requires WellFormed(s)
    ensures CaptureLoop(attacks, s, white, |AllCaptures(s, white, attacks)|, alfa, beta) == alfa
  {
  }

  /** One step of the capture loop, with the capture's quiescence result e. */
  lemma CaptureLoopAt(attacks: AttackOracle, s: Snapshot, white: bool, i: nat, alfa: Search.I32, beta: Search.I32, e: Search.I32)
    requires WellFormed(s) && i < |AllCaptures(s, white, attacks)|
    requires e == Quiesce(attacks, Successors(s, AllCaptures(s, white, attacks))[i], !white, Search.Neg32(beta), Search.Neg32(alfa))
    ensures var valor := Search.Neg32(e);
      CaptureLoop(attacks, s, white, i, alfa, beta) ==
        if valor >= beta then beta else CaptureLoop(attacks, s, white, i + 1, if valor > alfa then valor else alfa, beta)
  {
    var cs := ChessTree(attacks).captures(s, white);
    assert cs[i] in cs;
  }

  /** negamax at depth 0 is quiescence. */
  lemma NegaLeaf(attacks: AttackOracle, s: Snapshot, white: bool, alfa: Search.I32, beta: Search.I32)
    ensures Nega(attacks, s, 0, white, alfa, beta) == Quiesce(attacks, s, white, alfa, beta)
  {
  }

  /** negamax without moves is the stand-pat score. */
  lemma NegaEmpty(attacks: AttackOracle, s: Snapshot, depth: nat, white: bool, alfa: Search.I32, beta: Search.I32)
    requires WellFormed(s) && depth > 0 && AllPlies(s, white, attacks) == []
    ensures Nega(attacks, s, depth, white, alfa, beta) == Stand(attacks, s, white)
  {
  }

  /** negamax with moves is the move loop over the simulated positions, from MIN_VALUE. */
  lemma NegaInner(attacks: AttackOracle, s: Snapshot, depth: nat, white: bool, alfa: Search.I32, beta: Search.I32, plies: seq<Ply>)
    requires WellFormed(s) && depth > 0 && plies == AllPlies(s, white, attacks) && plies != []
    ensures Nega(attacks, s, depth, white, alfa, beta) == MoveLoop(attacks, Successors(s, plies), 0, depth - 1, white, alfa, beta, Search.MIN)
  {
  }

  /** One step of the move loop, with the child's negamax result e. */
  lemma MoveLoopAt(attacks: AttackOracle, cs: seq<Snapshot>, i: nat, d: nat, white: bool, alfa: Search.I32, beta: Search.I32,
                   valorMax: Search.I32, e: Search.I32)
    requires i < |cs| && e == Nega(attacks, cs[i], d, !white, Search.Neg32(beta), Search.Neg32(alfa))
    ensures var valor := Search.Neg32(e);
      var m := if valor > valorMax then valor else valorMax;
      var a := if m > alfa then m else alfa;
      MoveLoop(attacks, cs, i, d, white, alfa, beta, valorMax) ==
        if a >= beta then m else MoveLoop(attacks, cs, i + 1, d, white, a, beta, m)
  {
  }

  // ---- quiescence and negamax on the board ----

  /** cor * avaliarTabuleiro(board, cor == 1) on the board. */
  method StandOn(board: Board, ghost s: Snapshot, isWhite: bool, attacks: AttackOracle) returns (r: Search.I32)
    requires board.Valid() && board.Snap() == s
    ensures board.Valid() && board.Snap() == s
    ensures r == Stand(attacks, s, isWhite)
  {
    var cor := if isWhite then 1 else -1;
    var e := Evaluate(board, s, isWhite, Basic, attacks);
    EvaluationBound(s, isWhite, Basic, attacks);
    r := cor * e;
  }

  /** quiescence(board, cor, alfa, beta) on the board, equal to the search of the model. */
  method QuiescenceOn(board: Board, ghost s: Snapshot, isWhite: bool, alfa: Search.I32, beta: Search.I32, attacks: AttackOracle)
    returns (r: Search.I32)
    requires board.Valid() && board.Snap() == s
    ensures board.Valid() && board.Snap() == s
    ensures r == Quiesce(attacks, s, isWhite, alfa, beta)
    decreases PieceCount(s), 3
  {
    var avaliacao := StandOn(board, s, isWhite, attacks);
    QuiesceUnfold(attacks, s, isWhite, alfa, beta);
    if avaliacao >= beta {
      r := beta;
    } else {
      r := CaptureSearch(board, s, isWhite, if avaliacao > alfa then avaliacao else alfa, beta, attacks);
    }
  }

  /**
   * The capture loop of quiescence: alfa is raised to each negated capture
   * score, and beta is answered as soon as one reaches it.
   */
  method CaptureSearch(board: Board, ghost s: Snapshot, isWhite: bool, alfa0: Search.I32, beta: Search.I32, attacks: AttackOracle)
    returns (r: Search.I32)
    requires board.Valid() && board.Snap() == s
    ensures board.Valid() && board.Snap() == s
    ensures WellFormed(s) && r == CaptureLoop(attacks, s, isWhite, 0, alfa0, beta)
    decreases PieceCount(s), 2
  {
    var alfa: Search.I32 := alfa0;
    var capturas := CaptureMoves(board, s, isWhite, attacks);
    ghost var caps := Records(capturas);
    for i := 0 to |capturas|
      invariant board.Valid() && board.Snap() == s && Records(capturas) == caps
      invariant CaptureLoop(attacks, s, isWhite, i, alfa, beta) == CaptureLoop(attacks, s, isWhite, 0, alfa0, beta)
    {
      var cut, next := CaptureStep(board, s, capturas, caps, i, isWhite, alfa, beta, attacks);
      if cut {
        return beta;
      }
      alfa := next;
    }
    CaptureLoopEnd(attacks, s, isWhite, alfa, beta);
    r := alfa;
  }

  /**
   * One capture of the loop: cut when the negated quiescence score reaches
   * beta, otherwise alfa raised to it.
   */
  method CaptureStep(board: Board, ghost s: Snapshot, capturas: seq<Moves.Move>, ghost caps: seq<Ply>, i: nat,
                     isWhite: bool, alfa: Search.I32, beta: Search.I32, attacks: AttackOracle) returns (cut: bool, next: Search.I32)
    requires board.Valid() && board.Snap() == s && Records(capturas) == caps && caps == AllCaptures(s, isWhite, attacks)
    requires i < |capturas|
    ensures board.Valid() && board.Snap() == s && Records(capturas) == caps
    ensures cut ==> CaptureLoop(attacks, s, isWhite, i, alfa, beta) == beta
    ensures !cut ==> CaptureLoop(attacks, s, isWhite, i, alfa, beta) == CaptureLoop(attacks, s, isWhite, i + 1, next, beta)
    decreases PieceCount(s), 1
  {
    var e := CaptureScore(board, s, capturas, caps, i, isWhite, alfa, beta, attacks);
    CaptureLoopAt(attacks, s, isWhite, i, alfa, beta, e);
    var valor := Search.Neg32(e);
    cut := valor >= beta;
    next := if valor > alfa then valor else alfa;
  }

  /** The quiescence search of the i-th capture, on a simulated copy, with the window negated. */
  method CaptureScore(board: Board, ghost s: Snapshot, capturas: seq<Moves.Move>, ghost caps: seq<Ply>, i: nat,
                      isWhite: bool, alfa: Search.I32, beta: Search.I32, attacks: AttackOracle) returns (e: Search.I32)
    requires board.Valid() && board.Snap() == s && Records(capturas) == caps && caps == AllCaptures(s, isWhite, attacks)
    requires i < |capturas|
    ensures board.Valid() && board.Snap() == s && Records(capturas) == caps
    ensures e == Quiesce(attacks, Successors(s, caps)[i], !isWhite, Search.Neg32(beta), Search.Neg32(alfa))
    decreases PieceCount(s), 0
  {
    var temp := Child(board, s, capturas, caps, i);
    assert caps[i] in caps;
    CaptureShrinks(s, isWhite, attacks, caps[i]);
    e := QuiescenceOn(temp, Successors(s, caps)[i], !isWhite, Search.Neg32(beta), Search.Neg32(alfa), attacks);
  }

  /** negamax(board, depth, cor, alfa, beta) on the board, equal to the search of the model. */
  method NegamaxOn(board: Board, ghost s: Snapshot, depth: nat, isWhite: bool, alfa: Search.I32, beta: Search.I32, attacks: AttackOracle)
    returns (r: Search.I32)
    requires board.Valid() && board.Snap() == s
    ensures board.Valid() && board.Snap() == s
    ensures r == Nega(attacks, s, depth, isWhite, alfa, beta)
    decreases depth, 4
  {
    if depth == 0 {
      r := QuiescenceOn(board, s, isWhite, alfa, beta, attacks);
      NegaLeaf(attacks, s, isWhite, alfa, beta);
    } else {
      var moves := AllPossibleMoves(board, s, isWhite, attacks);
      r := NegaExpand(board, s, moves, depth, isWhite, alfa, beta, attacks);
    }
  }

  /** negamax below the depth test, once the moves are generated. */
  method NegaExpand(board: Board, ghost s: Snapshot, moves: seq<Moves.Move>, depth: nat, isWhite: bool,
                    alfa: Search.I32, beta: Search.I32, attacks: AttackOracle) returns (r: Search.I32)
    requires board.Valid() && board.Snap() == s && depth > 0 && Records(moves) == AllPlies(s, isWhite, attacks)
    ensures board.Valid() && board.Snap() == s
    ensures r == Nega(attacks, s, depth, isWhite, alfa, beta)
    decreases depth, 3
  {
    ghost var plies := Records(moves);
    if |moves| == 0 {
      r := StandOn(board, s, isWhite, attacks);
      NegaEmpty(attacks, s, depth, isWhite, alfa, beta);
    } else {
      r := NegaNode(board, s, moves, plies, depth, isWhite, alfa, beta, attacks);
    }
  }

  /** negamax at a position with moves: the move loop one level down. */
  method NegaNode(board: Board, ghost s: Snapshot, moves: seq<Moves.Move>, ghost plies: seq<Ply>, depth: nat, isWhite: bool,
                  alfa: Search.I32, beta: Search.I32, attacks: AttackOracle) returns (r: Search.I32)
    requires board.Valid() && board.Snap() == s && depth > 0 && Records(moves) == plies
    requires WellFormed(s) && plies == AllPlies(s, isWhite, attacks) && plies != []
    ensures board.Valid() && board.Snap() == s
    ensures r == Nega(attacks, s, depth, isWhite, alfa, beta)
    decreases depth, 2
  {
    r := NegaSearch(board, s, moves, plies, depth - 1, isWhite, alfa, beta, attacks);
    NegaInner(attacks, s, depth, isWhite, alfa, beta, plies);
  }

  /**
   * The move loop of negamax: valorMax keeps the greatest negated child
   * score, alfa is raised to it, and the loop stops once alfa >= beta.
   */
  method NegaSearch(board: Board, ghost s: Snapshot, moves: seq<Moves.Move>, ghost plies: seq<Ply>, d: nat, isWhite: bool,
                    alfa0: Search.I32, beta: Search.I32, attacks: AttackOracle) returns (valorMax: Search.I32)
    requires board.Valid() && board.Snap() == s && Records(moves) == plies
    ensures board.Valid() && board.Snap() == s
    ensures valorMax == MoveLoop(attacks, Successors(s, plies), 0, d, isWhite, alfa0, beta, Search.MIN)
    decreases d + 1, 1
  {
    ghost var cs := Successors(s, plies);
    valorMax := Search.MIN;
    var alfa: Search.I32 := alfa0;
    for i := 0 to |moves|
      invariant board.Valid() && board.Snap() == s && Records(moves) == plies
      invariant MoveLoop(attacks, cs, i, d, isWhite, alfa, beta, valorMax) == MoveLoop(attacks, cs, 0, d, isWhite, alfa0, beta, Search.MIN)
    {
      var e := NegaChild(board, s, moves, plies, i, d, !isWhite, Search.Neg32(beta), Search.Neg32(alfa), attacks);
      MoveLoopAt(attacks, cs, i, d, isWhite, alfa, beta, valorMax, e);
      var valor := Search.Neg32(e);
      if valor > valorMax {
        valorMax := valor;
      }
      if valorMax > alfa {
        alfa := valorMax;
      }
      if alfa >= beta {
        return;
      }
    }
  }

  /** The negamax search of the i-th child position, on a simulated copy of the board. */
  method NegaChild(board: Board, ghost s: Snapshot, moves: seq<Moves.Move>, ghost plies: seq<Ply>, i: nat, d: nat,
                   isWhite: bool, alfa: Search.I32, beta: Search.I32, attacks: AttackOracle) returns (e: Search.I32)
    requires board.Valid() && board.Snap() == s && Records(moves) == plies && i < |moves|
    ensures board.Valid() && board.Snap() == s && Records(moves) == plies
    ensures e == Nega(attacks, Successors(s, plies)[i], d, isWhite, alfa, beta)
    decreases d + 1, 0
  {
    var temp := Child(board, s, moves, plies, i);
    e := NegamaxOn(temp, Successors(s, plies)[i], d, isWhite, alfa, beta, attacks);
  }

  // ---- chooseBestMove ----

  /** The score chooseBestMove gives a move: -negamax(child, PROFUNDIDADE_MAXIMA - 1, -cor, MIN_VALUE, MAX_VALUE). */
  function RootScore(attacks: AttackOracle, s: Snapshot, white: bool, ply: Ply): Search.I32
    requires WellFormed(s)
  {
    Search.Neg32(Nega(attacks, Simulate(s, ply), MaxDepth - 1, !white, Search.MIN, Search.MAX))
  }

  /** The scores of the moves, in the order of the move list. */
  function RootScores(attacks: AttackOracle, s: Snapshot, white: bool, plies: seq<Ply>): (scores: seq<int>)
    requires WellFormed(s)
    ensures |scores| == |plies|
  {
    seq(|plies|, k requires 0 <= k < |plies| => RootScore(attacks, s, white, plies[k]))
  }

  /** The loop of chooseBestMove: strictly greater scores win, from MIN_VALUE, for either side. */
  function RootChoice(attacks: AttackOracle, s: Snapshot, white: bool, plies: seq<Ply>): Choice
    requires WellFormed(s)
  {
    Pick(RootScores(attacks, s, white, plies), true, Search.MIN)
  }

  /**
   * No root score is MIN_VALUE: down the first line of play the windows
   * (MIN, MAX), (-MAX, MIN) and (MIN, MAX) leave the quiescence bound at
   * MAX_VALUE, so the negated search lies in [-MAX_VALUE, MAX_VALUE].
   */
  lemma RootScoreAboveMin(attacks: AttackOracle, s: Snapshot, white: bool, ply: Ply)
    requires WellFormed(s)
    ensures -Search.MAX <= RootScore(attacks, s, white, ply) <= Search.MAX
  {
    TreeShrinks(attacks);
    assert Search.FirstLineSafe(MaxDepth - 1, Search.MIN, Search.MAX);
    Search.NegamaxAboveMin(ChessTree(attacks), Simulate(s, ply), MaxDepth - 1, !white, Search.MIN, Search.MAX);
  }

  /**
   * The root window wraps.  The root searches the simulated position c under
   * (MIN_VALUE, MAX_VALUE), so c's move loop searches its first reply r under
   * (-MAX_VALUE, -MIN_VALUE), which Java computes as (MIN_VALUE + 1, MIN_VALUE).
   * With MIN_VALUE as its upper bound, r's negamax stops after its first
   * answer: its value is that answer's quiescence, whatever the other answers
   * are worth.  So a root score is in general not the unpruned negamax value.
   */
  lemma RootFirstReplyOnly(attacks: AttackOracle, s: Snapshot, white: bool, ply: Ply)
    requires WellFormed(s)
    requires AllPlies(Simulate(s, ply), !white, attacks) != []
    requires var c := Simulate(s, ply);
      AllPlies(Simulate(c, AllPlies(c, !white, attacks)[0]), white, attacks) != []
    ensures Search.Neg32(Search.MAX) == Search.MIN + 1 && Search.Neg32(Search.MIN) == Search.MIN
    ensures var c := Simulate(s, ply);
      var replies := Successors(c, AllPlies(c, !white, attacks));
      RootScore(attacks, s, white, ply)
        == Search.Neg32(MoveLoop(attacks, replies, 0, MaxDepth - 2, !white, Search.MIN, Search.MAX, Search.MIN))
    ensures var c := Simulate(s, ply);
      var r := Simulate(c, AllPlies(c, !white, attacks)[0]);
      var answers := Successors(r, AllPlies(r, white, attacks));
      Nega(attacks, r, MaxDepth - 2, white, Search.MIN + 1, Search.MIN)
        == Search.Neg32(Quiesce(attacks, answers[0], !white, Search.MIN, Search.MAX))
  {
    TreeShrinks(attacks);
    var c := Simulate(s, ply);
    NegaInner(attacks, c, MaxDepth - 1, !white, Search.MIN, Search.MAX, AllPlies(c, !white, attacks));
    var r := Simulate(c, AllPlies(c, !white, attacks)[0]);
    var answers := Successors(r, AllPlies(r, white, attacks));
    Search.NegamaxFirstOnly(ChessTree(attacks), r, MaxDepth - 2, white, Search.MIN + 1);
    NegaLeaf(attacks, answers[0], !white, Search.MIN, Search.MAX);
  }

  /**
   * What chooseBestMove keeps: a move exactly when there is one, and then the
   * first move whose score is strictly greater than every earlier score and
   * which no later score exceeds.
   */
  lemma RootChoiceSpec(attacks: AttackOracle, s: Snapshot, white: bool, plies: seq<Ply>)
    requires WellFormed(s)
    ensures var c := RootChoice(attacks, s, white, plies);
      && (c.index.Some? <==> plies != [])
      && (c.index.Some? ==>
            var i := c.index.value;
            && i < |plies| && Chosen(plies, c) == Some(plies[i]) && c.score == RootScore(attacks, s, white, plies[i])
            && (forall j | 0 <= j < i :: RootScore(attacks, s, white, plies[j]) < RootScore(attacks, s, white, plies[i]))
            && (forall j | i < j < |plies| :: RootScore(attacks, s, white, plies[j]) <= RootScore(attacks, s, white, plies[i])))
  {
    var scores := RootScores(attacks, s, white, plies);
    var c := Pick(scores, true, Search.MIN);
    PickSpec(scores, true, Search.MIN);
    if plies != [] {
      RootScoreAboveMin(attacks, s, white, plies[0]);
      assert Better(true, scores[0], Search.MIN);
      var i := c.index.value;
      forall j | 0 <= j < i ensures RootScore(attacks, s, white, plies[j]) < RootScore(attacks, s, white, plies[i]) {
        assert Better(true, scores[i], scores[j]);
      }
      forall j | i < j < |plies| ensures RootScore(attacks, s, white, plies[j]) <= RootScore(attacks, s, white, plies[i]) {
        assert !Better(true, scores[j], scores[i]);
      }
    }
  }

  /** The loop of chooseBestMove: a move replaces the one kept only when its score is strictly greater. */
  method KeepBest(board: Board, ghost s: Snapshot, moves: seq<Moves.Move>, ghost plies: seq<Ply>, isWhite: bool, attacks: AttackOracle)
    returns (best: Moves.Move?)
    requires board.Valid() && board.Snap() == s && Records(moves) == plies
    ensures board.Valid() && board.Snap() == s
    ensures var c := RootChoice(attacks, s, isWhite, plies);
      && (c.index.None? ==> best == null)
      && (c.index.Some? ==> c.index.value < |moves| && best == moves[c.index.value])
  {
    ghost var scores := RootScores(attacks, s, isWhite, plies);
    best := null;
    var melhorAvaliacao: int := Search.MIN;
    for i := 0 to |moves|
      invariant board.Valid() && board.Snap() == s
      invariant Records(moves) == plies
      invariant Pick(scores[..i], true, Search.MIN).score == melhorAvaliacao
      invariant Pick(scores[..i], true, Search.MIN).index.None? ==> best == null
      invariant Pick(scores[..i], true, Search.MIN).index.Some? ==>
                  Pick(scores[..i], true, Search.MIN).index.value < i &&
                  best == moves[Pick(scores[..i], true, Search.MIN).index.value]
    {
      var e := NegaChild(board, s, moves, plies, i, MaxDepth - 1, !isWhite, Search.MIN, Search.MAX, attacks);
      var avaliacao := Search.Neg32(e);
      assert avaliacao == scores[i];
      PickStep(scores, i, true, Search.MIN);
      if avaliacao > melhorAvaliacao {
        melhorAvaliacao := avaliacao;
        best := moves[i];
      }
    }
    assert scores[..|moves|] == scores;
  }

  /**
   * chooseBestMove(board, isWhite): null exactly when the side has no move;
   * otherwise the move the loop keeps.
   */
  method ChooseBestMove(board: Board, ghost s: Snapshot, isWhite: bool, attacks: AttackOracle) returns (best: Moves.Move?)
    requires board.Valid() && board.Snap() == s
    ensures board.Valid() && board.Snap() == s
    ensures var plies := AllPlies(s, isWhite, attacks);
      && (best == null <==> plies == [])
      && (best != null ==> fresh(best) && Some(Record(best)) == Chosen(plies, RootChoice(attacks, s, isWhite, plies)))
  {
    var moves := AllPossibleMoves(board, s, isWhite, attacks);
    forall k | 0 <= k < |moves| ensures fresh(moves[k]) { assert moves[k] in moves; }
    if |moves| == 0 {
      return null;
    }
    ghost var plies := Records(moves);
    best := KeepBest(board, s, moves, plies, isWhite, attacks);
    RootChoiceSpec(attacks, s, isWhite, plies);
    RecordsAt(moves, RootChoice(attacks, s, isWhite, plies).index.value);
  }
}
