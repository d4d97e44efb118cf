/**
 * IASuprema: minimax with alpha-beta pruning over the chess positions.
 * chooseBestMove simulates every generated move, searches the resulting
 * position to depth DEFAULT_DEPTH - 1 with the full window, and keeps the
 * first move whose score is strictly best for the side to move (greatest
 * for white, smallest for black).
 */
module Suprema {
  import opened Wrappers
  import opened Pieces
  import opened Boards
  import opened Scans
  import opened Evaluation
  import opened Picks
  import Search
  import Moves

  const DefaultDepth: nat := 3

  /**
   * The game minimax walks: the children of a position are the simulated
   * positions of getAllPossibleMoves, and evaluate uses IASuprema's piece values.
   */
  function ChessGame(attacks: AttackOracle): Search.Game<Snapshot> {
    Search.Game((p: Snapshot, white: bool) => if WellFormed(p) then Successors(p, AllPlies(p, white, attacks)) else [],
                (p: Snapshot, white: bool) => Evaluation32(p, white, Suprema, attacks))
  }

  /** minimax(board, depth, isWhite, alfa, beta) of IASuprema: the search of the model over the chess game. */
  function Score(attacks: AttackOracle, s: Snapshot, depth: nat, white: bool, alfa: Search.I32, beta: Search.I32): Search.I32 {
    Search.Minimax(ChessGame(attacks), s, depth, white, alfa, beta)
  }

  /** The white loop of minimax over the positions cs, from the i-th on. */
  function WhiteLoop(attacks: AttackOracle, cs: seq<Snapshot>, i: nat, d: nat, alfa: Search.I32, beta: Search.I32, maxEval: Search.I32): Search.I32
    requires i <= |cs|
  {
    Search.MaxLoop(ChessGame(attacks), cs, i, d, alfa, beta, maxEval)
  }

  /** The black loop of minimax over the positions cs, from the i-th on. */
  function BlackLoop(attacks: AttackOracle, cs: seq<Snapshot>, i: nat, d: nat, alfa: Search.I32, beta: Search.I32, minEval: Search.I32): Search.I32
    requires i <= |cs|
  {
    Search.MinLoop(ChessGame(attacks), cs, i, d, alfa, beta, minEval)
  }

  /** minimax at depth 0 or without moves: the position is scored for the side to move. */
  lemma MinimaxLeaf(attacks: AttackOracle, s: Snapshot, depth: nat, white: bool, alfa: Search.I32, beta: Search.I32, r: Search.I32)
    requires WellFormed(s) && (depth == 0 || AllPlies(s, white, attacks) == [])
    requires r == Evaluation32(s, white, Suprema, attacks)
    ensures r == Score(attacks, s, depth, white, alfa, beta)
  {
  }

  /** minimax with moves, white to move: the white loop over the simulated positions. */
  lemma MinimaxMax(attacks: AttackOracle, s: Snapshot, depth: nat, alfa: Search.I32, beta: Search.I32, plies: seq<Ply>)
    requires WellFormed(s) && depth > 0 && plies == AllPlies(s, true, attacks) && plies != []
    ensures Score(attacks, s, depth, true, alfa, beta) ==
            WhiteLoop(attacks, Successors(s, plies), 0, depth - 1, alfa, beta, Search.MIN)
  {
  }

  /** minimax with moves, black to move: the black loop over the simulated positions. */
  lemma MinimaxMin(attacks: AttackOracle, s: Snapshot, depth: nat, alfa: Search.I32, beta: Search.I32, plies: seq<Ply>)
    requires WellFormed(s) && depth > 0 && plies == AllPlies(s, false, attacks) && plies != []
    ensures Score(attacks, s, depth, false, alfa, beta) ==
            BlackLoop(attacks, Successors(s, plies), 0, depth - 1, alfa, beta, Search.MAX)
  {
  }

  /** One step of the white loop, with the child's search result e. */
  lemma MaxLoopAt(attacks: AttackOracle, cs: seq<Snapshot>, i: nat, d: nat, alfa: Search.I32, beta: Search.I32, maxEval: Search.I32, e: Search.I32)
    requires i < |cs| && e == Score(attacks, cs[i], d, false, alfa, beta)
    ensures
      WhiteLoop(attacks, cs, i, d, alfa, beta, maxEval) ==
        if beta <= Search.Max(alfa, e) then Search.Max(maxEval, e)
        else WhiteLoop(attacks, cs, i + 1, d, Search.Max(alfa, e), beta, Search.Max(maxEval, e))
  {
  }

  /** One step of the black loop, with the child's search result e. */
  lemma MinLoopAt(attacks: AttackOracle, cs: seq<Snapshot>, i: nat, d: nat, alfa: Search.I32, beta: Search.I32, minEval: Search.I32, e: Search.I32)
    requires i < |cs| && e == Score(attacks, cs[i], d, true, alfa, beta)
    ensures
      BlackLoop(attacks, cs, i, d, alfa, beta, minEval) ==
        if Search.Min(beta, e) <= alfa then Search.Min(minEval, e)
        else BlackLoop(attacks, cs, i + 1, d, alfa, Search.Min(beta, e), Search.Min(minEval, e))
  {
  }

  // ---- minimax on the board ----

  /** evaluate(board, isWhite) with IASuprema's piece values, where minimax stops. */
  method Leaf(board: Board, ghost s: Snapshot, depth: nat, isWhite: bool, alfa: Search.I32, beta: Search.I32, attacks: AttackOracle)
    returns (r: Search.I32)
    requires board.Valid() && board.Snap() == s
    requires depth == 0 || AllPlies(s, isWhite, attacks) == []
    ensures board.Valid() && board.Snap() == s
    ensures r == Score(attacks, s, depth, isWhite, alfa, beta)
  {
    var e := Evaluate(board, s, isWhite, Suprema, attacks);
    EvaluationBound(s, isWhite, Suprema, attacks);
    r := e;
    MinimaxLeaf(attacks, s, depth, isWhite, alfa, beta, r);
  }

  /** minimax(board, depth, isWhite, alfa, beta) on the board, equal to the search of the model. */
  method MinimaxOn(board: Board, ghost s: Snapshot, depth: nat, isWhite: bool, alfa: Search.I32, beta: Search.I32, attacks: AttackOracle)
    returns (r: Search.I32)
    requires board.Valid() && board.Snap() == s
    ensures board.Valid() && board.Snap() == s
    ensures r == Score(attacks, s, depth, isWhite, alfa, beta)
    decreases depth, 4
  {
    if depth == 0 {
      r := Leaf(board, s, depth, isWhite, alfa, beta, attacks);
    } else {
      var moves := AllPossibleMoves(board, s, isWhite, attacks);
      r := Expand(board, s, moves, depth, isWhite, alfa, beta, attacks);
    }
  }

  /** minimax below the depth test, once the moves are generated. */
  method Expand(board: Board, ghost s: Snapshot, moves: seq<Moves.Move>, depth: nat, isWhite: bool, alfa: Search.I32, beta: Search.I32,
                attacks: AttackOracle) returns (r: Search.I32)
    requires board.Valid() && board.Snap() == s && depth > 0 && Records(moves) == AllPlies(s, isWhite, attacks)
    ensures board.Valid() && board.Snap() == s
    ensures r == Score(attacks, s, depth, isWhite, alfa, beta)
    decreases depth, 3
  {
    ghost var plies := Records(moves);
    if |moves| == 0 {
      r := Leaf(board, s, depth, isWhite, alfa, beta, attacks);
    } else if isWhite {
      r := MaxNode(board, s, moves, plies, depth, alfa, beta, attacks);
    } else {
      r := MinNode(board, s, moves, plies, depth, alfa, beta, attacks);
    }
  }

  /** minimax with white to move and at least one move: the white loop. */
  method MaxNode(board: Board, ghost s: Snapshot, moves: seq<Moves.Move>, ghost plies: seq<Ply>, depth: nat,
                 alfa: Search.I32, beta: Search.I32, attacks: AttackOracle) returns (r: Search.I32)
    requires board.Valid() && board.Snap() == s && depth > 0 && Records(moves) == plies
    requires plies == AllPlies(s, true, attacks) && plies != []
    ensures board.Valid() && board.Snap() == s
    ensures r == Score(attacks, s, depth, true, alfa, beta)
    decreases depth, 2
  {
    r := MaxSearch(board, s, moves, plies, depth - 1, alfa, beta, attacks);
    MinimaxMax(attacks, s, depth, alfa, beta, plies);
  }

  /** minimax with black to move and at least one move: the black loop. */
  method MinNode(board: Board, ghost s: Snapshot, moves: seq<Moves.Move>, ghost plies: seq<Ply>, depth: nat,
                 alfa: Search.I32, beta: Search.I32, attacks: AttackOracle) returns (r: Search.I32)
    requires board.Valid() && board.Snap() == s && depth > 0 && Records(moves) == plies
    requires plies == AllPlies(s, false, attacks) && plies != []
    ensures board.Valid() && board.Snap() == s
    ensures r == Score(attacks, s, depth, false, alfa, beta)
    decreases depth, 2
  {
    r := MinSearch(board, s, moves, plies, depth - 1, alfa, beta, attacks);
    MinimaxMin(attacks, s, depth, alfa, beta, plies);
  }

  /** The search of the i-th child position, on a simulated copy of the board. */
  method ChildScore(board: Board, ghost s: Snapshot, moves: seq<Moves.Move>, ghost plies: seq<Ply>, i: nat, d: nat,
                    isWhite: bool, alfa: Search.I32, beta: Search.I32, attacks: AttackOracle) returns (eval: Search.I32)
    requires board.Valid() && board.Snap() == s && Records(moves) == plies && i < |moves|
    ensures board.Valid() && board.Snap() == s && Records(moves) == plies
    ensures eval == Score(attacks, Successors(s, plies)[i], d, isWhite, alfa, beta)
    decreases d + 1, 0
  {
    var temp := Child(board, s, moves, plies, i);
    eval := MinimaxOn(temp, Successors(s, plies)[i], d, isWhite, alfa, beta, attacks);
  }

  /** The white branch of minimax: maxEval and alfa are raised, and the loop stops once beta <= alfa. */
  method MaxSearch(board: Board, ghost s: Snapshot, moves: seq<Moves.Move>, ghost plies: seq<Ply>, d: nat,
                   alfa0: Search.I32, beta: Search.I32, attacks: AttackOracle) returns (maxEval: Search.I32)
    requires board.Valid() && board.Snap() == s && Records(moves) == plies
    ensures board.Valid() && board.Snap() == s
    ensures maxEval == WhiteLoop(attacks, Successors(s, plies), 0, d, alfa0, beta, Search.MIN)
    decreases d + 1, 1
  {
    ghost var cs := Successors(s, plies);
    maxEval := Search.MIN;
    var alfa: Search.I32 := alfa0;
    for i := 0 to |moves|
      invariant board.Valid() && board.Snap() == s && Records(moves) == plies
      invariant WhiteLoop(attacks, cs, i, d, alfa, beta, maxEval) == WhiteLoop(attacks, cs, 0, d, alfa0, beta, Search.MIN)
    {
      var eval := ChildScore(board, s, moves, plies, i, d, false, alfa, beta, attacks);
      MaxLoopAt(attacks, cs, i, d, alfa, beta, maxEval, eval);
      maxEval := Search.Max(maxEval, eval);
      alfa := Search.Max(alfa, eval);
      if beta <= alfa {
        return;
      }
    }
  }

  /** The black branch of minimax: minEval and beta are lowered, and the loop stops once beta <= alfa. */
  method MinSearch(board: Board, ghost s: Snapshot, moves: seq<Moves.Move>, ghost plies: seq<Ply>, d: nat,
                   alfa: Search.I32, beta0: Search.I32, attacks: AttackOracle) returns (minEval: Search.I32)
    requires board.Valid() && board.Snap() == s && Records(moves) == plies
    ensures board.Valid() && board.Snap() == s
    ensures minEval == BlackLoop(attacks, Successors(s, plies), 0, d, alfa, beta0, Search.MAX)
    decreases d + 1, 1
  {
    ghost var cs := Successors(s, plies);
    minEval := Search.MAX;
    var beta: Search.I32 := beta0;
    for i := 0 to |moves|
      invariant board.Valid() && board.Snap() == s && Records(moves) == plies
      invariant BlackLoop(attacks, cs, i, d, alfa, beta, minEval) == BlackLoop(attacks, cs, 0, d, alfa, beta0, Search.MAX)
    {
      var eval := ChildScore(board, s, moves, plies, i, d, true, alfa, beta, attacks);
      MinLoopAt(attacks, cs, i, d, alfa, beta, minEval, eval);
      minEval := Search.Min(minEval, eval);
      beta := Search.Min(beta, eval);
      if beta <= alfa {
        return;
      }
    }
  }

  // ---- chooseBestMove ----

  /**
   * The score chooseBestMove gives a move: minimax of the position it leads
   * to, at depth DEFAULT_DEPTH - 1, for the other side, with the full window.
   */
  function RootScore(attacks: AttackOracle, s: Snapshot, white: bool, ply: Ply): Search.I32
    requires WellFormed(s)
  {
    Score(attacks, Simulate(s, ply), DefaultDepth - 1, !white, Search.MIN, Search.MAX)
  }

  /** The scores of the moves, in the order of the move list. */
  function RootScores(attacks: AttackOracle, s: Snapshot, white: bool, plies: seq<Ply>): (scores: seq<int>)
    requires WellFormed(s)
    ensures |scores| == |plies|
  {
    seq(|plies|, k requires 0 <= k < |plies| => RootScore(attacks, s, white, plies[k]))
  }

  /** The loop of chooseBestMove, from MIN_VALUE for white and MAX_VALUE for black. */
  function RootChoice(attacks: AttackOracle, s: Snapshot, white: bool, plies: seq<Ply>): Choice
    requires WellFormed(s)
  {
    Pick(RootScores(attacks, s, white, plies), white, if white then Search.MIN else Search.MAX)
  }

  /** The unpruned minimax value of the position a move leads to. */
  function ChildValue(attacks: AttackOracle, s: Snapshot, white: bool, ply: Ply): Search.I32
    requires WellFormed(s)
  {
    Search.Value(ChessGame(attacks), Simulate(s, ply), DefaultDepth - 1, !white)
  }

  /**
   * The pruned search with the full window scores a move with the unpruned
   * value of its position, which lies within the evaluation bounds, strictly
   * between MIN_VALUE and MAX_VALUE.
   */
  lemma RootScoreValue(attacks: AttackOracle, s: Snapshot, white: bool, ply: Ply)
    requires WellFormed(s)
    ensures RootScore(attacks, s, white, ply) == ChildValue(attacks, s, white, ply)
    ensures -1_300_000 <= RootScore(attacks, s, white, ply) <= 1_300_000
  {
    var g := ChessGame(attacks);
    var after := Simulate(s, ply);
    Search.MinimaxFullWindow(g, after, DefaultDepth - 1, !white);
    forall q, w ensures -1_300_000 <= g.evaluate(q, w) <= 1_300_000 {
      assert g.evaluate(q, w) == Evaluation32(q, w, Suprema, attacks);
    }
    Search.ValueWithin(g, after, DefaultDepth - 1, !white, -1_300_000, 1_300_000);
  }

  /**
   * What chooseBestMove keeps: a move exactly when there is one, and then the
   * first move whose value is strictly best for the side to move (greatest
   * for white, smallest for black), which no later move beats.
   */
  lemma RootChoiceSpec(attacks: AttackOracle, s: Snapshot, white: bool, plies: seq<Ply>)
    requires WellFormed(s)
    ensures var c := RootChoice(attacks, s, white, plies);
      && (c.index.Some? <==> plies != [])
      && (c.index.Some? ==>
            var i := c.index.value;
            && i < |plies| && Chosen(plies, c) == Some(plies[i]) && c.score == ChildValue(attacks, s, white, plies[i])
            && (forall j | 0 <= j < i :: Better(white, ChildValue(attacks, s, white, plies[i]), ChildValue(attacks, s, white, plies[j])))
            && (forall j | i < j < |plies| :: !Better(white, ChildValue(attacks, s, white, plies[j]), ChildValue(attacks, s, white, plies[i]))))
  {
    var scores := RootScores(attacks, s, white, plies);
    var init := if white then Search.MIN else Search.MAX;
    var c := Pick(scores, white, init);
    PickSpec(scores, white, init);
    forall k | 0 <= k < |plies| ensures scores[k] == ChildValue(attacks, s, white, plies[k]) && Better(white, scores[k], init) {
      RootScoreValue(attacks, s, white, plies[k]);
    }
    if plies != [] {
      assert Better(white, scores[0], init);
      var i := c.index.value;
      forall j | 0 <= j < i
        ensures Better(white, ChildValue(attacks, s, white, plies[i]), ChildValue(attacks, s, white, plies[j]))
      {
        assert Better(white, scores[i], scores[j]);
      }
      forall j | i < j < |plies|
        ensures !Better(white, ChildValue(attacks, s, white, plies[j]), ChildValue(attacks, s, white, plies[i]))
      {
        assert !Better(white, scores[j], scores[i]);
      }
    }
  }

  /**
   * The loop of chooseBestMove: a move replaces the one kept only when its
   * score is strictly better for the side to move.
   */
  method KeepBest(board: Board, ghost s: Snapshot, moves: seq<Moves.Move>, ghost plies: seq<Ply>, isWhite: bool, attacks: AttackOracle)
    returns (best: Moves.Move?)
    requires board.Valid() && board.Snap() == s && Records(moves) == plies
    ensures board.Valid() && board.Snap() == s
    ensures var c := RootChoice(attacks, s, isWhite, plies);
      && (c.index.None? ==> best == null)
      && (c.index.Some? ==> c.index.value < |moves| && best == moves[c.index.value])
  {
    ghost var scores := RootScores(attacks, s, isWhite, plies);
    ghost var init := if isWhite then Search.MIN else Search.MAX;
    best := null;
    var bestScore: int := if isWhite then Search.MIN else Search.MAX;
    for i := 0 to |moves|
      invariant board.Valid() && board.Snap() == s
      invariant Records(moves) == plies
      invariant Pick(scores[..i], isWhite, init).score == bestScore
      invariant Pick(scores[..i], isWhite, init).index.None? ==> best == null
      invariant Pick(scores[..i], isWhite, init).index.Some? ==>
                  Pick(scores[..i], isWhite, init).index.value < i &&
                  best == moves[Pick(scores[..i], isWhite, init).index.value]
    {
      var score := ChildScore(board, s, moves, plies, i, DefaultDepth - 1, !isWhite, Search.MIN, Search.MAX, attacks);
      assert score == scores[i];
      PickStep(scores, i, isWhite, init);
      if (isWhite && score > bestScore) || (!isWhite && score < bestScore) {
        bestScore := score;
        best := moves[i];
      }
    }
    assert scores[..|moves|] == scores;
  }

  /**
   * chooseBestMove(board, isWhite): null exactly when the side has no move;
   * otherwise the move the loop keeps.
   */
  method ChooseBestMove(board: Board, ghost s: Snapshot, isWhite: bool, attacks: AttackOracle) returns (best: Moves.Move?)
    requires board.Valid() && board.Snap() == s
    ensures board.Valid() && board.Snap() == s
    ensures var plies := AllPlies(s, isWhite, attacks);
      && (best == null <==> plies == [])
      && (best != null ==> fresh(best) && Some(Record(best)) == Chosen(plies, RootChoice(attacks, s, isWhite, plies)))
  {
    var moves := AllPossibleMoves(board, s, isWhite, attacks);
    forall k | 0 <= k < |moves| ensures fresh(moves[k]) { assert moves[k] in moves; }
    if |moves| == 0 {
      return null;
    }
    ghost var plies := Records(moves);
    best := KeepBest(board, s, moves, plies, isWhite, attacks);
    RootChoiceSpec(attacks, s, isWhite, plies);
    RecordsAt(moves, RootChoice(attacks, s, isWhite, plies).index.value);
  }
}
