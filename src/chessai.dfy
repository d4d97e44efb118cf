/**
 * ChessAI: the one-ply material picker.  makeBestMove plays black: it scores
 * every generated move by the material of the simulated position and keeps
 * the first strictly best one; at difficulties 1 and 2 a random draw may
 * replace it by a random move of the list.  The random draws are inputs here:
 * `roll` is the value of nextDouble() and `pick` the value behind nextInt.
 */
module Greedy {
  import opened Wrappers
  import opened Pieces
  import opened Boards
  import opened Scans
  import opened Evaluation
  import opened Picks
  import Search

  /** Math.max(1, Math.min(3, difficulty)). */
  function ClampDifficulty(difficulty: int): (r: int)
    ensures 1 <= r <= 3
    ensures 1 <= difficulty <= 3 ==> r == difficulty
    ensures difficulty < 1 ==> r == 1
    ensures difficulty > 3 ==> r == 3
  {
    Search.Max(1, Search.Min(3, difficulty))
  }

  /** Whether the random draw replaces the best move: 50% at difficulty 1, 20% at 2, never at 3. */
  predicate Deviates(difficulty: int, roll: real) {
    (difficulty == 1 && roll < 0.5) || (difficulty == 2 && roll < 0.2)
  }

  /** evaluatePosition of the position a move leads to, for black. */
  function GreedyScore(s: Snapshot, m: Ply): int
    requires WellFormed(s)
  {
    Material(Simulate(s, m), false, Basic)
  }

  /** The scores of the moves, in the order of the move list. */
  function GreedyScores(s: Snapshot, plies: seq<Ply>): (scores: seq<int>)
    requires WellFormed(s)
    ensures |scores| == |plies|
  {
    seq(|plies|, k requires 0 <= k < |plies| => GreedyScore(s, plies[k]))
  }

  /** The loop of makeBestMove over black's generated moves, from Integer.MIN_VALUE. */
  function GreedyChoice(s: Snapshot, plies: seq<Ply>): Choice
    requires WellFormed(s)
  {
    Pick(GreedyScores(s, plies), true, Search.MIN)
  }

  /**
   * The deterministic part of makeBestMove: when there is a move, the loop
   * keeps one, and it is the first move with the strictly greatest score.
   */
  lemma GreedyChoiceSpec(s: Snapshot, plies: seq<Ply>)
    requires WellFormed(s)
    ensures var c := GreedyChoice(s, plies);
      && (c.index.Some? <==> plies != [])
      && (c.index.Some? ==>
            var i := c.index.value;
            && i < |plies| && Chosen(plies, c) == Some(plies[i]) && c.score == GreedyScore(s, plies[i])
            && (forall j | 0 <= j < i :: GreedyScore(s, plies[j]) < GreedyScore(s, plies[i]))
            && (forall j | i < j < |plies| :: GreedyScore(s, plies[j]) <= GreedyScore(s, plies[i])))
  {
    var scores := GreedyScores(s, plies);
    var c := Pick(scores, true, Search.MIN);
    PickSpec(scores, true, Search.MIN);
    if plies != [] {
      MaterialBound(Simulate(s, plies[0]), false, Basic);
      assert Better(true, scores[0], Search.MIN);
      var i := c.index.value;
      forall j | 0 <= j < i ensures GreedyScore(s, plies[j]) < GreedyScore(s, plies[i]) {
        assert Better(true, scores[i], scores[j]);
      }
      forall j | i < j < |plies| ensures GreedyScore(s, plies[j]) <= GreedyScore(s, plies[i]) {
        assert !Better(true, scores[j], scores[i]);
      }
    }
  }

  /** The body of makeBestMove's loop: evaluatePosition(tempBoard, false) on a simulated copy. */
  method ScoreMove(board: Board, ghost s: Snapshot, move: Moves.Move, ghost ply: Ply) returns (score: int)
    requires board.Valid() && board.Snap() == s && Record(move) == ply
    ensures board.Valid() && board.Snap() == s
    ensures score == GreedyScore(s, ply)
  {
    var temp := SimulateOn(board, s, move);
    ghost var after := Simulate(s, ply);
    score := MaterialScore(temp, after, false, Basic);
    GreedyScoreOf(s, ply, after, score);
  }

  /** The score of the simulated position is the greedy score of the move. */
  lemma GreedyScoreOf(s: Snapshot, ply: Ply, after: Snapshot, score: int)
    requires WellFormed(s) && after == Simulate(s, ply) && score == Material(after, false, Basic)
    ensures score == GreedyScore(s, ply)
  {
  }

  /**
   * The loop of makeBestMove: a move replaces the one kept only when its
   * score is strictly greater, so the first strictly best move is kept.
   */
  method KeepBest(board: Board, ghost s: Snapshot, moves: seq<Moves.Move>, ghost plies: seq<Ply>, ghost scores: seq<int>)
    returns (best: Moves.Move?)
    requires board.Valid() && board.Snap() == s && Records(moves) == plies
    requires |scores| == |plies|
    requires forall k {:trigger GreedyScore(s, plies[k])} | 0 <= k < |plies| :: scores[k] == GreedyScore(s, plies[k])
    ensures board.Valid() && board.Snap() == s
    ensures var c := Pick(scores, true, Search.MIN);
      && (c.index.None? ==> best == null)
      && (c.index.Some? ==> c.index.value < |moves| && best == moves[c.index.value])
  {
    best := null;
    var bestScore := Search.MIN;
    for i := 0 to |moves|
      invariant board.Valid() && board.Snap() == s
      invariant Records(moves) == plies
      invariant Pick(scores[..i], true, Search.MIN).score == bestScore
      invariant Pick(scores[..i], true, Search.MIN).index.None? ==> best == null
      invariant Pick(scores[..i], true, Search.MIN).index.Some? ==>
                  Pick(scores[..i], true, Search.MIN).index.value < i &&
                  best == moves[Pick(scores[..i], true, Search.MIN).index.value]
    {
      ghost var pre := Records(moves);
      RecordsAt(moves, i);
      var score := ScoreMove(board, s, moves[i], plies[i]);
      assert Records(moves) == pre;
      assert score == scores[i];
      PickStep(scores, i, true, Search.MIN);
      if score > bestScore {
        bestScore := score;
        best := moves[i];
      }
    }
    assert scores[..|moves|] == scores;
  }

  class ChessAI {
    var difficulty: int

    /** The difficulty always lies in [1, 3]. */
    predicate Valid()
      reads this
    {
      1 <= difficulty <= 3
    }

    /** ChessAI(): the default difficulty is 2. */
    constructor ()
      ensures Valid() && difficulty == 2
    {
      difficulty := 2;
    }

    /** ChessAI(difficulty): clamped into [1, 3]. */
    constructor WithDifficulty(difficulty: int)
      ensures Valid() && this.difficulty == ClampDifficulty(difficulty)
    {
      this.difficulty := ClampDifficulty(difficulty);
    }

    /** setDifficulty: clamped into [1, 3]. */
    method SetDifficulty(difficulty: int)
      modifies this
      ensures Valid() && this.difficulty == ClampDifficulty(difficulty)
    {
      this.difficulty := ClampDifficulty(difficulty);
    }

    /**
     * makeBestMove(game), with the game's board and turn as inputs: nothing on
     * white's turn or when black has no move; otherwise a move of the list,
     * the first strictly best one unless the random draw replaces it by the
     * move at `pick % |moves|`.
     */
    method MakeBestMove(board: Board, ghost s: Snapshot, isWhiteTurn: bool, attacks: AttackOracle, roll: real, pick: nat)
      returns (best: Moves.Move?)
      requires board.Valid() && board.Snap() == s
      ensures board.Valid() && board.Snap() == s
      ensures var plies := AllPlies(s, false, attacks);
        && (best == null <==> isWhiteTurn || plies == [])
        && (best != null ==> fresh(best) && Record(best) in plies)
        && (best != null && !Deviates(difficulty, roll) ==> Some(Record(best)) == Chosen(plies, GreedyChoice(s, plies)))
        && (best != null && Deviates(difficulty, roll) ==> Record(best) == plies[pick % |plies|])
    {
      if isWhiteTurn {
        return null;
      }
      var moves := AllPossibleMoves(board, s, false, attacks);
      forall k | 0 <= k < |moves| ensures fresh(moves[k]) { assert moves[k] in moves; }
      if |moves| == 0 {
        return null;
      }
      ghost var plies := Records(moves);
      ghost var scores := GreedyScores(s, plies);
      best := KeepBest(board, s, moves, plies, scores);
      GreedyChoiceSpec(s, plies);
      RecordsAt(moves, GreedyChoice(s, plies).index.value);
      if difficulty == 1 {
        if roll < 0.5 {
          best := moves[pick % |moves|];
          RecordsAt(moves, pick % |moves|);
        }
      } else if difficulty == 2 {
        if roll < 0.2 {
          best := moves[pick % |moves|];
          RecordsAt(moves, pick % |moves|);
        }
      }
    }
  }

  /** shouldMakeMove(game): it is black's turn and the game is not over. */
  predicate ShouldMakeMove(isWhiteTurn: bool, gameOver: bool) {
    !isWhiteTurn && !gameOver
  }
}
