/** The search: depth-limited minimax with alpha-beta pruning, white
    maximising and black minimising, and the root driver that picks black's
    reply. Scores are extended integers; the static evaluation is finite. */
module Search {
  import opened Board
  import opened Scores
  import opened MoveGen
  import opened Evaluate
  import opened Apply

  // ---------------------------------------------------------------------
  // The unpruned game value.

  /** Plain minimax over the engine's own move generator and move applier:
      the evaluation at depth 0 or once a king is missing; otherwise the
      best value the side to move (white when maximizing) can reach one
      ply further down. */
  function Minimax(depth: nat, maximizing: bool, p: Position): Score
    requires WellFormed(p)
    decreases depth, 0
  {
    if depth == 0 || GameOver(p) then Fin(Evaluation(p))
    else Best(depth - 1, if maximizing then White else Black, p)
  }

  /** The children's values folded with `max` for white and `min` for
      black, in generation order; a side with no moves gets minus infinity
      (white) or plus infinity (black). */
  function Best(depth: nat, c: Color, p: Position): Score
    requires WellFormed(p)
    decreases depth, 2
  {
    if c == White then MaxOf(ChildValues(depth, c, p)) else MinOf(ChildValues(depth, c, p))
  }

  /** The values of the positions side c's moves lead to, in generation
      order, each searched to depth with the other side to move. */
  function ChildValues(depth: nat, c: Color, p: Position): (vs: seq<Score>)
    requires WellFormed(p)
    decreases depth, 1
  {
    var moves := AllMoves(c, p);
    seq(|moves|, k requires 0 <= k < |moves| => Minimax(depth, c == Black, Applied(moves[k], p)))
  }

  // ---------------------------------------------------------------------
  // Alpha-beta.

  /** What a fail-soft alpha-beta search promises for the window
      (alpha, beta): a result at or below alpha is an upper bound of the
      true value v, one at or above beta is a lower bound, and one strictly
      inside the window is v itself. */
  predicate Within(r: Score, alpha: Score, beta: Score, v: Score)
  {
    (Leq(r, alpha) ==> Leq(v, r)) &&
    (Leq(beta, r) ==> Leq(r, v)) &&
    (Lt(alpha, r) && Lt(r, beta) ==> r == v)
  }

  /** The bookkeeping of white's loop inside a proper window (alpha, beta):
      `a` is alpha raised to the running maximum `best`; `vmax` is the
      unpruned maximum of the children seen so far; a running maximum at or
      below alpha bounds it from above, one inside the window equals it, and
      once `a` reaches beta the running maximum bounds it from below. */
  predicate MaxLoop(alpha: Score, beta: Score, a: Score, best: Score, vmax: Score)
  {
    Lt(alpha, beta) ==>
      a == Max(alpha, best) &&
      (Leq(best, alpha) ==> Leq(vmax, best)) &&
      (Lt(alpha, best) && Lt(a, beta) ==> vmax == best) &&
      (Leq(beta, a) ==> Leq(best, vmax))
  }

  /** One iteration of white's loop keeps its bookkeeping, given that the
      child's search `e` keeps the fail-soft promise for (a, beta) against
      the child's true value `v`. */
  lemma MaxStep(alpha: Score, beta: Score, a: Score, best: Score, vmax: Score, e: Score, v: Score)
    requires MaxLoop(alpha, beta, a, best, vmax)
    requires Lt(alpha, beta) ==> Lt(a, beta) && Within(e, a, beta, v)
    ensures MaxLoop(alpha, beta, Max(a, e), Max(best, e), Max(vmax, v))
  {
  }

  /** When white's loop ends, with every child seen (`vmax` is the whole
      maximum) or cut off at beta (`vmax` is a part of it), the running
      maximum keeps the fail-soft promise. */
  lemma MaxResult(alpha: Score, beta: Score, a: Score, best: Score, vmax: Score, total: Score)
    requires MaxLoop(alpha, beta, a, best, vmax)
    requires Leq(vmax, total)
    requires Lt(a, beta) ==> vmax == total
    ensures Lt(alpha, beta) ==> Within(best, alpha, beta, total)
  {
  }

  /** The bookkeeping of black's loop, the mirror image of MaxLoop. */
  predicate MinLoop(alpha: Score, beta: Score, b: Score, best: Score, vmin: Score)
  {
    Lt(alpha, beta) ==>
      b == Min(beta, best) &&
      (Leq(beta, best) ==> Leq(best, vmin)) &&
      (Lt(best, beta) && Lt(alpha, b) ==> vmin == best) &&
      (Leq(b, alpha) ==> Leq(vmin, best))
  }

  /** One iteration of black's loop, the mirror image of MaxStep. */
  lemma MinStep(alpha: Score, beta: Score, b: Score, best: Score, vmin: Score, e: Score, v: Score)
    requires MinLoop(alpha, beta, b, best, vmin)
    requires Lt(alpha, beta) ==> Lt(alpha, b) && Within(e, alpha, b, v)
    ensures MinLoop(alpha, beta, Min(b, e), Min(best, e), Min(vmin, v))
  {
  }

  /** The end of black's loop, the mirror image of MaxResult. */
  lemma MinResult(alpha: Score, beta: Score, b: Score, best: Score, vmin: Score, total: Score)
    requires MinLoop(alpha, beta, b, best, vmin)
    requires Leq(total, vmin)
    requires Lt(alpha, b) ==> vmin == total
    ensures Lt(alpha, beta) ==> Within(best, alpha, beta, total)
  {
  }

  /** `minimax`: the evaluation at depth 0 or once a king is missing;
      otherwise the side to move generates its moves and walks them
      (MaxValue, MinValue).
      A leaf is its evaluation whatever the window.
      Inside a proper window the result keeps the fail-soft promise against
      the unpruned value; with the full window it IS the unpruned value, so
      pruning never changes the result. */
  method AlphaBeta(depth: nat, alpha: Score, beta: Score, maximizing: bool, p: Position) returns (r: Score)
    requires WellFormed(p)
    ensures Lt(alpha, beta) ==> Within(r, alpha, beta, Minimax(depth, maximizing, p))
    ensures alpha == NegInf && beta == PosInf ==> r == Minimax(depth, maximizing, p)
    ensures depth == 0 || GameOver(p) ==> r == Fin(Evaluation(p))
    decreases depth, 1
  {
    if depth == 0 || GameOver(p) {
      var value := EvaluateBoard(p);
      return Fin(value);
    }
    if maximizing {
      var moves := GetAllMoves(White, p);
      r := MaxValue(depth, alpha, beta, p, moves, ChildValues(depth - 1, White, p));
    } else {
      var moves := GetAllMoves(Black, p);
      r := MinValue(depth, alpha, beta, p, moves, ChildValues(depth - 1, Black, p));
    }
  }

  /** White's loop of `minimax` over its moves: keep the running maximum,
      raise alpha to it, and stop once beta <= alpha. `values` are the
      unpruned values of the children, one per move. */
  method MaxValue(depth: nat, alpha: Score, beta: Score, p: Position, moves: seq<Move>, ghost values: seq<Score>)
    returns (maxEval: Score)
    requires WellFormed(p) && depth > 0 && |values| == |moves|
    // the trigger keeps `values[j]` terms from unfolding the game tree
    requires forall k {:trigger Minimax(depth - 1, false, Applied(moves[k], p))} :: 0 <= k < |moves| ==> values[k] == Minimax(depth - 1, false, Applied(moves[k], p))
    ensures Lt(alpha, beta) ==> Within(maxEval, alpha, beta, MaxOf(values))
    decreases depth, 0
  {
    maxEval := NegInf;
    var a := alpha;
    ghost var vmax := NegInf;
    var k := 0;
    while k < |moves|
      invariant k <= |moves| && vmax == MaxOf(values[..k])
      invariant MaxLoop(alpha, beta, a, maxEval, vmax) && (Lt(alpha, beta) ==> Lt(a, beta))
    {
      var child := ApplyMove(moves[k], p);
      var evaluation := AlphaBeta(depth - 1, a, beta, false, child);
      MaxStep(alpha, beta, a, maxEval, vmax, evaluation, values[k]);
      MaxOfNext(values, k);
      maxEval, a, vmax := Max(maxEval, evaluation), Max(a, evaluation), Max(vmax, values[k]);
      if Leq(beta, a) {
        MaxOfPrefix(values, k + 1);
        MaxResult(alpha, beta, a, maxEval, vmax, MaxOf(values));
        return;
      }
      k := k + 1;
    }
    assert values[..k] == values;
    MaxResult(alpha, beta, a, maxEval, vmax, MaxOf(values));
  }

  /** Black's loop of `minimax` over its moves: keep the running minimum,
      lower beta to it, and stop once beta <= alpha. `values` are the
      unpruned values of the children, one per move. */
  method MinValue(depth: nat, alpha: Score, beta: Score, p: Position, moves: seq<Move>, ghost values: seq<Score>)
    returns (minEval: Score)
    requires WellFormed(p) && depth > 0 && |values| == |moves|
    requires forall k {:trigger Minimax(depth - 1, true, Applied(moves[k], p))} :: 0 <= k < |moves| ==> values[k] == Minimax(depth - 1, true, Applied(moves[k], p))
    ensures Lt(alpha, beta) ==> Within(minEval, alpha, beta, MinOf(values))
    decreases depth, 0
  {
    minEval := PosInf;
    var b := beta;
    ghost var vmin := PosInf;
    var k := 0;
    while k < |moves|
      invariant k <= |moves| && vmin == MinOf(values[..k])
      invariant MinLoop(alpha, beta, b, minEval, vmin) && (Lt(alpha, beta) ==> Lt(alpha, b))
    {
      var child := ApplyMove(moves[k], p);
      var evaluation := AlphaBeta(depth - 1, alpha, b, true, child);
      MinStep(alpha, beta, b, minEval, vmin, evaluation, values[k]);
      MinOfNext(values, k);
      minEval, b, vmin := Min(minEval, evaluation), Min(b, evaluation), Min(vmin, values[k]);
      if Leq(b, alpha) {
        MinOfPrefix(values, k + 1);
        MinResult(alpha, beta, b, minEval, vmin, MinOf(values));
        return;
      }
      k := k + 1;
    }
    assert values[..k] == values;
    MinResult(alpha, beta, b, minEval, vmin, MinOf(values));
  }

  // ---------------------------------------------------------------------
  // The root.

  /** The scores the root gives black's moves, in generation order: entry
      k is the position after move k with white to move, searched three
      plies deep. */
  function RootScores(p: Position): seq<Score>
    requires WellFormed(p)
  {
    ChildValues(3, Black, p)
  }

  /** The index the root loop settles on: a later score replaces the
      running best only when strictly lower, and the running best starts at
      plus infinity, so -1 when no score is below plus infinity. */
  function Lowest(scores: seq<Score>): (i: int)
    ensures -1 <= i < |scores|
  {
    if scores == [] then -1
    else
      var j := Lowest(scores[..|scores| - 1]);
      var best := if j < 0 then PosInf else scores[j];
      if Lt(scores[|scores| - 1], best) then |scores| - 1 else j
  }

  /** Lowest finds nothing exactly when every score is plus infinity;
      otherwise it finds a smallest score, and the first one in the list. */
  lemma {:induction false} LowestIsFirstMinimum(scores: seq<Score>)
    ensures Lowest(scores) == -1 <==> forall k :: 0 <= k < |scores| ==> scores[k] == PosInf
    ensures var i := Lowest(scores);
      i >= 0 ==>
        (forall k :: 0 <= k < |scores| ==> Leq(scores[i], scores[k])) &&
        (forall k :: 0 <= k < i ==> Lt(scores[i], scores[k]))
  {
    if scores != [] {
      var init := scores[..|scores| - 1];
      LowestIsFirstMinimum(init);
      assert forall k :: 0 <= k < |init| ==> init[k] == scores[k];
    }
  }

  /** `get_best_move`: black's move at the Lowest root score, or none. */
  method GetBestMove(p: Position) returns (best: Option<Move>)
    requires WellFormed(p)
    ensures var moves, i := AllMoves(Black, p), Lowest(RootScores(p));
      best == if i < 0 then None else Some(moves[i])
  {
    var moves := GetAllMoves(Black, p);
    best := LowestMove(p, moves, RootScores(p));
  }

  /** The loop of `get_best_move`: search each of black's moves three plies
      deep with white to move and the full window, and keep the first move
      whose score is strictly below the best so far, which starts at plus
      infinity. `scores` are the unpruned values, one per move. */
  method LowestMove(p: Position, moves: seq<Move>, ghost scores: seq<Score>) returns (best: Option<Move>)
    requires WellFormed(p) && |scores| == |moves|
    requires forall k {:trigger Minimax(3, true, Applied(moves[k], p))} ::
      0 <= k < |moves| ==> scores[k] == Minimax(3, true, Applied(moves[k], p))
    ensures var i := Lowest(scores); best == if i < 0 then None else Some(moves[i])
  {
    best := None;
    var bestValue := PosInf;
    ghost var bi: int := -1;
    for i := 0 to |moves|
      invariant bi == Lowest(scores[..i])
      invariant bestValue == if bi < 0 then PosInf else scores[bi]
      invariant best == if bi < 0 then None else Some(moves[bi])
    {
      var child := ApplyMove(moves[i], p);
      var moveValue := AlphaBeta(3, NegInf, PosInf, true, child);
      assert scores[..i + 1][..i] == scores[..i];
      if Lt(moveValue, bestValue) {
        bestValue := moveValue;
        best := Some(moves[i]);
        bi := i;
      }
    }
    assert scores[..|moves|] == scores;
  }

  // ---------------------------------------------------------------------
  // What the root and the tree promise.

  /** The root's choice: one score per black move; none is chosen exactly
      when every score is plus infinity (in particular when black has no
      move); otherwise the chosen move has a smallest score and every
      earlier move scores strictly more. */
  lemma BestMoveChoice(p: Position)
    requires WellFormed(p)
    ensures var moves, scores, i := AllMoves(Black, p), RootScores(p), Lowest(RootScores(p));
      |scores| == |moves| &&
      (i < 0 <==> forall k :: 0 <= k < |scores| ==> scores[k] == PosInf) &&
      (i >= 0 ==>
        (forall k :: 0 <= k < |scores| ==> Leq(scores[i], scores[k])) &&
        (forall k :: 0 <= k < i ==> Lt(scores[i], scores[k])))
  {
    LowestIsFirstMinimum(RootScores(p));
  }

  /** A side to move that has no moves, in a position that is not over,
      gets minus infinity (white) or plus infinity (black), whatever the
      evaluation says. */
  lemma NoMovesIsInfinite(depth: nat, maximizing: bool, p: Position)
    requires WellFormed(p) && depth > 0 && !GameOver(p)
    requires AllMoves(if maximizing then White else Black, p) == []
    ensures Minimax(depth, maximizing, p) == if maximizing then NegInf else PosInf
  {
    assert ChildValues(depth - 1, if maximizing then White else Black, p) == [];
  }
}
