/** Static evaluation and the terminal test: material counted from white's
    point of view, and "some side has lost its king". */
module Evaluate {
  import opened Board

  /** The engine's piece table. */
  function PieceValue(k: Kind): (v: nat)
    ensures 1 <= v <= 1000
    ensures v == 1000 <==> k == King
  {
    match k
    case Pawn => 1
    case Knight => 3
    case Bishop => 3
    case Rook => 5
    case Queen => 9
    case King => 1000
  }

  /** The summed value of a list of kinds, accumulated front to back. */
  function PieceSum(kinds: seq<Kind>): (s: nat)
    ensures |kinds| <= s <= 1000 * |kinds|
  {
    if kinds == [] then 0
    else PieceSum(kinds[..|kinds| - 1]) + PieceValue(kinds[|kinds| - 1])
  }

  /** The material of one side: the kinds that `zip` pairs with a
      location, so a kinds list longer than its locations list is cut. */
  function Material(kinds: seq<Kind>, locs: seq<Loc>): nat
  {
    PieceSum(kinds[..MinLen(|kinds|, |locs|)])
  }

  /** White's material minus black's. */
  function Evaluation(p: Position): int
  {
    Material(p.whiteKinds, p.whiteLocs) - Material(p.blackKinds, p.blackLocs)
  }

  /** `evaluate_board`: a running value to which white's paired pieces
      add and from which black's subtract. */
  method EvaluateBoard(p: Position) returns (value: int)
    ensures value == Evaluation(p)
  {
    var wk, bk := p.whiteKinds, p.blackKinds;
    value := 0;
    for i := 0 to MinLen(|wk|, |p.whiteLocs|)
      invariant value == PieceSum(wk[..i])
    {
      assert wk[..i + 1][..i] == wk[..i];
      value := value + PieceValue(wk[i]);
    }
    for i := 0 to MinLen(|bk|, |p.blackLocs|)
      invariant value == Material(wk, p.whiteLocs) - PieceSum(bk[..i])
    {
      assert bk[..i + 1][..i] == bk[..i];
      value := value - PieceValue(bk[i]);
    }
  }

  /** `game_over`: some side's kinds list lacks a king. */
  function GameOver(p: Position): (over: bool)
    ensures over <==>
      (forall i :: 0 <= i < |p.whiteKinds| ==> p.whiteKinds[i] != King) ||
      (forall i :: 0 <= i < |p.blackKinds| ==> p.blackKinds[i] != King)
  {
    King !in p.whiteKinds || King !in p.blackKinds
  }

  // ---------------------------------------------------------------------
  // Properties of the evaluation.

  /** The sum of a list is the sum of its parts. */
  lemma {:induction false} PieceSumAppend(a: seq<Kind>, b: seq<Kind>)
    ensures PieceSum(a + b) == PieceSum(a) + PieceSum(b)
    decreases |b|
  {
    if b == [] {
      assert a + b == a;
    } else {
      var bi := b[..|b| - 1];
      assert (a + b)[..|a + b| - 1] == a + bi;
      PieceSumAppend(a, bi);
    }
  }

  /** The sum depends only on how many pieces of each kind there are. */
  lemma {:induction false} PieceSumMultiset(a: seq<Kind>, b: seq<Kind>)
    requires multiset(a) == multiset(b)
    ensures PieceSum(a) == PieceSum(b)
    decreases |a|
  {
    if a != [] {
      var x := a[|a| - 1];
      var ai := a[..|a| - 1];
      assert a == ai + [x];
      assert multiset(a) == multiset(ai) + multiset{x};
      assert x in multiset(b);
      var j :| 0 <= j < |b| && b[j] == x;
      assert b == b[..j] + [x] + b[j + 1..];
      var bj := b[..j] + b[j + 1..];
      assert multiset(b) == multiset(b[..j]) + multiset{x} + multiset(b[j + 1..]);
      assert multiset(bj) == multiset(b[..j]) + multiset(b[j + 1..]);
      assert multiset(ai) == multiset(a) - multiset{x};
      assert multiset(bj) == multiset(b) - multiset{x};
      PieceSumMultiset(ai, bj);
      PieceSumAppend(b[..j] + [x], b[j + 1..]);
      PieceSumAppend(b[..j], [x]);
      PieceSumAppend(b[..j], b[j + 1..]);
      assert PieceSum([x]) == PieceValue(x) by {
        assert [x][..0] == [];
      }
    } else {
      assert |b| == |multiset(b)| == 0;
    }
  }

  /** Removing one piece lowers the sum by exactly its value. */
  lemma PieceSumRemove(s: seq<Kind>, i: nat)
    requires i < |s|
    ensures PieceSum(Remove(s, i)) == PieceSum(s) - PieceValue(s[i])
  {
    PieceSumMultiset(s, Remove(s, i) + [s[i]]);
    PieceSumAppend(Remove(s, i), [s[i]]);
    assert [s[i]][..0] == [];
  }

  /** Exchanging the two sides negates the evaluation. */
  lemma EvaluationSwap(p: Position)
    ensures Evaluation(Position(p.blackKinds, p.blackLocs, p.whiteKinds, p.whiteLocs)) == -Evaluation(p)
  {
  }

  /** The evaluation never reads a location: positions whose kinds agree
      and whose location lists have the same lengths evaluate the same. */
  lemma EvaluationIgnoresLocations(p: Position, q: Position)
    requires p.whiteKinds == q.whiteKinds && p.blackKinds == q.blackKinds
    requires |p.whiteLocs| == |q.whiteLocs| && |p.blackLocs| == |q.blackLocs|
    ensures Evaluation(p) == Evaluation(q)
  {
  }

  /** A side whose kinds list holds no king has lost, whatever the other
      side holds. */
  lemma GameOverWithoutKing(c: Color, p: Position)
    requires forall i :: 0 <= i < |OwnKinds(c, p)| ==> OwnKinds(c, p)[i] != King
    ensures GameOver(p)
  {
    assert King !in OwnKinds(c, p);
  }
}
