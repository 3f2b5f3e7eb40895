/** Making a move: the mover's location is rewritten and a piece standing on
    the destination is taken off the opponent's lists. The four input lists
    are copied first, so the caller's position is never changed. */
module Apply {
  import opened Board
  import opened Evaluate

  /** The engine moves a black piece exactly when the move's kind tag occurs
      anywhere among black's kinds; the origin square plays no part. */
  predicate MovesBlack(m: Move, p: Position)
  {
    m.kind in p.blackKinds
  }

  /** The move can be made without `pop` running past the end of the
      opponent's kinds list: the first index of the destination among the
      opponent's locations must also index its kinds. */
  predicate Applicable(m: Move, p: Position)
  {
    if MovesBlack(m, p) then
      m.start in p.blackLocs && m.end in p.whiteLocs ==> IndexOf(p.whiteLocs, m.end) < |p.whiteKinds|
    else
      m.start in p.whiteLocs && m.end in p.blackLocs ==> IndexOf(p.blackLocs, m.end) < |p.blackKinds|
  }

  /** The position after the move. */
  function Applied(m: Move, p: Position): (q: Position)
    requires Applicable(m, p)
    ensures WellFormed(p) ==> WellFormed(q)
  {
    if MovesBlack(m, p) then
      if m.start !in p.blackLocs then p
      else
        var bl := p.blackLocs[IndexOf(p.blackLocs, m.start) := m.end];
        if m.end in p.whiteLocs then
          var ci := IndexOf(p.whiteLocs, m.end);
          Position(Remove(p.whiteKinds, ci), Remove(p.whiteLocs, ci), p.blackKinds, bl)
        else
          Position(p.whiteKinds, p.whiteLocs, p.blackKinds, bl)
    else
      if m.start !in p.whiteLocs then p
      else
        var wl := p.whiteLocs[IndexOf(p.whiteLocs, m.start) := m.end];
        if m.end in p.blackLocs then
          var ci := IndexOf(p.blackLocs, m.end);
          Position(p.whiteKinds, wl, Remove(p.blackKinds, ci), Remove(p.blackLocs, ci))
        else
          Position(p.whiteKinds, wl, p.blackKinds, p.blackLocs)
  }

  /** `apply_move`: copy the four lists, relocate the mover at the first
      index of its origin, and pop the piece found first on the
      destination. An origin missing from the mover's locations leaves the
      position as it was. */
  method ApplyMove(m: Move, p: Position) returns (q: Position)
    requires Applicable(m, p)
    ensures q == Applied(m, p)
  {
    var whiteKinds, whiteLocs := p.whiteKinds, p.whiteLocs;
    var blackKinds, blackLocs := p.blackKinds, p.blackLocs;
    if m.kind in p.blackKinds {
      if m.start !in p.blackLocs {
        return p;
      }
      var idx := IndexOf(p.blackLocs, m.start);
      blackLocs := blackLocs[idx := m.end];
      if m.end in p.whiteLocs {
        var captureIdx := IndexOf(p.whiteLocs, m.end);
        whiteKinds := Remove(whiteKinds, captureIdx);
        whiteLocs := Remove(whiteLocs, captureIdx);
      }
    } else {
      if m.start !in p.whiteLocs {
        return p;
      }
      var idx := IndexOf(p.whiteLocs, m.start);
      whiteLocs := whiteLocs[idx := m.end];
      if m.end in p.blackLocs {
        var captureIdx := IndexOf(p.blackLocs, m.end);
        blackKinds := Remove(blackKinds, captureIdx);
        blackLocs := Remove(blackLocs, captureIdx);
      }
    }
    q := Position(whiteKinds, whiteLocs, blackKinds, blackLocs);
  }

  // ---------------------------------------------------------------------
  // Effects of a move.

  /** Every move of a well-formed position can be made. */
  lemma WellFormedApplicable(m: Move, p: Position)
    requires WellFormed(p)
    ensures Applicable(m, p)
  {
  }

  /** An origin that the chosen side does not occupy leaves all four lists
      as they were. */
  lemma MissingOriginUnchanged(m: Move, p: Position)
    requires if MovesBlack(m, p) then m.start !in p.blackLocs else m.start !in p.whiteLocs
    ensures Applicable(m, p) && Applied(m, p) == p
  {
  }

  /** A black move: black keeps its kinds, its locations change only at the
      first index of the origin, which becomes the destination; white loses
      exactly the entry at the first index of the destination, if any. */
  lemma BlackMoveEffects(m: Move, p: Position)
    requires MovesBlack(m, p) && m.start in p.blackLocs && Applicable(m, p)
    ensures var q, i := Applied(m, p), IndexOf(p.blackLocs, m.start);
      q.blackKinds == p.blackKinds &&
      |q.blackLocs| == |p.blackLocs| && q.blackLocs[i] == m.end &&
      (forall j :: 0 <= j < |p.blackLocs| && j != i ==> q.blackLocs[j] == p.blackLocs[j]) &&
      (m.end !in p.whiteLocs ==> q.whiteKinds == p.whiteKinds && q.whiteLocs == p.whiteLocs) &&
      (m.end in p.whiteLocs ==>
        var c := IndexOf(p.whiteLocs, m.end);
        |q.whiteKinds| == |p.whiteKinds| - 1 && |q.whiteLocs| == |p.whiteLocs| - 1 &&
        multiset(q.whiteKinds) + multiset{p.whiteKinds[c]} == multiset(p.whiteKinds) &&
        (forall j :: 0 <= j < c ==> q.whiteLocs[j] == p.whiteLocs[j] && q.whiteKinds[j] == p.whiteKinds[j]) &&
        (forall j :: c <= j < |q.whiteLocs| ==> q.whiteLocs[j] == p.whiteLocs[j + 1]) &&
        (forall j :: c <= j < |q.whiteKinds| ==> q.whiteKinds[j] == p.whiteKinds[j + 1]))
  {
  }

  /** A white move, the mirror image of a black one. */
  lemma WhiteMoveEffects(m: Move, p: Position)
    requires !MovesBlack(m, p) && m.start in p.whiteLocs && Applicable(m, p)
    ensures var q, i := Applied(m, p), IndexOf(p.whiteLocs, m.start);
      q.whiteKinds == p.whiteKinds &&
      |q.whiteLocs| == |p.whiteLocs| && q.whiteLocs[i] == m.end &&
      (forall j :: 0 <= j < |p.whiteLocs| && j != i ==> q.whiteLocs[j] == p.whiteLocs[j]) &&
      (m.end !in p.blackLocs ==> q.blackKinds == p.blackKinds && q.blackLocs == p.blackLocs) &&
      (m.end in p.blackLocs ==>
        var c := IndexOf(p.blackLocs, m.end);
        |q.blackKinds| == |p.blackKinds| - 1 && |q.blackLocs| == |p.blackLocs| - 1 &&
        multiset(q.blackKinds) + multiset{p.blackKinds[c]} == multiset(p.blackKinds) &&
        (forall j :: 0 <= j < c ==> q.blackLocs[j] == p.blackLocs[j] && q.blackKinds[j] == p.blackKinds[j]) &&
        (forall j :: c <= j < |q.blackLocs| ==> q.blackLocs[j] == p.blackLocs[j + 1]) &&
        (forall j :: c <= j < |q.blackKinds| ==> q.blackKinds[j] == p.blackKinds[j + 1]))
  {
  }

  /** A move removes at most one piece from the board. */
  lemma PieceCount(m: Move, p: Position)
    requires WellFormed(p)
    ensures var q := Applied(m, p);
      var before, after := |p.whiteKinds| + |p.blackKinds|, |q.whiteKinds| + |q.blackKinds|;
      after == before || after == before - 1
  {
  }

  /** The evaluation drops by exactly the value of a captured white piece,
      and is unchanged by a black move that captures nothing. */
  lemma BlackMoveMaterial(m: Move, p: Position)
    requires WellFormed(p) && MovesBlack(m, p) && m.start in p.blackLocs
    ensures m.end !in p.whiteLocs ==> Evaluation(Applied(m, p)) == Evaluation(p)
    ensures m.end in p.whiteLocs ==>
      Evaluation(Applied(m, p)) == Evaluation(p) - PieceValue(p.whiteKinds[IndexOf(p.whiteLocs, m.end)])
  {
    if m.end in p.whiteLocs {
      var c := IndexOf(p.whiteLocs, m.end);
      PieceSumRemove(p.whiteKinds, c);
      var q := Applied(m, p);
      assert q.whiteKinds[..|q.whiteKinds|] == q.whiteKinds;
      assert p.whiteKinds[..|p.whiteKinds|] == p.whiteKinds;
    }
  }

  /** The evaluation rises by exactly the value of a captured black piece,
      and is unchanged by a white move that captures nothing. */
  lemma WhiteMoveMaterial(m: Move, p: Position)
    requires WellFormed(p) && !MovesBlack(m, p) && m.start in p.whiteLocs
    ensures m.end !in p.blackLocs ==> Evaluation(Applied(m, p)) == Evaluation(p)
    ensures m.end in p.blackLocs ==>
      Evaluation(Applied(m, p)) == Evaluation(p) + PieceValue(p.blackKinds[IndexOf(p.blackLocs, m.end)])
  {
    if m.end in p.blackLocs {
      var c := IndexOf(p.blackLocs, m.end);
      PieceSumRemove(p.blackKinds, c);
      var q := Applied(m, p);
      assert q.blackKinds[..|q.blackKinds|] == q.blackKinds;
      assert p.blackKinds[..|p.blackKinds|] == p.blackKinds;
    }
  }

  /** Taking white's only king ends the game. */
  lemma CapturingKingEndsGame(m: Move, p: Position)
    requires WellFormed(p) && MovesBlack(m, p) && m.start in p.blackLocs && m.end in p.whiteLocs
    requires p.whiteKinds[IndexOf(p.whiteLocs, m.end)] == King
    requires multiset(p.whiteKinds)[King] == 1
    ensures GameOver(Applied(m, p))
  {
    var q := Applied(m, p);
    assert multiset(q.whiteKinds)[King] == 0;
  }

  /** The side is chosen by kind, not by origin: white's rook move from
      (0, 0) is read as a black move because black also owns a rook, finds
      no black piece on (0, 0), and changes nothing. */
  lemma SharedKindIsNoOp()
    ensures var p := Position([King, Rook], [(4, 0), (0, 0)], [King, Rook], [(4, 7), (7, 7)]);
      Applied(Move((0, 0), Rook, (0, 5)), p) == p
  {
    var p := Position([King, Rook], [(4, 0), (0, 0)], [King, Rook], [(4, 7), (7, 7)]);
    assert Rook in p.blackKinds by { assert p.blackKinds[1] == Rook; }
  }

  /** `index` finds the first entry: when white lists the destination of a
      black capture a second time at j, the capture removes the first entry
      and white still lists a piece on the square afterwards, the one that
      stood at j. */
  lemma CaptureTakesFirstEntry(m: Move, p: Position, j: nat)
    requires MovesBlack(m, p) && m.start in p.blackLocs && Applicable(m, p)
    requires j < |p.whiteLocs| && j < |p.whiteKinds| && p.whiteLocs[j] == m.end
    requires IndexOf(p.whiteLocs, m.end) < j
    ensures var q := Applied(m, p);
      j - 1 < |q.whiteLocs| && j - 1 < |q.whiteKinds| &&
      q.whiteLocs[j - 1] == m.end && q.whiteKinds[j - 1] == p.whiteKinds[j]
  {
  }

  /** A black queen's moves carry the tag Rook or Bishop; when black owns
      no rook, the rook-tagged move is read as a white move, finds no white
      piece on the queen's square, and changes nothing. */
  lemma BlackQueenMoveIsNoOp()
    ensures var p := Position([King], [(4, 0)], [King, Queen], [(4, 7), (3, 7)]);
      Applied(Move((3, 7), Rook, (3, 0)), p) == p
  {
    var p := Position([King], [(4, 0)], [King, Queen], [(4, 7), (3, 7)]);
    assert Rook !in p.blackKinds;
  }
}
