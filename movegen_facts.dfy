/** What the generators promise: the shape of a ray, the squares a knight,
    king or pawn can reach, where every move starts, and that white's
    moves stay on the board. */
module MoveGenFacts {
  import opened Board
  import opened MoveGen

  /** Every square of the ray strictly between step i and step k is free. */
  ghost predicate Open(from: Loc, d: Dir, w: seq<Loc>, b: seq<Loc>, i: int, k: int)
  {
    forall j :: i <= j < k ==> Free(Step(from, d, j), d, w, b)
  }

  /** A ray is the run of steps i, i+1, ... from `from`; step k belongs to
      it exactly when every earlier step was free and step k is free or
      passes CaptureTest. So the ray stops at its first square that is
      not free, and keeps that square only when CaptureTest holds. */
  lemma {:induction false} RayShape(from: Loc, d: Dir, tag: Kind, c: Color, w: seq<Loc>, b: seq<Loc>, i: nat)
    requires 1 <= i <= 8
    ensures var r := Ray(from, d, tag, c, w, b, i);
      i + |r| <= 8 &&
      (forall k :: 0 <= k < |r| ==> r[k] == Move(from, tag, Step(from, d, i + k))) &&
      (forall k :: i <= k < 8 ==>
        (k < i + |r| <==>
          Open(from, d, w, b, i, k) &&
          (Free(Step(from, d, k), d, w, b) || CaptureTest(c, Step(from, d, k), w, b))))
    decreases 8 - i
  {
    if i < 8 {
      RayShape(from, d, tag, c, w, b, i + 1);
      var sq := Step(from, d, i);
      forall k | i < k < 8
        ensures Open(from, d, w, b, i, k) <==> Free(sq, d, w, b) && Open(from, d, w, b, i + 1, k)
      {
      }
    }
  }

  /** For white, with the mover and every black piece on the board, a ray
      reaches only on-board squares, each empty or held by black, and all
      but its last square are empty. */
  lemma WhiteRayLands(from: Loc, d: Dir, tag: Kind, w: seq<Loc>, b: seq<Loc>)
    requires IsDir(d) && OnBoard(from) && AllOnBoard(b)
    ensures var r := Ray(from, d, tag, White, w, b, 1);
      (forall k :: 0 <= k < |r| ==> OnBoard(r[k].end) && (r[k].end !in w + b || r[k].end in b)) &&
      (forall k :: 0 <= k < |r| - 1 ==> r[k].end !in w + b)
  {
    var r := Ray(from, d, tag, White, w, b, 1);
    RayShape(from, d, tag, White, w, b, 1);
    forall k | 0 <= k < |r|
      ensures OnBoard(r[k].end) && (r[k].end !in w + b || r[k].end in b)
    {
      var sq := Step(from, d, 1 + k);
      assert r[k].end == sq;
      assert Free(sq, d, w, b) || sq in b;
    }
    forall k | 0 <= k < |r| - 1
      ensures r[k].end !in w + b
    {
      assert Open(from, d, w, b, 1, k + 2);
      assert Free(Step(from, d, 1 + k), d, w, b);
    }
  }

  /** The moves of a ray all start at `from` and carry `tag`. */
  lemma RayFrom(from: Loc, d: Dir, tag: Kind, c: Color, w: seq<Loc>, b: seq<Loc>)
    ensures forall m :: m in Ray(from, d, tag, c, w, b, 1) ==> m.start == from && m.kind == tag
  {
    RayShape(from, d, tag, c, w, b, 1);
  }

  /** Rook and bishop moves start on the piece's square and carry its tag. */
  lemma SlidersFrom(from: Loc, c: Color, w: seq<Loc>, b: seq<Loc>)
    ensures forall m :: m in RookMoves(from, c, w, b) ==> m.start == from && m.kind == Rook
    ensures forall m :: m in BishopMoves(from, c, w, b) ==> m.start == from && m.kind == Bishop
  {
    RayFrom(from, (1, 0), Rook, c, w, b);
    RayFrom(from, (-1, 0), Rook, c, w, b);
    RayFrom(from, (0, 1), Rook, c, w, b);
    RayFrom(from, (0, -1), Rook, c, w, b);
    RayFrom(from, (1, 1), Bishop, c, w, b);
    RayFrom(from, (-1, 1), Bishop, c, w, b);
    RayFrom(from, (1, -1), Bishop, c, w, b);
    RayFrom(from, (-1, -1), Bishop, c, w, b);
  }

  /** Where white may land: on the board, on an empty square or on one of
      black's. */
  predicate WhiteTarget(sq: Loc, w: seq<Loc>, b: seq<Loc>)
  {
    OnBoard(sq) && (sq !in w + b || sq in b)
  }

  /** The same, as a statement about each move of the ray. */
  lemma WhiteRayMoves(from: Loc, d: Dir, tag: Kind, w: seq<Loc>, b: seq<Loc>)
    requires IsDir(d) && OnBoard(from) && AllOnBoard(b)
    ensures forall m :: m in Ray(from, d, tag, White, w, b, 1) ==>
      WhiteTarget(m.end, w, b)
  {
    WhiteRayLands(from, d, tag, w, b);
  }

  /** White's rook moves from an on-board square reach only on-board
      squares that are empty or held by black. */
  lemma WhiteRookLands(from: Loc, w: seq<Loc>, b: seq<Loc>)
    requires OnBoard(from) && AllOnBoard(b)
    ensures forall m :: m in RookMoves(from, White, w, b) ==>
      WhiteTarget(m.end, w, b)
  {
    WhiteRayMoves(from, (1, 0), Rook, w, b);
    WhiteRayMoves(from, (-1, 0), Rook, w, b);
    WhiteRayMoves(from, (0, 1), Rook, w, b);
    WhiteRayMoves(from, (0, -1), Rook, w, b);
  }

  /** The same for white's bishop moves. */
  lemma WhiteBishopLands(from: Loc, w: seq<Loc>, b: seq<Loc>)
    requires OnBoard(from) && AllOnBoard(b)
    ensures forall m :: m in BishopMoves(from, White, w, b) ==>
      WhiteTarget(m.end, w, b)
  {
    WhiteRayMoves(from, (1, 1), Bishop, w, b);
    WhiteRayMoves(from, (-1, 1), Bishop, w, b);
    WhiteRayMoves(from, (1, -1), Bishop, w, b);
    WhiteRayMoves(from, (-1, -1), Bishop, w, b);
  }

  /** A knight or king move goes to one of the targets exactly when that
      target passes Lands; there are no more moves than targets. */
  lemma {:induction false} JumpsMembers(from: Loc, targets: seq<Loc>, tag: Kind, c: Color, w: seq<Loc>, b: seq<Loc>)
    ensures |Jumps(from, targets, tag, c, w, b)| <= |targets|
    ensures forall m :: m in Jumps(from, targets, tag, c, w, b) <==>
      m.start == from && m.kind == tag && m.end in targets && Lands(c, m.end, w, b)
  {
    if targets != [] {
      var init := targets[..|targets| - 1];
      JumpsMembers(from, init, tag, c, w, b);
      assert targets == init + [targets[|targets| - 1]];
    }
  }

  /** With pairwise distinct targets, no target receives two moves. */
  lemma {:induction false} JumpsAtMostOnce(from: Loc, targets: seq<Loc>, tag: Kind, c: Color, w: seq<Loc>, b: seq<Loc>, t: Loc)
    requires forall i, j :: 0 <= i < j < |targets| ==> targets[i] != targets[j]
    ensures multiset(Jumps(from, targets, tag, c, w, b))[Move(from, tag, t)] <= 1
  {
    if targets != [] {
      var init := targets[..|targets| - 1];
      var last := targets[|targets| - 1];
      JumpsAtMostOnce(from, init, tag, c, w, b, t);
      if last == t {
        JumpsMembers(from, init, tag, c, w, b);
        assert Move(from, tag, t) !in Jumps(from, init, tag, c, w, b);
      }
    }
  }

  /** A white pawn at (x, y) moves to (x, y+1) when it is empty and y+1 < 8,
      to (x, y+2) when y == 1 and (x, y+2) is empty (the square in between
      is not looked at), and diagonally forward only onto black's squares. */
  lemma PawnMovesWhite(from: Loc, w: seq<Loc>, b: seq<Loc>)
    ensures var (x, y) := from;
      forall m :: m in PawnMoves(from, White, w, b) <==>
        m.start == from && m.kind == Pawn &&
        ((m.end == (x, y + 1) && m.end !in w + b && y + 1 < 8) ||
         (m.end == (x, y + 2) && m.end !in w + b && y == 1) ||
         ((m.end == (x + 1, y + 1) || m.end == (x - 1, y + 1)) && m.end in b))
  {
  }

  /** The mirror image for black: y-1 >= 0, home rank 6, captures onto
      white's squares. */
  lemma PawnMovesBlack(from: Loc, w: seq<Loc>, b: seq<Loc>)
    ensures var (x, y) := from;
      forall m :: m in PawnMoves(from, Black, w, b) <==>
        m.start == from && m.kind == Pawn &&
        ((m.end == (x, y - 1) && m.end !in w + b && y - 1 >= 0) ||
         (m.end == (x, y - 2) && m.end !in w + b && y == 6) ||
         ((m.end == (x + 1, y - 1) || m.end == (x - 1, y - 1)) && m.end in w))
  {
  }

  /** Every move of a piece starts on its square and carries its kind,
      except that the queen's moves are tagged Rook or Bishop. */
  lemma PieceMovesFrom(kind: Kind, from: Loc, c: Color, w: seq<Loc>, b: seq<Loc>)
    ensures forall m :: m in PieceMoves(kind, from, c, w, b) ==>
      m.start == from && (if kind == Queen then m.kind == Rook || m.kind == Bishop else m.kind == kind)
  {
    match kind
    case Pawn =>
      if c == White { PawnMovesWhite(from, w, b); } else { PawnMovesBlack(from, w, b); }
    case Rook => SlidersFrom(from, c, w, b);
    case Bishop => SlidersFrom(from, c, w, b);
    case Queen => SlidersFrom(from, c, w, b);
    case Knight => JumpsMembers(from, KnightTargets(from), Knight, c, w, b);
    case King => JumpsMembers(from, KingTargets(from), King, c, w, b);
  }

  /** For white, with the mover and black's pieces on the board, every
      generated move of any kind lands on the board, on an empty square or
      on one of black's. */
  lemma WhitePieceMovesLand(kind: Kind, from: Loc, w: seq<Loc>, b: seq<Loc>)
    requires OnBoard(from) && AllOnBoard(b)
    ensures forall m :: m in PieceMoves(kind, from, White, w, b) ==>
      WhiteTarget(m.end, w, b)
  {
    match kind
    case Pawn => PawnMovesWhite(from, w, b);
    case Rook => WhiteRookLands(from, w, b);
    case Bishop => WhiteBishopLands(from, w, b);
    case Queen =>
      WhiteRookLands(from, w, b);
      WhiteBishopLands(from, w, b);
    case Knight => JumpsMembers(from, KnightTargets(from), Knight, White, w, b);
    case King => JumpsMembers(from, KingTargets(from), King, White, w, b);
  }

  /** Every generated move starts on the location of one of the first n
      pieces. */
  lemma {:induction false} GeneratedFrom(kinds: seq<Kind>, locs: seq<Loc>, c: Color, w: seq<Loc>, b: seq<Loc>, n: nat)
    requires n <= |kinds| && n <= |locs|
    ensures forall m :: m in Generated(kinds, locs, c, w, b, n) ==> m.start in locs[..n]
  {
    if n > 0 {
      GeneratedFrom(kinds, locs, c, w, b, n - 1);
      PieceMovesFrom(kinds[n - 1], locs[n - 1], c, w, b);
      assert locs[..n] == locs[..n - 1] + [locs[n - 1]];
    }
  }

  /** The filter keeps exactly the moves whose destination is not in `own`. */
  lemma {:induction false} DropOwnMembers(moves: seq<Move>, own: seq<Loc>)
    ensures |DropOwn(moves, own)| <= |moves|
    ensures forall m :: m in DropOwn(moves, own) <==> m in moves && m.end !in own
  {
    if moves != [] {
      var init := moves[..|moves| - 1];
      DropOwnMembers(init, own);
      assert moves == init + [moves[|moves| - 1]];
    }
  }

  /** The filter works move by move, so it keeps the surviving moves in
      their original order: filtering a concatenation is concatenating the
      filtered parts. */
  lemma {:induction false} DropOwnAppend(a: seq<Move>, b: seq<Move>, own: seq<Loc>)
    ensures DropOwn(a + b, own) == DropOwn(a, own) + DropOwn(b, own)
    decreases |b|
  {
    if b == [] {
      assert a + b == a;
    } else {
      var bi := b[..|b| - 1];
      assert (a + b)[..|a + b| - 1] == a + bi;
      DropOwnAppend(a, bi, own);
    }
  }

  /** Every move of side c starts on the square of one of c's pieces (one
      that `zip` pairs with a kind) and never ends on a square of c's. */
  lemma AllMovesOwnSide(c: Color, p: Position)
    ensures forall m :: m in AllMoves(c, p) ==>
      m.start in OwnLocs(c, p)[..ZipLen(c, p)] && m.end !in OwnLocs(c, p)
  {
    var g := Generated(OwnKinds(c, p), OwnLocs(c, p), c, p.whiteLocs, p.blackLocs, ZipLen(c, p));
    GeneratedFrom(OwnKinds(c, p), OwnLocs(c, p), c, p.whiteLocs, p.blackLocs, ZipLen(c, p));
    DropOwnMembers(g, OwnLocs(c, p));
  }

  // ---------------------------------------------------------------------
  // Concrete positions.

  /** For black the capture test only asks whether white has a piece: a
      black rook on (7, 7) facing a lone white king on (0, 0) is offered the
      off-board square (8, 7), and the own-square filter keeps it. */
  lemma BlackRayLeavesBoard()
    ensures Move((7, 7), Rook, (8, 7)) in AllMoves(Black, Position([King], [(0, 0)], [Rook], [(7, 7)]))
  {
    var p := Position([King], [(0, 0)], [Rook], [(7, 7)]);
    var mv := Move((7, 7), Rook, (8, 7));
    assert Ray((7, 7), (1, 0), Rook, Black, [(0, 0)], [(7, 7)], 1) == [mv];
    var g := Generated([Rook], [(7, 7)], Black, [(0, 0)], [(7, 7)], 1);
    assert mv in g;
    DropOwnMembers(g, [(7, 7)]);
  }

  /** The double step looks only at its destination: a white pawn on (0, 1)
      with a black piece on (0, 2) may still move to (0, 3). */
  lemma PawnDoubleStepJumps()
    ensures Move((0, 1), Pawn, (0, 3)) in PawnMoves((0, 1), White, [(0, 1)], [(0, 2)])
    ensures Move((0, 1), Pawn, (0, 2)) !in PawnMoves((0, 1), White, [(0, 1)], [(0, 2)])
  {
    PawnMovesWhite((0, 1), [(0, 1)], [(0, 2)]);
  }

  /** A white pawn on its home rank with nothing ahead steps one or two
      squares, and no further. */
  lemma PawnHomeRank()
    ensures Move((0, 1), Pawn, (0, 2)) in PawnMoves((0, 1), White, [(0, 1)], [])
    ensures Move((0, 1), Pawn, (0, 3)) in PawnMoves((0, 1), White, [(0, 1)], [])
    ensures Move((0, 1), Pawn, (0, 4)) !in PawnMoves((0, 1), White, [(0, 1)], [])
  {
    PawnMovesWhite((0, 1), [(0, 1)], []);
  }

  /** A white rook on (0, 0) with a black pawn on (0, 3) moves up to the
      pawn, captures it, and goes no further. */
  lemma RookStopsAtCapture()
    ensures var r := RookMoves((0, 0), White, [(0, 0)], [(0, 3)]);
      Move((0, 0), Rook, (0, 1)) in r && Move((0, 0), Rook, (0, 2)) in r &&
      Move((0, 0), Rook, (0, 3)) in r && Move((0, 0), Rook, (0, 4)) !in r
  {
    var w, b := [(0, 0)], [(0, 3)];
    var up := Ray((0, 0), (0, 1), Rook, White, w, b, 1);
    assert up == [Move((0, 0), Rook, (0, 1)), Move((0, 0), Rook, (0, 2)), Move((0, 0), Rook, (0, 3))];
    RayShape((0, 0), (1, 0), Rook, White, w, b, 1);
    RayShape((0, 0), (-1, 0), Rook, White, w, b, 1);
    RayShape((0, 0), (0, -1), Rook, White, w, b, 1);
  }
}
