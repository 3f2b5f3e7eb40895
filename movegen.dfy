/** Move generation: the per-kind generators and the dispatcher that
    collects the moves of one side and drops those landing on that side's
    own squares. Each generator is a specification function (what the list
    is) and a method with the engine's loops, proved to build that list. */
module MoveGen {
  import opened Board

  /** A ray direction: a step of -1, 0 or 1 along each axis. */
  type Dir = (int, int)

  predicate IsDir(d: Dir)
  {
    -1 <= d.0 <= 1 && -1 <= d.1 <= 1 && d != (0, 0)
  }

  function Offset(v: int, s: int, i: int): int
  {
    if s > 0 then v + i else if s < 0 then v - i else v
  }

  /** The square i steps from `from` in direction d. */
  function Step(from: Loc, d: Dir, i: int): Loc
  {
    (Offset(from.0, d.0, i), Offset(from.1, d.1, i))
  }

  /** The bound test each ray loop applies to its square: only the edges
      the ray is heading towards are checked (the +x rook ray tests
      `x + i < 8` and nothing else, a diagonal tests its two edges). */
  predicate InRayBound(sq: Loc, d: Dir)
  {
    (d.0 > 0 ==> sq.0 < 8) && (d.0 < 0 ==> sq.0 >= 0) &&
    (d.1 > 0 ==> sq.1 < 8) && (d.1 < 0 ==> sq.1 >= 0)
  }

  /** A square a ray passes over: unoccupied and within the ray's bound. */
  predicate Free(sq: Loc, d: Dir, w: seq<Loc>, b: seq<Loc>)
  {
    sq !in w + b && InRayBound(sq, d)
  }

  /** The second test of every ray, knight and king loop,
      `sq in black_locations if color == 'white' else white_locations`.
      Python reads it as `(sq in black_locations) if color == 'white' else
      white_locations`, so for black it only asks whether white has any
      location at all. */
  predicate CaptureTest(c: Color, sq: Loc, w: seq<Loc>, b: seq<Loc>)
  {
    if c == White then sq in b else |w| > 0
  }

  /** The moves of one ray from step i on (the loop `for i in range(1, 8)`):
      free squares are emitted and the ray goes on; the first square that
      is not free is emitted when it passes CaptureTest, and the ray stops. */
  function Ray(from: Loc, d: Dir, tag: Kind, c: Color, w: seq<Loc>, b: seq<Loc>, i: nat): seq<Move>
    requires 1 <= i <= 8
    decreases 8 - i
  {
    if i == 8 then []
    else
      var sq := Step(from, d, i);
      if Free(sq, d, w, b) then [Move(from, tag, sq)] + Ray(from, d, tag, c, w, b, i + 1)
      else if CaptureTest(c, sq, w, b) then [Move(from, tag, sq)]
      else []
  }

  /** The rook's four rays in the engine's order: +x, -x, +y, -y. */
  function RookMoves(from: Loc, c: Color, w: seq<Loc>, b: seq<Loc>): seq<Move>
  {
    Ray(from, (1, 0), Rook, c, w, b, 1) + Ray(from, (-1, 0), Rook, c, w, b, 1)
    + Ray(from, (0, 1), Rook, c, w, b, 1) + Ray(from, (0, -1), Rook, c, w, b, 1)
  }

  /** The bishop's four rays in the engine's order: (+x, +y), (-x, +y),
      (+x, -y), (-x, -y). */
  function BishopMoves(from: Loc, c: Color, w: seq<Loc>, b: seq<Loc>): seq<Move>
  {
    Ray(from, (1, 1), Bishop, c, w, b, 1) + Ray(from, (-1, 1), Bishop, c, w, b, 1)
    + Ray(from, (1, -1), Bishop, c, w, b, 1) + Ray(from, (-1, -1), Bishop, c, w, b, 1)
  }

  /** The queen's moves are the rook's followed by the bishop's, with
      their tags. */
  function QueenMoves(from: Loc, c: Color, w: seq<Loc>, b: seq<Loc>): seq<Move>
  {
    RookMoves(from, c, w, b) + BishopMoves(from, c, w, b)
  }

  /** The test a knight or king target must pass: an empty on-board
      square, or one passing CaptureTest. */
  predicate Lands(c: Color, t: Loc, w: seq<Loc>, b: seq<Loc>)
  {
    (t !in w + b && OnBoard(t)) || CaptureTest(c, t, w, b)
  }

  /** The moves to the targets that pass Lands, in target order. */
  function Jumps(from: Loc, targets: seq<Loc>, tag: Kind, c: Color, w: seq<Loc>, b: seq<Loc>): seq<Move>
  {
    if targets == [] then []
    else
      var t := targets[|targets| - 1];
      Jumps(from, targets[..|targets| - 1], tag, c, w, b)
        + (if Lands(c, t, w, b) then [Move(from, tag, t)] else [])
  }

  function KnightTargets(from: Loc): seq<Loc>
  {
    var (x, y) := from;
    [(x + 2, y + 1), (x + 2, y - 1), (x - 2, y + 1), (x - 2, y - 1),
     (x + 1, y + 2), (x + 1, y - 2), (x - 1, y + 2), (x - 1, y - 2)]
  }

  function KingTargets(from: Loc): seq<Loc>
  {
    var (x, y) := from;
    [(x + 1, y), (x - 1, y), (x, y + 1), (x, y - 1),
     (x + 1, y + 1), (x - 1, y + 1), (x + 1, y - 1), (x - 1, y - 1)]
  }

  function KnightMoves(from: Loc, c: Color, w: seq<Loc>, b: seq<Loc>): seq<Move>
  {
    Jumps(from, KnightTargets(from), Knight, c, w, b)
  }

  function KingMoves(from: Loc, c: Color, w: seq<Loc>, b: seq<Loc>): seq<Move>
  {
    Jumps(from, KingTargets(from), King, c, w, b)
  }

  /** `get_pawn_moves`: single step onto an empty square inside the far
      edge, double step from the home rank onto an empty square (the square
      passed over is not looked at), and the two forward diagonals when the
      other side occupies them (no bounds test). */
  function PawnMoves(from: Loc, c: Color, w: seq<Loc>, b: seq<Loc>): (r: seq<Move>)
    ensures |r| <= 4
    ensures forall m :: m in r ==> m.start == from && m.kind == Pawn
  {
    var (x, y) := from;
    if c == White then
      (if (x, y + 1) !in w + b && y + 1 < 8 then [Move(from, Pawn, (x, y + 1))] else [])
      + (if (x, y + 2) !in w + b && y == 1 then [Move(from, Pawn, (x, y + 2))] else [])
      + (if (x + 1, y + 1) in b then [Move(from, Pawn, (x + 1, y + 1))] else [])
      + (if (x - 1, y + 1) in b then [Move(from, Pawn, (x - 1, y + 1))] else [])
    else
      (if (x, y - 1) !in w + b && y - 1 >= 0 then [Move(from, Pawn, (x, y - 1))] else [])
      + (if (x, y - 2) !in w + b && y == 6 then [Move(from, Pawn, (x, y - 2))] else [])
      + (if (x + 1, y - 1) in w then [Move(from, Pawn, (x + 1, y - 1))] else [])
      + (if (x - 1, y - 1) in w then [Move(from, Pawn, (x - 1, y - 1))] else [])
  }

  /** The dispatch of `get_all_moves` on one piece. */
  function PieceMoves(kind: Kind, from: Loc, c: Color, w: seq<Loc>, b: seq<Loc>): seq<Move>
  {
    match kind
    case Pawn => PawnMoves(from, c, w, b)
    case Rook => RookMoves(from, c, w, b)
    case Knight => KnightMoves(from, c, w, b)
    case Bishop => BishopMoves(from, c, w, b)
    case Queen => QueenMoves(from, c, w, b)
    case King => KingMoves(from, c, w, b)
  }

  /** The moves of the first n (kind, location) pairs of side c, in piece
      order, before the final filter. */
  function Generated(kinds: seq<Kind>, locs: seq<Loc>, c: Color, w: seq<Loc>, b: seq<Loc>, n: nat): seq<Move>
    requires n <= |kinds| && n <= |locs|
  {
    if n == 0 then []
    else
      Generated(kinds, locs, c, w, b, n - 1) + PieceMoves(kinds[n - 1], locs[n - 1], c, w, b)
  }

  /** The list comprehension that keeps the moves whose destination is not
      in `own`, in order. */
  function DropOwn(moves: seq<Move>, own: seq<Loc>): seq<Move>
  {
    if moves == [] then []
    else
      var m := moves[|moves| - 1];
      DropOwn(moves[..|moves| - 1], own) + (if m.end !in own then [m] else [])
  }

  /** `get_all_moves(color, ...)`: the generated moves of every piece of
      side c that `zip` pairs up, without those landing on c's own squares. */
  function AllMoves(c: Color, p: Position): seq<Move>
  {
    DropOwn(Generated(OwnKinds(c, p), OwnLocs(c, p), c, p.whiteLocs, p.blackLocs, ZipLen(c, p)), OwnLocs(c, p))
  }

  // ---------------------------------------------------------------------
  // The generators as the engine runs them.

  lemma AppendAssoc(a: seq<Move>, b: seq<Move>, c: seq<Move>)
    ensures a + b + c == a + (b + c)
  {
  }

  /** One ray loop of `get_rook_moves` / `get_bishop_moves`. */
  method GetRayMoves(from: Loc, d: Dir, tag: Kind, c: Color, w: seq<Loc>, b: seq<Loc>)
    returns (moves: seq<Move>)
    ensures moves == Ray(from, d, tag, c, w, b, 1)
  {
    ghost var full := Ray(from, d, tag, c, w, b, 1);
    moves := [];
    var i := 1;
    while i < 8
      invariant 1 <= i <= 8
      invariant moves + Ray(from, d, tag, c, w, b, i) == full
    {
      var sq := Step(from, d, i);
      var mv := Move(from, tag, sq);
      ghost var rest := Ray(from, d, tag, c, w, b, i + 1);
      if Free(sq, d, w, b) {
        AppendAssoc(moves, [mv], rest);
        moves := moves + [mv];
      } else if CaptureTest(c, sq, w, b) {
        moves := moves + [mv];
        break;
      } else {
        assert moves + [] == moves;
        break;
      }
      i := i + 1;
    }
    assert i == 8 ==> moves + [] == moves;
  }


  method GetRookMoves(from: Loc, c: Color, w: seq<Loc>, b: seq<Loc>) returns (moves: seq<Move>)
    ensures moves == RookMoves(from, c, w, b)
  {
    var right := GetRayMoves(from, (1, 0), Rook, c, w, b);
    var left := GetRayMoves(from, (-1, 0), Rook, c, w, b);
    var up := GetRayMoves(from, (0, 1), Rook, c, w, b);
    var down := GetRayMoves(from, (0, -1), Rook, c, w, b);
    moves := right + left + up + down;
  }

  method GetBishopMoves(from: Loc, c: Color, w: seq<Loc>, b: seq<Loc>) returns (moves: seq<Move>)
    ensures moves == BishopMoves(from, c, w, b)
  {
    var upRight := GetRayMoves(from, (1, 1), Bishop, c, w, b);
    var upLeft := GetRayMoves(from, (-1, 1), Bishop, c, w, b);
    var downRight := GetRayMoves(from, (1, -1), Bishop, c, w, b);
    var downLeft := GetRayMoves(from, (-1, -1), Bishop, c, w, b);
    moves := upRight + upLeft + downRight + downLeft;
  }

  method GetQueenMoves(from: Loc, c: Color, w: seq<Loc>, b: seq<Loc>) returns (moves: seq<Move>)
    ensures moves == QueenMoves(from, c, w, b)
  {
    var straight := GetRookMoves(from, c, w, b);
    var diagonal := GetBishopMoves(from, c, w, b);
    moves := straight + diagonal;
  }

  /** The loop of `get_knight_moves` / `get_king_moves` over the targets. */
  method GetJumpMoves(from: Loc, targets: seq<Loc>, tag: Kind, c: Color, w: seq<Loc>, b: seq<Loc>)
    returns (moves: seq<Move>)
    ensures moves == Jumps(from, targets, tag, c, w, b)
  {
    moves := [];
    for i := 0 to |targets|
      invariant moves == Jumps(from, targets[..i], tag, c, w, b)
    {
      var t := targets[i];
      assert targets[..i + 1][..i] == targets[..i];
      if t !in w + b && OnBoard(t) {
        moves := moves + [Move(from, tag, t)];
      } else if CaptureTest(c, t, w, b) {
        moves := moves + [Move(from, tag, t)];
      }
    }
    assert targets[..|targets|] == targets;
  }

  method GetKnightMoves(from: Loc, c: Color, w: seq<Loc>, b: seq<Loc>) returns (moves: seq<Move>)
    ensures moves == KnightMoves(from, c, w, b)
  {
    moves := GetJumpMoves(from, KnightTargets(from), Knight, c, w, b);
  }

  method GetKingMoves(from: Loc, c: Color, w: seq<Loc>, b: seq<Loc>) returns (moves: seq<Move>)
    ensures moves == KingMoves(from, c, w, b)
  {
    moves := GetJumpMoves(from, KingTargets(from), King, c, w, b);
  }

  /** The `if piece == ...` chain of `get_all_moves`. */
  method GetPieceMoves(kind: Kind, from: Loc, c: Color, w: seq<Loc>, b: seq<Loc>)
    returns (moves: seq<Move>)
    ensures moves == PieceMoves(kind, from, c, w, b)
  {
    match kind
    case Pawn => moves := PawnMoves(from, c, w, b);
    case Rook => moves := GetRookMoves(from, c, w, b);
    case Knight => moves := GetKnightMoves(from, c, w, b);
    case Bishop => moves := GetBishopMoves(from, c, w, b);
    case Queen => moves := GetQueenMoves(from, c, w, b);
    case King => moves := GetKingMoves(from, c, w, b);
  }

  /** The loop of `get_all_moves` over `zip(kinds, locations)`, extending
      the list with each piece's moves. */
  method CollectMoves(kinds: seq<Kind>, locs: seq<Loc>, c: Color, w: seq<Loc>, b: seq<Loc>)
    returns (moves: seq<Move>)
    ensures moves == Generated(kinds, locs, c, w, b, MinLen(|kinds|, |locs|))
  {
    moves := [];
    for i := 0 to MinLen(|kinds|, |locs|)
      invariant moves == Generated(kinds, locs, c, w, b, i)
    {
      var pieceMoves := GetPieceMoves(kinds[i], locs[i], c, w, b);
      assert Generated(kinds, locs, c, w, b, i + 1) == Generated(kinds, locs, c, w, b, i) + pieceMoves;
      moves := moves + pieceMoves;
    }
  }

  /** `get_all_moves`: collect the moves of side c's pieces, then filter
      out destinations on c's own squares. */
  method GetAllMoves(c: Color, p: Position) returns (moves: seq<Move>)
    ensures moves == AllMoves(c, p)
  {
    var kinds, locs := OwnKinds(c, p), OwnLocs(c, p);
    moves := CollectMoves(kinds, locs, c, p.whiteLocs, p.blackLocs);
    moves := DropOwn(moves, locs);
  }

}
