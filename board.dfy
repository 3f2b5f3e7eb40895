/** The position representation shared by the move generator, the move
    applier, the evaluator and the search: four parallel lists, two per
    side, holding piece kinds and board coordinates. */
module Board {

  /** The six piece tags of the engine. */
  datatype Kind = Pawn | Knight | Bishop | Rook | Queen | King

  /** The two sides. The engine passes sides around as the strings
      'white' and 'black'. */
  datatype Color = White | Black

  /** A square as an (x, y) pair. Coordinates are NOT bounded: the
      generators can produce squares off the 8x8 board. */
  type Loc = (int, int)

  /** A move is the triple (start, kind tag, end). A queen's moves carry
      the tag Rook or Bishop. */
  datatype Move = Move(start: Loc, kind: Kind, end: Loc)

  /** A position is the four lists handed around by the engine: white
      kinds, white locations, black kinds, black locations. Entry i of a
      side's kinds list and entry i of its locations list describe the
      same piece. */
  datatype Position = Position(
    whiteKinds: seq<Kind>, whiteLocs: seq<Loc>,
    blackKinds: seq<Kind>, blackLocs: seq<Loc>)

  datatype Option<T> = None | Some(value: T)

  /** Each side's two lists have the same length. */
  predicate WellFormed(p: Position)
  {
    |p.whiteKinds| == |p.whiteLocs| && |p.blackKinds| == |p.blackLocs|
  }

  predicate OnBoard(l: Loc)
  {
    0 <= l.0 < 8 && 0 <= l.1 < 8
  }

  predicate AllOnBoard(ls: seq<Loc>)
  {
    forall i :: 0 <= i < |ls| ==> OnBoard(ls[i])
  }

  function MinLen(a: nat, b: nat): nat
  {
    if a <= b then a else b
  }

  /** The kinds and locations of side c. */
  function OwnKinds(c: Color, p: Position): seq<Kind>
  {
    if c == White then p.whiteKinds else p.blackKinds
  }

  function OwnLocs(c: Color, p: Position): seq<Loc>
  {
    if c == White then p.whiteLocs else p.blackLocs
  }

  /** The number of pairs `zip(kinds, locations)` yields for side c: it
      stops at the shorter list. */
  function ZipLen(c: Color, p: Position): (n: nat)
    ensures n <= |OwnKinds(c, p)| && n <= |OwnLocs(c, p)|
    ensures n == |OwnKinds(c, p)| || n == |OwnLocs(c, p)|
  {
    MinLen(|OwnKinds(c, p)|, |OwnLocs(c, p)|)
  }

  /** Python's `list.index`: the first position holding x. */
  function IndexOf<T(==)>(s: seq<T>, x: T): (i: nat)
    requires x in s
    ensures i < |s| && s[i] == x
    ensures forall j :: 0 <= j < i ==> s[j] != x
  {
    if s[0] == x then 0 else 1 + IndexOf(s[1..], x)
  }

  /** Python's `list.pop(i)` on a copy: the list without entry i. */
  function Remove<T>(s: seq<T>, i: nat): (r: seq<T>)
    requires i < |s|
    ensures |r| == |s| - 1
    ensures forall j :: 0 <= j < i ==> r[j] == s[j]
    ensures forall j :: i <= j < |r| ==> r[j] == s[j + 1]
    ensures multiset(r) + multiset{s[i]} == multiset(s)
  {
    assert s == s[..i] + [s[i]] + s[i + 1..];
    s[..i] + s[i + 1..]
  }
}
