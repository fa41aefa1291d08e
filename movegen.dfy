/**
 * Move generation: what each piece kind's updateMoveList appends to a freshly
 * cleared move list, as a function of the board.  Every generator reads the grid
 * through Board.getPiece (so a cell off the width x height area reads as empty)
 * and bounds its candidates by the fixed side length 8.
 */
module MoveGen {
  import opened Model

  /**
   * The cells a rebuild lists, and whether the Java code dereferenced a null
   * occupant part-way (only the Ghost does); `moves` then holds what was
   * appended before the throw.
   */
  datatype Listing = Listing(moves: seq<Point>, fault: bool)

  /** Run `a`, then `b` unless `a` threw. */
  function Then(a: Listing, b: Listing): Listing
  {
    if a.fault then a else Listing(a.moves + b.moves, b.fault)
  }

  // ---------------------------------------------------------------- rays

  predicate IsDir(dx: int, dy: int)
  {
    -1 <= dx <= 1 && -1 <= dy <= 1 && (dx != 0 || dy != 0)
  }

  /** i steps of unit size d (d in -1, 0, 1) along one axis. */
  function Stride(i: int, d: int): int
  {
    if d > 0 then i else if d < 0 then -i else 0
  }

  /** Cells a ray from (x, y) in direction (dx, dy) can still visit before leaving 0..7. */
  function Steps(x: int, y: int, dx: int, dy: int): nat
  {
    if dx > 0 then (if x < SIDE then SIDE - x else 0)
    else if dx < 0 then (if x >= 0 then x + 1 else 0)
    else if dy > 0 then (if y < SIDE then SIDE - y else 0)
    else if dy < 0 then (if y >= 0 then y + 1 else 0)
    else 0
  }

  /**
   * The recursive calculateMoveList of Bishop, Rook and Queen, started at (x, y):
   * off the board or on an ally the ray stops unlisted; otherwise the cell is
   * listed, and the walk goes on to the next cell only if this one is empty.
   */
  function Ray(w: World, c: Color, x: int, y: int, dx: int, dy: int): (r: seq<Point>)
    requires Shape(w) && IsDir(dx, dy)
    ensures |r| <= Steps(x, y, dx, dy) && |r| <= SIDE
    decreases Steps(x, y, dx, dy)
  {
    if !OnBoard(x, y) || HoldsAlly(w, c, x, y) then []
    else if Vacant(w, x, y) then [Point(x, y)] + Ray(w, c, x + dx, y + dy, dx, dy)
    else [Point(x, y)]
  }

  /** One step of the walk, as Ray is defined. */
  lemma RayStep(w: World, c: Color, x: int, y: int, dx: int, dy: int)
    requires Shape(w) && IsDir(dx, dy)
    ensures Ray(w, c, x, y, dx, dy) ==
      if !OnBoard(x, y) || HoldsAlly(w, c, x, y) then []
      else if Vacant(w, x, y) then [Point(x, y)] + Ray(w, c, x + dx, y + dy, dx, dy)
      else [Point(x, y)]
  {
  }

  /** The rays of the calls dirs[k..], each started one step from `at`, in order. */
  function Rays(w: World, c: Color, at: Point, dirs: seq<Point>, k: nat): (r: seq<Point>)
    requires Shape(w) && k <= |dirs| && forall m | 0 <= m < |dirs| :: IsDir(dirs[m].x, dirs[m].y)
    ensures |r| <= SIDE * (|dirs| - k)
    decreases |dirs| - k
  {
    if k == |dirs| then [] else RayFrom(w, c, at, dirs[k]) + Rays(w, c, at, dirs, k + 1)
  }

  /** The ray of one call, started one step from `at` in direction d. */
  function RayFrom(w: World, c: Color, at: Point, d: Point): (r: seq<Point>)
    requires Shape(w) && IsDir(d.x, d.y)
    ensures |r| <= SIDE
  {
    Ray(w, c, at.x + d.x, at.y + d.y, d.x, d.y)
  }

  /** Bishop.updateMoveList: directions 0..3 are (+1,+1), (+1,-1), (-1,+1), (-1,-1). */
  const BISHOP_DIRS: seq<Point> := [Point(1, 1), Point(1, -1), Point(-1, 1), Point(-1, -1)]

  /** Rook.updateMoveList: directions 0..3 are (0,+1), (0,-1), (-1,0), (+1,0). */
  const ROOK_DIRS: seq<Point> := [Point(0, 1), Point(0, -1), Point(-1, 0), Point(1, 0)]

  /** Queen.updateMoveList: directions 0..3 are the diagonals, 4..7 the orthogonals. */
  const QUEEN_DIRS: seq<Point> := BISHOP_DIRS + ROOK_DIRS

  function BishopMoves(w: World, p: Piece): (r: seq<Point>)
    requires Shape(w)
    ensures |r| <= 4 * SIDE
  {
    Rays(w, p.color, p.pos, BISHOP_DIRS, 0)
  }

  function RookMoves(w: World, p: Piece): (r: seq<Point>)
    requires Shape(w)
    ensures |r| <= 4 * SIDE
  {
    Rays(w, p.color, p.pos, ROOK_DIRS, 0)
  }

  function QueenMoves(w: World, p: Piece): (r: seq<Point>)
    requires Shape(w)
    ensures |r| <= MAX_MOVES
  {
    Rays(w, p.color, p.pos, QUEEN_DIRS, 0)
  }

  // ------------------------------------------------------- single cells

  /**
   * The one-cell test of Knight and High Templar: an on-board cell is listed
   * unless an ally of colour c stands on it.
   */
  function Open(w: World, c: Color, x: int, y: int): seq<Point>
    requires Shape(w)
  {
    if OnBoard(x, y) && !HoldsAlly(w, c, x, y) then [Point(x, y)] else []
  }

  /** The one-cell calls for offsets offs[k..] from `at`, in order. */
  function Opens(w: World, c: Color, at: Point, offs: seq<Point>, k: nat): (r: seq<Point>)
    requires Shape(w) && k <= |offs|
    ensures |r| <= |offs| - k
    decreases |offs| - k
  {
    if k == |offs| then []
    else Open(w, c, at.x + offs[k].x, at.y + offs[k].y) + Opens(w, c, at, offs, k + 1)
  }

  /** Knight.updateMoveList: the eight L-shaped offsets in the order the source tries them. */
  const KNIGHT_OFFSETS: seq<Point> :=
    [Point(-1, -2), Point(-1, 2), Point(1, 2), Point(1, -2),
     Point(-2, -1), Point(-2, 1), Point(2, 1), Point(2, -1)]

  /** HighTemplar.updateMoveList: the eight neighbours, then (x, y+3), (x, y+4), (x, y-3), (x, y-4). */
  const TEMPLAR_OFFSETS: seq<Point> :=
    [Point(1, 0), Point(-1, 0), Point(1, 1), Point(1, -1), Point(-1, 1), Point(-1, -1),
     Point(0, 1), Point(0, -1), Point(0, 3), Point(0, 4), Point(0, -3), Point(0, -4)]

  /** King.updateMoveList: the eight neighbours in the order the source tries them. */
  const KING_OFFSETS: seq<Point> :=
    [Point(1, 0), Point(-1, 0), Point(1, 1), Point(1, -1),
     Point(-1, 1), Point(-1, -1), Point(0, 1), Point(0, -1)]

  function KnightMoves(w: World, p: Piece): (r: seq<Point>)
    requires Shape(w)
    ensures |r| <= 8
  {
    Opens(w, p.color, p.pos, KNIGHT_OFFSETS, 0)
  }

  function TemplarMoves(w: World, p: Piece): (r: seq<Point>)
    requires Shape(w)
    ensures |r| <= 12
  {
    Opens(w, p.color, p.pos, TEMPLAR_OFFSETS, 0)
  }

  /**
   * King.movesIntoCheck: some piece in the roster of colour e has pt in its
   * stored move list.  The lists are read as they are, never recomputed.
   */
  predicate ListedBy(w: World, e: Color, pt: Point)
    requires Shape(w)
  {
    var roster := w.rosters[PlayerOf(e)];
    exists id | id in roster :: pt in w.pieces[id].moveList
  }

  /** The loop of King.calculateMoveList over the players whose colour is not c. */
  predicate IntoCheck(w: World, c: Color, pt: Point)
    requires Shape(w)
  {
    exists i | 0 <= i < 2 :: PlayerColor(i) != c && ListedBy(w, PlayerColor(i), pt)
  }

  /** King.calculateMoveList for one neighbour. */
  function KingCell(w: World, c: Color, x: int, y: int): seq<Point>
    requires Shape(w)
  {
    if OnBoard(x, y) && !HoldsAlly(w, c, x, y) && !IntoCheck(w, c, Point(x, y)) then [Point(x, y)] else []
  }

  /** The King's calls for offsets offs[k..] from `at`, in order. */
  function KingCells(w: World, c: Color, at: Point, offs: seq<Point>, k: nat): (r: seq<Point>)
    requires Shape(w) && k <= |offs|
    ensures |r| <= |offs| - k
    decreases |offs| - k
  {
    if k == |offs| then []
    else KingCell(w, c, at.x + offs[k].x, at.y + offs[k].y) + KingCells(w, c, at, offs, k + 1)
  }

  function KingMoves(w: World, p: Piece): (r: seq<Point>)
    requires Shape(w)
    ensures |r| <= 8
  {
    KingCells(w, p.color, p.pos, KING_OFFSETS, 0)
  }

  // --------------------------------------------------------------- pawns

  /**
   * The four tests of Pawn.calculateMoveList for forward direction f (+1 for
   * black, -1 for white): double step, single step, capture right, capture left.
   */
  function PawnAdvance(w: World, p: Piece, f: int): seq<Point>
    requires Shape(w)
  {
    var x, y, c := p.pos.x, p.pos.y, p.color;
    (if p.firstMove && Vacant(w, x, y + f) && Vacant(w, x, y + 2 * f) then [Point(x, y + 2 * f)] else [])
    + (if Vacant(w, x, y + f) then [Point(x, y + f)] else [])
    + (if x + 1 >= 0 && HoldsEnemy(w, c, x + 1, y + f) then [Point(x + 1, y + f)] else [])
    + (if x - 1 >= 0 && HoldsEnemy(w, c, x - 1, y + f) then [Point(x - 1, y + f)] else [])
  }

  /** Pawn.updateMoveList with the bound tests exactly as written (y + 1 >= 8 for black, y - 1 <= 0 for white). */
  function PawnMoves(w: World, p: Piece): seq<Point>
    requires Shape(w)
  {
    if p.color == Black then
      if p.pos.y + 1 >= SIDE then [] else PawnAdvance(w, p, 1)
    else
      if p.pos.y - 1 <= 0 then [] else PawnAdvance(w, p, -1)
  }

  // --------------------------------------------------------------- ghost

  /** The cells whose coordinates both lie in 1..6, the only ones Ghost.calculateMoveList looks at. */
  predicate Interior(x: int, y: int)
  {
    !(y + 1 >= SIDE || y - 1 < 0 || x + 1 >= SIDE || x - 1 < 0)
  }

  /** The cell at distance i in snipe direction d (0 left, 1 upper-left, 2 up, ... 7 lower-left). */
  function SnipeTarget(x: int, y: int, d: int, i: int): Point
    requires 0 <= d < 8
  {
    match d
    case 0 => Point(x - i, y)
    case 1 => Point(x - i, y - i)
    case 2 => Point(x, y - i)
    case 3 => Point(x + i, y - i)
    case 4 => Point(x + i, y)
    case 5 => Point(x + i, y + i)
    case 6 => Point(x, y + i)
    case _ => Point(x - i, y + i)
  }

  /**
   * The snipe loop from distance i on: each target must hold a piece (an empty or
   * off-board target is a null dereference of getType) and is listed when that
   * piece is an enemy High Templar.
   */
  function Scan(w: World, c: Color, x: int, y: int, d: int, i: int): (r: Listing)
    requires Shape(w) && 0 <= d < 8 && 1 <= i
    ensures |r.moves| <= MAX_RANGE - 1
    ensures i < MAX_RANGE ==> |r.moves| <= MAX_RANGE - i
    decreases MAX_RANGE - i
  {
    if i >= MAX_RANGE then Listing([], false)
    else
      var t := SnipeTarget(x, y, d, i);
      if Vacant(w, t.x, t.y) then Listing([], true)
      else
        var hit := if HoldsEnemy(w, c, t.x, t.y) && w.pieces[GetPiece(w, t.x, t.y).value].kind == HighTemplar
                   then [t] else [];
        var rest := Scan(w, c, x, y, d, i + 1);
        Listing(hit + rest.moves, rest.fault)
  }

  /**
   * Ghost.calculateMoveList(x, y, dir): outside 1..6 nothing happens; an empty
   * cell is isEnemy(null), a null dereference; an ally stops quietly; an enemy
   * is listed (dir == -1) or starts the snipe scan in direction dir.
   */
  function GhostCall(w: World, c: Color, x: int, y: int, dir: int): (r: Listing)
    requires Shape(w) && -1 <= dir < 8
    ensures |r.moves| <= MAX_RANGE - 1
  {
    if !Interior(x, y) then Listing([], false)
    else if Vacant(w, x, y) then Listing([], true)
    else if !HoldsEnemy(w, c, x, y) then Listing([], false)
    else if dir != -1 then Scan(w, c, x, y, dir, 1)
    else Listing([Point(x, y)], false)
  }

  /** One of the sixteen calls of Ghost.updateMoveList: offset from the Ghost and direction code. */
  datatype GhostProbe = GhostProbe(dx: int, dy: int, dir: int)

  const GHOST_PROBES: seq<GhostProbe> :=
    [GhostProbe(1, 0, -1), GhostProbe(-1, 0, -1), GhostProbe(0, 1, -1), GhostProbe(0, -1, -1),
     GhostProbe(1, 1, -1), GhostProbe(-1, 1, -1), GhostProbe(1, -1, -1), GhostProbe(-1, -1, -1),
     GhostProbe(0, 0, 0), GhostProbe(0, 0, 1), GhostProbe(0, 0, 2), GhostProbe(0, 0, 3),
     GhostProbe(0, 0, 4), GhostProbe(0, 0, 5), GhostProbe(0, 0, 6), GhostProbe(0, 0, 7)]

  function GhostProbeAt(w: World, p: Piece, k: nat): Listing
    requires Shape(w) && k < |GHOST_PROBES|
  {
    var g := GHOST_PROBES[k];
    GhostCall(w, p.color, p.pos.x + g.dx, p.pos.y + g.dy, g.dir)
  }

  /** The first n calls of Ghost.updateMoveList, stopping at a throw. */
  function GhostPrefix(w: World, p: Piece, n: nat): (r: Listing)
    requires Shape(w) && n <= |GHOST_PROBES|
    ensures |r.moves| <= (MAX_RANGE - 1) * n
  {
    if n == 0 then Listing([], false) else Then(GhostPrefix(w, p, n - 1), GhostProbeAt(w, p, n - 1))
  }

  /** One more call of Ghost.updateMoveList, as GhostPrefix is defined. */
  lemma GhostPrefixStep(w: World, p: Piece, n: nat)
    requires Shape(w) && n < |GHOST_PROBES|
    ensures GhostPrefix(w, p, 0) == Listing([], false)
    ensures GhostPrefix(w, p, n + 1) == Then(GhostPrefix(w, p, n), GhostProbeAt(w, p, n))
  {
  }

  function GhostMoves(w: World, p: Piece): Listing
    requires Shape(w)
  {
    GhostPrefix(w, p, |GHOST_PROBES|)
  }

  // ------------------------------------------------------------ dispatch

  /** The overriding updateMoveList of p's kind, applied to a cleared list. */
  function Generate(w: World, p: Piece): (r: Listing)
    requires Shape(w)
    ensures |r.moves| <= MAX_MOVES
    ensures p.kind != Ghost ==> !r.fault
  {
    match p.kind
    case Pawn => Listing(PawnMoves(w, p), false)
    case Knight => Listing(KnightMoves(w, p), false)
    case Bishop => Listing(BishopMoves(w, p), false)
    case Rook => Listing(RookMoves(w, p), false)
    case Queen => Listing(QueenMoves(w, p), false)
    case King => Listing(KingMoves(w, p), false)
    case HighTemplar => Listing(TemplarMoves(w, p), false)
    case Ghost => GhostMoves(w, p)
  }
}
