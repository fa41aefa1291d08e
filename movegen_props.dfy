/**
 * What the move generators promise: the shape of every ray, the Knight, King
 * and High Templar candidate sets, the pawn rules with their bound quirks, and
 * the Ghost's adjacent checks and snipe scans.
 */
module MoveGenProps {
  import opened Model
  import opened MoveGen

  /** No entry of s occurs twice. */
  predicate Distinct<T(==)>(s: seq<T>)
  {
    forall a, b | 0 <= a < b < |s| :: s[a] != s[b]
  }

  /** The cell at offset o from at. */
  function Shift(at: Point, o: Point): Point
  {
    Point(at.x + o.x, at.y + o.y)
  }

  /** The offset of pt from at. */
  function Delta(at: Point, pt: Point): Point
  {
    Point(pt.x - at.x, pt.y - at.y)
  }

  // ---------------------------------------------------------------- rays

  /** The k-th cell of the ray that starts at (x, y). */
  function RayCell(x: int, y: int, dx: int, dy: int, k: int): Point
  {
    Point(x + Stride(k, dx), y + Stride(k, dy))
  }

  /** A ray lists consecutive cells of its line, starting on its start cell. */
  lemma {:induction false} RayCells(w: World, c: Color, x: int, y: int, dx: int, dy: int)
    requires Shape(w) && IsDir(dx, dy)
    ensures var r := Ray(w, c, x, y, dx, dy);
      forall k | 0 <= k < |r| :: r[k] == RayCell(x, y, dx, dy, k)
    decreases Steps(x, y, dx, dy)
  {
    hide Ray;
    RayStep(w, c, x, y, dx, dy);
    var r := Ray(w, c, x, y, dx, dy);
    if OnBoard(x, y) && !HoldsAlly(w, c, x, y) && Vacant(w, x, y) {
      var rest := Ray(w, c, x + dx, y + dy, dx, dy);
      RayCells(w, c, x + dx, y + dy, dx, dy);
      assert r == [Point(x, y)] + rest;
      forall k | 0 <= k < |r| ensures r[k] == RayCell(x, y, dx, dy, k) {
        RayCellNext(x, y, dx, dy, k - 1);
        if k > 0 {
          assert r[k] == rest[k - 1];
        }
      }
    } else if r != [] {
      RayCellNext(x, y, dx, dy, -1);
    }
  }

  /** The line from the next cell is the line from this one, one step on. */
  lemma RayCellNext(x: int, y: int, dx: int, dy: int, k: int)
    requires IsDir(dx, dy)
    ensures RayCell(x + dx, y + dy, dx, dy, k) == RayCell(x, y, dx, dy, k + 1)
    ensures RayCell(x, y, dx, dy, 0) == Point(x, y)
  {
  }

  /** Every listed cell is on the board and not held by an ally. */
  lemma {:induction false} RaySafe(w: World, c: Color, x: int, y: int, dx: int, dy: int)
    requires Shape(w) && IsDir(dx, dy)
    ensures forall pt | pt in Ray(w, c, x, y, dx, dy) :: OnBoard(pt.x, pt.y) && !HoldsAlly(w, c, pt.x, pt.y)
    decreases Steps(x, y, dx, dy)
  {
    hide Ray;
    RayStep(w, c, x, y, dx, dy);
    if OnBoard(x, y) && !HoldsAlly(w, c, x, y) && Vacant(w, x, y) {
      RaySafe(w, c, x + dx, y + dy, dx, dy);
    }
  }

  /** The walk went on past a listed cell only because that cell was empty. */
  lemma {:induction false} RayThroughVacant(w: World, c: Color, x: int, y: int, dx: int, dy: int)
    requires Shape(w) && IsDir(dx, dy)
    ensures forall k | 0 <= k < |Ray(w, c, x, y, dx, dy)| - 1 ::
              Vacant(w, Ray(w, c, x, y, dx, dy)[k].x, Ray(w, c, x, y, dx, dy)[k].y)
    decreases Steps(x, y, dx, dy)
  {
    hide Ray;
    RayStep(w, c, x, y, dx, dy);
    var r := Ray(w, c, x, y, dx, dy);
    if OnBoard(x, y) && !HoldsAlly(w, c, x, y) && Vacant(w, x, y) {
      var rest := Ray(w, c, x + dx, y + dy, dx, dy);
      RayThroughVacant(w, c, x + dx, y + dy, dx, dy);
      assert r == [Point(x, y)] + rest;
      forall k | 0 <= k < |r| - 1 ensures Vacant(w, r[k].x, r[k].y) {
        if k > 0 {
          assert k - 1 < |rest| - 1;
          assert r[k] == rest[k - 1];
          assert Vacant(w, rest[k - 1].x, rest[k - 1].y);
        } else {
          assert r[k] == Point(x, y);
        }
      }
    }
  }

  /**
   * The walk stopped because the last listed cell holds an enemy, or because
   * the next cell of the line is off the board or held by an ally.
   */
  lemma {:induction false} RayStop(w: World, c: Color, x: int, y: int, dx: int, dy: int)
    requires Shape(w) && IsDir(dx, dy)
    ensures var r := Ray(w, c, x, y, dx, dy);
      var next := RayCell(x, y, dx, dy, |r|);
      || (|r| > 0 && HoldsEnemy(w, c, r[|r| - 1].x, r[|r| - 1].y))
      || !OnBoard(next.x, next.y) || HoldsAlly(w, c, next.x, next.y)
    decreases Steps(x, y, dx, dy)
  {
    hide Ray, RayCell;
    RayStep(w, c, x, y, dx, dy);
    var r := Ray(w, c, x, y, dx, dy);
    if !OnBoard(x, y) || HoldsAlly(w, c, x, y) {
      RayCellNext(x, y, dx, dy, 0);
    } else if Vacant(w, x, y) {
      var rest := Ray(w, c, x + dx, y + dy, dx, dy);
      RayStop(w, c, x + dx, y + dy, dx, dy);
      assert r == [Point(x, y)] + rest;
      RayCellNext(x, y, dx, dy, |rest|);
      if |rest| > 0 {
        assert r[|r| - 1] == rest[|rest| - 1];
      }
    } else {
      CellCases(w, c, x, y);
    }
  }

  /** The four ray facts together: the ray-stop rule of Bishop, Rook and Queen. */
  lemma RayShape(w: World, c: Color, x: int, y: int, dx: int, dy: int)
    requires Shape(w) && IsDir(dx, dy)
    ensures var r := Ray(w, c, x, y, dx, dy);
      && (forall k | 0 <= k < |r| :: r[k] == RayCell(x, y, dx, dy, k))
      && (forall pt | pt in r :: OnBoard(pt.x, pt.y) && !HoldsAlly(w, c, pt.x, pt.y))
      && (forall k | 0 <= k < |r| - 1 :: Vacant(w, r[k].x, r[k].y))
      && var next := RayCell(x, y, dx, dy, |r|);
         || (|r| > 0 && HoldsEnemy(w, c, r[|r| - 1].x, r[|r| - 1].y))
         || !OnBoard(next.x, next.y) || HoldsAlly(w, c, next.x, next.y)
  {
    RayCells(w, c, x, y, dx, dy);
    RaySafe(w, c, x, y, dx, dy);
    RayThroughVacant(w, c, x, y, dx, dy);
    RayStop(w, c, x, y, dx, dy);
  }

  /** A listed cell lies 1 .. 8 steps from the piece along the ray's direction. */
  lemma RayOnLine(w: World, c: Color, at: Point, d: Point, pt: Point)
    requires Shape(w) && IsDir(d.x, d.y) && pt in RayFrom(w, c, at, d)
    ensures exists k | 1 <= k <= SIDE :: pt == RayCell(at.x, at.y, d.x, d.y, k)
  {
    hide Ray;
    var x, y := at.x + d.x, at.y + d.y;
    var r := Ray(w, c, x, y, d.x, d.y);
    RayCells(w, c, x, y, d.x, d.y);
    var k :| 0 <= k < |r| && r[k] == pt;
    assert pt == RayCell(x, y, d.x, d.y, k);
    assert RayCell(x, y, d.x, d.y, k) == RayCell(at.x, at.y, d.x, d.y, k + 1);
  }

  /** A cell is listed by the rays dirs[k..] iff one of those rays lists it. */
  lemma {:induction false} RaysMember(w: World, c: Color, at: Point, dirs: seq<Point>, k: nat, pt: Point)
    requires Shape(w) && k <= |dirs| && forall m | 0 <= m < |dirs| :: IsDir(dirs[m].x, dirs[m].y)
    ensures pt in Rays(w, c, at, dirs, k) <==>
              exists m | k <= m < |dirs| :: pt in RayFrom(w, c, at, dirs[m])
    decreases |dirs| - k
  {
    hide Rays, RayFrom;
    if k < |dirs| {
      RaysStep(w, c, at, dirs, k);
      RaysMember(w, c, at, dirs, k + 1, pt);
    }
  }

  /** One direction more, as Rays is defined. */
  lemma RaysStep(w: World, c: Color, at: Point, dirs: seq<Point>, k: nat)
    requires Shape(w) && k < |dirs| && forall m | 0 <= m < |dirs| :: IsDir(dirs[m].x, dirs[m].y)
    ensures Rays(w, c, at, dirs, k) == RayFrom(w, c, at, dirs[k]) + Rays(w, c, at, dirs, k + 1)
  {
  }

  /** Walking the directions a ++ b lists what walking a and then b lists. */
  lemma {:induction false} RaysAppend(w: World, c: Color, at: Point, a: seq<Point>, b: seq<Point>, k: nat)
    requires Shape(w) && k <= |a|
    requires forall m | 0 <= m < |a| :: IsDir(a[m].x, a[m].y)
    requires forall m | 0 <= m < |b| :: IsDir(b[m].x, b[m].y)
    ensures forall m | 0 <= m < |a + b| :: IsDir((a + b)[m].x, (a + b)[m].y)
    ensures Rays(w, c, at, a + b, k) == Rays(w, c, at, a, k) + Rays(w, c, at, b, 0)
    decreases |a| - k
  {
    assert forall m | 0 <= m < |a + b| :: IsDir((a + b)[m].x, (a + b)[m].y) by {
      forall m | 0 <= m < |a + b| ensures IsDir((a + b)[m].x, (a + b)[m].y) {
        if m >= |a| { assert (a + b)[m] == b[m - |a|]; }
      }
    }
    if k == |a| {
      RaysShift(w, c, at, a, b, 0);
    } else {
      RaysAppend(w, c, at, a, b, k + 1);
      assert (a + b)[k] == a[k];
      ConcatAssoc(RayFrom(w, c, at, a[k]), Rays(w, c, at, a, k + 1), Rays(w, c, at, b, 0));
    }
  }

  /** The rays of a ++ b from index |a| + k on are the rays of b from k on. */
  lemma {:induction false} RaysShift(w: World, c: Color, at: Point, a: seq<Point>, b: seq<Point>, k: nat)
    requires Shape(w) && k <= |b|
    requires forall m | 0 <= m < |a + b| :: IsDir((a + b)[m].x, (a + b)[m].y)
    requires forall m | 0 <= m < |b| :: IsDir(b[m].x, b[m].y)
    ensures Rays(w, c, at, a + b, |a| + k) == Rays(w, c, at, b, k)
    decreases |b| - k
  {
    if k < |b| {
      RaysShift(w, c, at, a, b, k + 1);
      assert (a + b)[|a| + k] == b[k];
    }
  }

  /** A ray listed by one call lies on the board, off allies, 1 .. 8 steps from the piece. */
  lemma RayFromLine(w: World, c: Color, at: Point, d: Point, pt: Point)
    requires Shape(w) && IsDir(d.x, d.y) && pt in RayFrom(w, c, at, d)
    ensures OnBoard(pt.x, pt.y) && !HoldsAlly(w, c, pt.x, pt.y)
    ensures exists k | 1 <= k <= SIDE :: pt == RayCell(at.x, at.y, d.x, d.y, k)
  {
    RaySafe(w, c, at.x + d.x, at.y + d.y, d.x, d.y);
    RayOnLine(w, c, at, d, pt);
  }

  /** Whatever a walk of the rays dirs lists lies on one of its lines, on the board, off allies. */
  lemma RaysLine(w: World, c: Color, at: Point, dirs: seq<Point>, pt: Point)
    requires Shape(w) && forall m | 0 <= m < |dirs| :: IsDir(dirs[m].x, dirs[m].y)
    requires pt in Rays(w, c, at, dirs, 0)
    ensures OnBoard(pt.x, pt.y) && !HoldsAlly(w, c, pt.x, pt.y)
    ensures exists m, k | 0 <= m < |dirs| && 1 <= k <= SIDE :: pt == RayCell(at.x, at.y, dirs[m].x, dirs[m].y, k)
  {
    RaysMember(w, c, at, dirs, 0, pt);
    var m :| 0 <= m < |dirs| && pt in RayFrom(w, c, at, dirs[m]);
    RayFromLine(w, c, at, dirs[m], pt);
  }

  /** Every cell the Bishop lists is on a diagonal through it, on the board and not an ally's. */
  lemma BishopDiagonals(w: World, p: Piece, pt: Point)
    requires Shape(w) && pt in BishopMoves(w, p)
    ensures OnBoard(pt.x, pt.y) && !HoldsAlly(w, p.color, pt.x, pt.y)
    ensures pt != p.pos
    ensures Abs(pt.x - p.pos.x) == Abs(pt.y - p.pos.y)
  {
    RaysLine(w, p.color, p.pos, BISHOP_DIRS, pt);
    var m, k :| 0 <= m < 4 && 1 <= k <= SIDE && pt == RayCell(p.pos.x, p.pos.y, BISHOP_DIRS[m].x, BISHOP_DIRS[m].y, k);
  }

  /** Every cell the Rook lists shares its row or column, on the board and not an ally's. */
  lemma RookLines(w: World, p: Piece, pt: Point)
    requires Shape(w) && pt in RookMoves(w, p)
    ensures OnBoard(pt.x, pt.y) && !HoldsAlly(w, p.color, pt.x, pt.y)
    ensures pt != p.pos
    ensures pt.x == p.pos.x || pt.y == p.pos.y
  {
    RaysLine(w, p.color, p.pos, ROOK_DIRS, pt);
    var m, k :| 0 <= m < 4 && 1 <= k <= SIDE && pt == RayCell(p.pos.x, p.pos.y, ROOK_DIRS[m].x, ROOK_DIRS[m].y, k);
  }

  /** The Queen lists exactly what the Bishop rule and then the Rook rule list from its square. */
  lemma QueenIsBishopThenRook(w: World, p: Piece)
    requires Shape(w)
    ensures QueenMoves(w, p) == BishopMoves(w, p) + RookMoves(w, p)
    ensures forall pt :: pt in QueenMoves(w, p) <==> pt in BishopMoves(w, p) || pt in RookMoves(w, p)
  {
    RaysAppend(w, p.color, p.pos, BISHOP_DIRS, ROOK_DIRS, 0);
  }

  /** Every cell the Queen lists is on a line through it, on the board and not an ally's. */
  lemma QueenLines(w: World, p: Piece, pt: Point)
    requires Shape(w) && pt in QueenMoves(w, p)
    ensures OnBoard(pt.x, pt.y) && !HoldsAlly(w, p.color, pt.x, pt.y) && pt != p.pos
    ensures pt.x == p.pos.x || pt.y == p.pos.y || Abs(pt.x - p.pos.x) == Abs(pt.y - p.pos.y)
  {
    QueenIsBishopThenRook(w, p);
    if pt in BishopMoves(w, p) { BishopDiagonals(w, p, pt); } else { RookLines(w, p, pt); }
  }

  // ------------------------------------------------- one-cell candidates

  /** A cell is listed by the calls offs[k..] iff it is one of their cells, on the board and not ally-held. */
  lemma {:induction false} OpensMember(w: World, c: Color, at: Point, offs: seq<Point>, k: nat, pt: Point)
    requires Shape(w) && k <= |offs|
    ensures pt in Opens(w, c, at, offs, k) <==>
              (exists m | k <= m < |offs| :: pt == Shift(at, offs[m])) && OnBoard(pt.x, pt.y) && !HoldsAlly(w, c, pt.x, pt.y)
    decreases |offs| - k
  {
    if k < |offs| {
      OpensMember(w, c, at, offs, k + 1, pt);
    }
  }

  /** The same, with the offset of the cell looked up in the table. */
  lemma OpensOffsets(w: World, c: Color, at: Point, offs: seq<Point>, pt: Point)
    requires Shape(w)
    ensures pt in Opens(w, c, at, offs, 0) <==>
              Delta(at, pt) in offs && OnBoard(pt.x, pt.y) && !HoldsAlly(w, c, pt.x, pt.y)
  {
    OpensMember(w, c, at, offs, 0, pt);
    if Delta(at, pt) in offs {
      var m :| 0 <= m < |offs| && offs[m] == Delta(at, pt);
      assert pt == Shift(at, offs[m]);
    }
  }

  /** With distinct offsets, no cell is listed twice. */
  lemma {:induction false} OpensDistinct(w: World, c: Color, at: Point, offs: seq<Point>, k: nat)
    requires Shape(w) && k <= |offs| && Distinct(offs)
    ensures Distinct(Opens(w, c, at, offs, k))
    decreases |offs| - k
  {
    hide Open, Opens;
    if k < |offs| {
      OffsStep(w, c, at, offs, k);
      OpensDistinct(w, c, at, offs, k + 1);
      var head := Open(w, c, at.x + offs[k].x, at.y + offs[k].y);
      var rest := Opens(w, c, at, offs, k + 1);
      CellShape(w, c, at.x + offs[k].x, at.y + offs[k].y);
      var q := Shift(at, offs[k]);
      if head != [] {
        forall m | k + 1 <= m < |offs| ensures q != Shift(at, offs[m]) {
          assert offs[k] != offs[m];
        }
        CellsAvoid(w, c, at, offs, k + 1, q);
      }
      DistinctStep(head, rest, q);
    }
  }

  /** A one-cell call lists its cell or nothing. */
  lemma CellShape(w: World, c: Color, x: int, y: int)
    requires Shape(w)
    ensures Open(w, c, x, y) == [] || Open(w, c, x, y) == [Point(x, y)]
    ensures KingCell(w, c, x, y) == [] || KingCell(w, c, x, y) == [Point(x, y)]
  {
  }

  /** One offset more, as Opens and KingCells are defined. */
  lemma OffsStep(w: World, c: Color, at: Point, offs: seq<Point>, k: nat)
    requires Shape(w) && k < |offs|
    ensures Opens(w, c, at, offs, k) == Open(w, c, at.x + offs[k].x, at.y + offs[k].y) + Opens(w, c, at, offs, k + 1)
    ensures KingCells(w, c, at, offs, k) == KingCell(w, c, at.x + offs[k].x, at.y + offs[k].y) + KingCells(w, c, at, offs, k + 1)
  {
  }

  /** A cell that no offset from k on reaches is listed by neither call. */
  lemma {:induction false} CellsAvoid(w: World, c: Color, at: Point, offs: seq<Point>, k: nat, q: Point)
    requires Shape(w) && k <= |offs|
    requires forall m | k <= m < |offs| :: q != Shift(at, offs[m])
    ensures q !in Opens(w, c, at, offs, k) && q !in KingCells(w, c, at, offs, k)
    decreases |offs| - k
  {
    hide Open, KingCell, Opens, KingCells;
    if k < |offs| {
      OffsStep(w, c, at, offs, k);
      CellShape(w, c, at.x + offs[k].x, at.y + offs[k].y);
      CellsAvoid(w, c, at, offs, k + 1, q);
    }
  }

  /** A list of at most one cell in front of a distinct list that lacks it. */
  lemma DistinctStep(head: seq<Point>, rest: seq<Point>, q: Point)
    requires head == [] || head == [Point(q.x, q.y)]
    requires head != [] ==> q !in rest
    requires Distinct(rest)
    ensures Distinct(head + rest)
  {
    if head == [] {
      assert head + rest == rest;
    } else {
      DistinctCons(q, rest);
    }
  }

  lemma DistinctCons<T>(a: T, s: seq<T>)
    requires a !in s && Distinct(s)
    ensures Distinct([a] + s)
  {
    forall i, j | 0 <= i < j < |[a] + s| ensures ([a] + s)[i] != ([a] + s)[j] {
      assert ([a] + s)[j] == s[j - 1];
      if i > 0 { assert ([a] + s)[i] == s[i - 1]; }
    }
  }

  // -------------------------------------------------------------- knight

  /** The L jump: one step along one axis and two along the other. */
  predicate LShape(d: Point)
  {
    (Abs(d.x) == 1 && Abs(d.y) == 2) || (Abs(d.x) == 2 && Abs(d.y) == 1)
  }

  lemma KnightTable(d: Point)
    ensures d in KNIGHT_OFFSETS <==> LShape(d)
    ensures Distinct(KNIGHT_OFFSETS)
  {
  }

  /** A cell is listed by the Knight iff it is an L jump away, on the board, and empty or enemy-held. */
  lemma KnightExact(w: World, p: Piece, pt: Point)
    requires Shape(w)
    ensures pt in KnightMoves(w, p) <==>
              LShape(Delta(p.pos, pt)) && OnBoard(pt.x, pt.y) && !HoldsAlly(w, p.color, pt.x, pt.y)
  {
    OpensOffsets(w, p.color, p.pos, KNIGHT_OFFSETS, pt);
    KnightTable(Delta(p.pos, pt));
  }

  /** The Knight lists at most eight cells, none twice. */
  lemma KnightDistinct(w: World, p: Piece)
    requires Shape(w)
    ensures |KnightMoves(w, p)| <= 8 && Distinct(KnightMoves(w, p))
  {
    KnightTable(Point(0, 0));
    OpensDistinct(w, p.color, p.pos, KNIGHT_OFFSETS, 0);
  }

  // ---------------------------------------------------------------- king

  /** One of the eight neighbouring offsets. */
  predicate Neighbour(d: Point)
  {
    Abs(d.x) <= 1 && Abs(d.y) <= 1 && d != Point(0, 0)
  }

  lemma KingTable(d: Point)
    ensures d in KING_OFFSETS <==> Neighbour(d)
    ensures Distinct(KING_OFFSETS)
  {
  }

  /** A cell is listed by the King's calls offs[k..] iff it is one of their cells, safe and outside every enemy list. */
  lemma {:induction false} KingCellsMember(w: World, c: Color, at: Point, offs: seq<Point>, k: nat, pt: Point)
    requires Shape(w) && k <= |offs|
    ensures pt in KingCells(w, c, at, offs, k) <==>
              && (exists m | k <= m < |offs| :: pt == Shift(at, offs[m]))
              && OnBoard(pt.x, pt.y) && !HoldsAlly(w, c, pt.x, pt.y) && !IntoCheck(w, c, pt)
    decreases |offs| - k
  {
    if k < |offs| {
      KingCellsMember(w, c, at, offs, k + 1, pt);
    }
  }

  /**
   * A cell is listed by the King iff it is adjacent, on the board, not
   * ally-held, and in no stored move list of an enemy roster piece.
   */
  lemma KingExact(w: World, p: Piece, pt: Point)
    requires Shape(w)
    ensures pt in KingMoves(w, p) <==>
              Neighbour(Delta(p.pos, pt)) && OnBoard(pt.x, pt.y) && !HoldsAlly(w, p.color, pt.x, pt.y)
              && !IntoCheck(w, p.color, pt)
  {
    KingCellsMember(w, p.color, p.pos, KING_OFFSETS, 0, pt);
    KingTable(Delta(p.pos, pt));
    if Delta(p.pos, pt) in KING_OFFSETS {
      var m :| 0 <= m < |KING_OFFSETS| && KING_OFFSETS[m] == Delta(p.pos, pt);
      assert pt == Shift(p.pos, KING_OFFSETS[m]);
    }
  }

  /** With distinct offsets, the King lists no cell twice. */
  lemma {:induction false} KingCellsDistinct(w: World, c: Color, at: Point, offs: seq<Point>, k: nat)
    requires Shape(w) && k <= |offs| && Distinct(offs)
    ensures Distinct(KingCells(w, c, at, offs, k))
    decreases |offs| - k
  {
    hide KingCell, KingCells;
    if k < |offs| {
      OffsStep(w, c, at, offs, k);
      KingCellsDistinct(w, c, at, offs, k + 1);
      var head := KingCell(w, c, at.x + offs[k].x, at.y + offs[k].y);
      var rest := KingCells(w, c, at, offs, k + 1);
      CellShape(w, c, at.x + offs[k].x, at.y + offs[k].y);
      var q := Shift(at, offs[k]);
      if head != [] {
        forall m | k + 1 <= m < |offs| ensures q != Shift(at, offs[m]) {
          assert offs[k] != offs[m];
        }
        CellsAvoid(w, c, at, offs, k + 1, q);
      }
      DistinctStep(head, rest, q);
    }
  }

  /** The King lists at most eight cells, none twice. */
  lemma KingDistinct(w: World, p: Piece)
    requires Shape(w)
    ensures |KingMoves(w, p)| <= 8 && Distinct(KingMoves(w, p))
  {
    KingTable(Point(0, 0));
    KingCellsDistinct(w, p.color, p.pos, KING_OFFSETS, 0);
  }

  function Other(c: Color): Color
  {
    if c == White then Black else White
  }

  /** The one player whose colour is not c. */
  lemma EnemyPlayer(c: Color, i: int)
    requires 0 <= i < 2
    ensures PlayerColor(i) != c <==> i == PlayerOf(Other(c))
    ensures PlayerOf(PlayerColor(i)) == i
  {
  }

  /** King.movesIntoCheck holds exactly when some piece of the other player's roster lists pt. */
  lemma IntoCheckExact(w: World, c: Color, pt: Point)
    requires Shape(w)
    ensures IntoCheck(w, c, pt) <==>
              exists id | id in w.rosters[PlayerOf(Other(c))] :: pt in w.pieces[id].moveList
  {
    EnemyPlayer(c, 0);
    EnemyPlayer(c, 1);
  }

  /** An adjacent enemy the King may take: listed when no enemy roster piece lists its cell. */
  lemma KingCaptures(w: World, p: Piece, pt: Point)
    requires Shape(w) && Neighbour(Delta(p.pos, pt)) && OnBoard(pt.x, pt.y) && HoldsEnemy(w, p.color, pt.x, pt.y)
    requires forall id | id in w.rosters[PlayerOf(Other(p.color))] :: pt !in w.pieces[id].moveList
    ensures pt in KingMoves(w, p)
  {
    KingExact(w, p, pt);
    IntoCheckExact(w, p.color, pt);
    CellCases(w, p.color, pt.x, pt.y);
  }

  // ------------------------------------------------------- high templar

  /** The eight neighbours and the cells 3 and 4 rows away in the Templar's own column. */
  predicate TemplarReach(d: Point)
  {
    Neighbour(d) || (d.x == 0 && (Abs(d.y) == 3 || Abs(d.y) == 4))
  }

  lemma TemplarTable(d: Point)
    ensures d in TEMPLAR_OFFSETS <==> TemplarReach(d)
    ensures Distinct(TEMPLAR_OFFSETS)
  {
  }

  /**
   * A cell is listed by a High Templar iff it is one of its twelve candidates,
   * on the board, and not ally-held; no candidate is listed twice, and the
   * energy counter plays no part.
   */
  lemma TemplarExact(w: World, p: Piece, pt: Point, energy: int)
    requires Shape(w)
    ensures pt in TemplarMoves(w, p) <==>
              TemplarReach(Delta(p.pos, pt)) && OnBoard(pt.x, pt.y) && !HoldsAlly(w, p.color, pt.x, pt.y)
    ensures Distinct(TemplarMoves(w, p))
    ensures TemplarMoves(w, p.(energy := energy)) == TemplarMoves(w, p)
  {
    OpensOffsets(w, p.color, p.pos, TEMPLAR_OFFSETS, pt);
    TemplarTable(Delta(p.pos, pt));
    OpensDistinct(w, p.color, p.pos, TEMPLAR_OFFSETS, 0);
  }

  // --------------------------------------------------------------- pawns

  /** +1 for black, -1 for white: the direction a pawn advances. */
  function Forward(c: Color): int
  {
    if c == Black then 1 else -1
  }

  /** The bound test of Pawn.calculateMoveList as written. */
  predicate PawnBlocked(p: Piece)
  {
    if p.color == Black then p.pos.y + 1 >= SIDE else p.pos.y - 1 <= 0
  }

  /**
   * Pawn.calculateMoveList: behind the bound test a pawn lists exactly its
   * double step (first move, both cells empty), its single step (forward cell
   * empty) and the forward diagonals that hold an enemy; past the bound it
   * lists nothing.
   */
  lemma PawnExact(w: World, p: Piece, pt: Point)
    requires Shape(w)
    ensures var f, x, y := Forward(p.color), p.pos.x, p.pos.y;
      pt in PawnMoves(w, p) <==>
        !PawnBlocked(p)
        && (|| (pt == Point(x, y + 2 * f) && p.firstMove && Vacant(w, x, y + f) && Vacant(w, x, y + 2 * f))
            || (pt == Point(x, y + f) && Vacant(w, x, y + f))
            || (pt == Point(x + 1, y + f) && HoldsEnemy(w, p.color, x + 1, y + f))
            || (pt == Point(x - 1, y + f) && HoldsEnemy(w, p.color, x - 1, y + f)))
  {
    var f, x, y, c := Forward(p.color), p.pos.x, p.pos.y, p.color;
    if !PawnBlocked(p) {
      assert PawnMoves(w, p) == PawnAdvance(w, p, f);
      var a := if p.firstMove && Vacant(w, x, y + f) && Vacant(w, x, y + 2 * f) then [Point(x, y + 2 * f)] else [];
      var b := if Vacant(w, x, y + f) then [Point(x, y + f)] else [];
      var r := if x + 1 >= 0 && HoldsEnemy(w, c, x + 1, y + f) then [Point(x + 1, y + f)] else [];
      var l := if x - 1 >= 0 && HoldsEnemy(w, c, x - 1, y + f) then [Point(x - 1, y + f)] else [];
      assert PawnAdvance(w, p, f) == a + b + r + l;
      InFour(pt, a, b, r, l);
      if HoldsEnemy(w, c, x + 1, y + f) {
        assert x + 1 >= 0;
      }
      if HoldsEnemy(w, c, x - 1, y + f) {
        assert x - 1 >= 0;
      }
    }
  }

  /** Membership in four concatenated lists. */
  lemma InFour<T>(q: T, a: seq<T>, b: seq<T>, c: seq<T>, d: seq<T>)
    ensures q in a + b + c + d <==> q in a || q in b || q in c || q in d
  {
  }

  /** Black pawns advance toward +y and white pawns toward -y, by one row, or by two on the first move. */
  lemma PawnDirection(w: World, p: Piece, pt: Point)
    requires Shape(w) && pt in PawnMoves(w, p)
    ensures pt.y == p.pos.y + Forward(p.color) || pt.y == p.pos.y + 2 * Forward(p.color)
    ensures pt.y == p.pos.y + 2 * Forward(p.color) ==> p.firstMove && pt.x == p.pos.x
  {
    PawnExact(w, p, pt);
  }

  /** An occupant of the forward cell, of either colour, blocks both straight steps. */
  lemma PawnBlockedAhead(w: World, p: Piece)
    requires Shape(w) && !Vacant(w, p.pos.x, p.pos.y + Forward(p.color))
    ensures Point(p.pos.x, p.pos.y + Forward(p.color)) !in PawnMoves(w, p)
    ensures Point(p.pos.x, p.pos.y + 2 * Forward(p.color)) !in PawnMoves(w, p)
  {
    PawnExact(w, p, Point(p.pos.x, p.pos.y + Forward(p.color)));
    PawnExact(w, p, Point(p.pos.x, p.pos.y + 2 * Forward(p.color)));
  }

  /** A black pawn on row 7 or beyond, and a white pawn on row 1 or below, list nothing. */
  lemma PawnBounds(w: World, p: Piece)
    requires Shape(w)
    requires (p.color == Black && p.pos.y >= 7) || (p.color == White && p.pos.y <= 1)
    ensures PawnMoves(w, p) == []
  {
  }

  /**
   * A black first-move pawn on row 6 of an 8-row board lists (x, 8) when (x, 7)
   * is empty: the cell off the board reads as empty.
   */
  lemma BlackPawnLeavesBoard(w: World, p: Piece)
    requires Shape(w) && w.height <= SIDE
    requires p.color == Black && p.pos.y == 6 && p.firstMove && Vacant(w, p.pos.x, 7)
    ensures Point(p.pos.x, 8) in PawnMoves(w, p) && !OnBoard(p.pos.x, 8)
  {
    PawnExact(w, p, Point(p.pos.x, 8));
  }

  // --------------------------------------------------------------- ghost

  /**
   * A snipe scan lists only cells at distance i .. MAX_RANGE - 1 in its
   * direction, and only those holding an enemy High Templar.
   */
  lemma {:induction false} ScanHits(w: World, c: Color, x: int, y: int, d: int, i: int, pt: Point)
    requires Shape(w) && 0 <= d < 8 && 1 <= i && pt in Scan(w, c, x, y, d, i).moves
    ensures exists k | i <= k < MAX_RANGE :: pt == SnipeTarget(x, y, d, k)
    ensures HoldsEnemy(w, c, pt.x, pt.y) && w.pieces[GetPiece(w, pt.x, pt.y).value].kind == HighTemplar
    decreases MAX_RANGE - i
  {
    var t := SnipeTarget(x, y, d, i);
    var rest := Scan(w, c, x, y, d, i + 1);
    if pt != t || !(HoldsEnemy(w, c, t.x, t.y) && w.pieces[GetPiece(w, t.x, t.y).value].kind == HighTemplar) {
      assert pt in rest.moves;
      ScanHits(w, c, x, y, d, i + 1, pt);
    }
  }

  /**
   * The eight snipe scans of Ghost.updateMoveList start on the Ghost's own
   * cell; when that cell holds the Ghost or any ally, or is outside 1..6, each
   * stops at its guard and neither lists nor throws.
   */
  lemma SnipesSilent(w: World, p: Piece, k: nat)
    requires Shape(w) && 8 <= k < |GHOST_PROBES|
    requires HoldsAlly(w, p.color, p.pos.x, p.pos.y) || !Interior(p.pos.x, p.pos.y)
    ensures GhostProbeAt(w, p, k) == Listing([], false)
  {
  }

  /** The cell a Ghost probe looks at. */
  function ProbeCell(p: Piece, k: nat): Point
    requires k < |GHOST_PROBES|
  {
    Point(p.pos.x + GHOST_PROBES[k].dx, p.pos.y + GHOST_PROBES[k].dy)
  }

  /** Adjacent check k meets an empty cell inside 1..6: isEnemy(null). */
  predicate AdjFault(w: World, p: Piece, k: nat)
    requires Shape(w) && k < |GHOST_PROBES|
  {
    var q := ProbeCell(p, k);
    Interior(q.x, q.y) && Vacant(w, q.x, q.y)
  }

  /** Adjacent check k lists pt. */
  predicate AdjHit(w: World, p: Piece, k: nat, pt: Point)
    requires Shape(w) && k < |GHOST_PROBES|
  {
    pt == ProbeCell(p, k) && Interior(pt.x, pt.y) && HoldsEnemy(w, p.color, pt.x, pt.y)
  }

  /** One adjacent check: it throws on an empty interior cell and lists an interior enemy. */
  lemma AdjacentProbe(w: World, p: Piece, k: nat)
    requires Shape(w) && k < 8
    ensures GhostProbeAt(w, p, k).fault == AdjFault(w, p, k)
    ensures forall pt :: pt in GhostProbeAt(w, p, k).moves <==> AdjHit(w, p, k, pt)
  {
  }

  /**
   * The first n adjacent checks throw exactly when one of them meets an empty
   * interior cell, and otherwise list exactly the interior neighbours holding
   * an enemy.
   */
  lemma {:induction false} AdjacentPrefix(w: World, p: Piece, n: nat)
    requires Shape(w) && n <= 8
    ensures GhostPrefix(w, p, n).fault <==> exists k | 0 <= k < n :: AdjFault(w, p, k)
    ensures !GhostPrefix(w, p, n).fault ==>
              forall pt :: pt in GhostPrefix(w, p, n).moves <==> exists k | 0 <= k < n :: AdjHit(w, p, k, pt)
  {
    if n > 0 {
      var a, b := GhostPrefix(w, p, n - 1), GhostProbeAt(w, p, n - 1);
      AdjacentPrefix(w, p, n - 1);
      AdjacentProbe(w, p, n - 1);
      assert GhostPrefix(w, p, n) == Then(a, b);
      if exists k | 0 <= k < n :: AdjFault(w, p, k) {
        var k :| 0 <= k < n && AdjFault(w, p, k);
        if k < n - 1 { assert a.fault; } else { assert b.fault; }
      }
      if !GhostPrefix(w, p, n).fault {
        forall pt ensures pt in GhostPrefix(w, p, n).moves <==> exists k | 0 <= k < n :: AdjHit(w, p, k, pt) {
          if exists k | 0 <= k < n :: AdjHit(w, p, k, pt) {
            var k :| 0 <= k < n && AdjHit(w, p, k, pt);
            if k < n - 1 { assert pt in a.moves; } else { assert pt in b.moves; }
          }
        }
      }
    }
  }

  /** With silent snipe scans, the last calls change nothing of the first eight's outcome. */
  lemma {:induction false} SilentTail(w: World, p: Piece, n: nat)
    requires Shape(w) && 8 <= n <= |GHOST_PROBES| && HoldsAlly(w, p.color, p.pos.x, p.pos.y)
    ensures GhostPrefix(w, p, n) == GhostPrefix(w, p, 8)
  {
    if n > 8 {
      SilentTail(w, p, n - 1);
      SnipesSilent(w, p, n - 1);
      var a := GhostPrefix(w, p, n - 1);
      assert !a.fault ==> a.moves + [] == a.moves;
    }
  }

  /**
   * Ghost.updateMoveList on a board where the Ghost's cell holds an ally (as
   * after Board.updateBoard places it): it throws exactly when some interior
   * neighbour is empty, and otherwise lists exactly the interior neighbours
   * holding an enemy; no snipe target is ever listed.
   */
  lemma GhostExact(w: World, p: Piece)
    requires Shape(w) && HoldsAlly(w, p.color, p.pos.x, p.pos.y)
    ensures GhostMoves(w, p).fault <==> exists k | 0 <= k < 8 :: AdjFault(w, p, k)
    ensures !GhostMoves(w, p).fault ==>
              forall pt :: pt in GhostMoves(w, p).moves <==> exists k | 0 <= k < 8 :: AdjHit(w, p, k, pt)
  {
    AdjacentPrefix(w, p, 8);
    SilentTail(w, p, |GHOST_PROBES|);
  }

  // ------------------------------------------------ what generation reads

  /**
   * Two boards that agree on everything a generator may look at apart from the
   * stored move lists: area, grid, rosters, and every piece's colour and kind.
   */
  predicate SameBoard(a: World, b: World)
  {
    && a.width == b.width && a.height == b.height && a.cells == b.cells && a.rosters == b.rosters
    && |a.pieces| == |b.pieces|
    && forall k | 0 <= k < |a.pieces| :: a.pieces[k].color == b.pieces[k].color && a.pieces[k].kind == b.pieces[k].kind
  }

  /** Two pieces a generator cannot tell apart: same colour, kind, square and pawn flag. */
  predicate SamePiece(p: Piece, q: Piece)
  {
    p.color == q.color && p.kind == q.kind && p.pos == q.pos && p.firstMove == q.firstMove
  }

  lemma {:induction false} RayFrame(a: World, b: World, c: Color, x: int, y: int, dx: int, dy: int)
    requires Shape(a) && Shape(b) && SameBoard(a, b) && IsDir(dx, dy)
    ensures Ray(a, c, x, y, dx, dy) == Ray(b, c, x, y, dx, dy)
    decreases Steps(x, y, dx, dy)
  {
    hide Ray;
    RayStep(a, c, x, y, dx, dy);
    RayStep(b, c, x, y, dx, dy);
    CellFrame(a, b, c, x, y);
    if OnBoard(x, y) && !HoldsAlly(a, c, x, y) && Vacant(a, x, y) {
      RayFrame(a, b, c, x + dx, y + dy, dx, dy);
    }
  }

  lemma {:induction false} RaysFrame(a: World, b: World, c: Color, at: Point, dirs: seq<Point>, k: nat)
    requires Shape(a) && Shape(b) && SameBoard(a, b) && k <= |dirs|
    requires forall m | 0 <= m < |dirs| :: IsDir(dirs[m].x, dirs[m].y)
    ensures Rays(a, c, at, dirs, k) == Rays(b, c, at, dirs, k)
    decreases |dirs| - k
  {
    hide Ray;
    if k < |dirs| {
      RaysFrame(a, b, c, at, dirs, k + 1);
      RayFrame(a, b, c, at.x + dirs[k].x, at.y + dirs[k].y, dirs[k].x, dirs[k].y);
    }
  }

  lemma {:induction false} OpensFrame(a: World, b: World, c: Color, at: Point, offs: seq<Point>, k: nat)
    requires Shape(a) && Shape(b) && SameBoard(a, b) && k <= |offs|
    ensures Opens(a, c, at, offs, k) == Opens(b, c, at, offs, k)
    decreases |offs| - k
  {
    if k < |offs| {
      OpensFrame(a, b, c, at, offs, k + 1);
    }
  }

  lemma {:induction false} KingCellsFrame(a: World, b: World, c: Color, at: Point, offs: seq<Point>, k: nat)
    requires Shape(a) && Shape(b) && SameBoard(a, b) && k <= |offs|
    requires forall pt :: IntoCheck(a, c, pt) == IntoCheck(b, c, pt)
    ensures KingCells(a, c, at, offs, k) == KingCells(b, c, at, offs, k)
    decreases |offs| - k
  {
    if k < |offs| {
      KingCellsFrame(a, b, c, at, offs, k + 1);
    }
  }

  lemma {:induction false} ScanFrame(a: World, b: World, c: Color, x: int, y: int, d: int, i: int)
    requires Shape(a) && Shape(b) && SameBoard(a, b) && 0 <= d < 8 && 1 <= i
    ensures Scan(a, c, x, y, d, i) == Scan(b, c, x, y, d, i)
    decreases MAX_RANGE - i
  {
    if i < MAX_RANGE {
      ScanFrame(a, b, c, x, y, d, i + 1);
    }
  }

  lemma GhostCallFrame(a: World, b: World, c: Color, x: int, y: int, dir: int)
    requires Shape(a) && Shape(b) && SameBoard(a, b) && -1 <= dir < 8
    ensures GhostCall(a, c, x, y, dir) == GhostCall(b, c, x, y, dir)
  {
    if dir != -1 {
      ScanFrame(a, b, c, x, y, dir, 1);
    }
  }

  lemma {:induction false} GhostPrefixFrame(a: World, b: World, p: Piece, q: Piece, n: nat)
    requires Shape(a) && Shape(b) && SameBoard(a, b) && SamePiece(p, q) && n <= |GHOST_PROBES|
    ensures GhostPrefix(a, p, n) == GhostPrefix(b, q, n)
  {
    hide GhostProbeAt, Then;
    if n > 0 {
      GhostPrefixFrame(a, b, p, q, n - 1);
      GhostProbeFrame(a, b, p, q, n - 1);
    }
  }

  lemma GhostProbeFrame(a: World, b: World, p: Piece, q: Piece, k: nat)
    requires Shape(a) && Shape(b) && SameBoard(a, b) && SamePiece(p, q) && k < |GHOST_PROBES|
    ensures GhostProbeAt(a, p, k) == GhostProbeAt(b, q, k)
  {
    var g := GHOST_PROBES[k];
    GhostCallFrame(a, b, p.color, p.pos.x + g.dx, p.pos.y + g.dy, g.dir);
  }

  /**
   * A rebuilt list depends on the grid, on colours and kinds, on the piece's
   * own colour, square and pawn flag, and (for a King) on what IntoCheck
   * reads, and on nothing else: in particular not on any stored list but the
   * King's enemies'.
   */
  lemma GenerateFrame(a: World, b: World, p: Piece, q: Piece)
    requires Shape(a) && Shape(b) && SameBoard(a, b) && SamePiece(p, q)
    requires p.kind == King ==> forall pt :: IntoCheck(a, p.color, pt) == IntoCheck(b, p.color, pt)
    ensures Generate(a, p) == Generate(b, q)
  {
    hide PawnMoves, Opens, Rays, KingCells, GhostPrefix;
    match p.kind
    case Pawn => PawnFrame(a, b, p, q);
    case Knight => OpensFrame(a, b, p.color, p.pos, KNIGHT_OFFSETS, 0);
    case Bishop => RaysFrame(a, b, p.color, p.pos, BISHOP_DIRS, 0);
    case Rook => RaysFrame(a, b, p.color, p.pos, ROOK_DIRS, 0);
    case Queen => RaysFrame(a, b, p.color, p.pos, QUEEN_DIRS, 0);
    case King => KingCellsFrame(a, b, p.color, p.pos, KING_OFFSETS, 0);
    case HighTemplar => OpensFrame(a, b, p.color, p.pos, TEMPLAR_OFFSETS, 0);
    case Ghost => GhostPrefixFrame(a, b, p, q, |GHOST_PROBES|);
  }

  /** What a generator asks of one cell is the same on both boards. */
  lemma CellFrame(a: World, b: World, c: Color, x: int, y: int)
    requires Shape(a) && Shape(b) && SameBoard(a, b)
    ensures Vacant(a, x, y) == Vacant(b, x, y)
    ensures HoldsEnemy(a, c, x, y) == HoldsEnemy(b, c, x, y)
    ensures HoldsAlly(a, c, x, y) == HoldsAlly(b, c, x, y)
  {
  }

  lemma PawnFrame(a: World, b: World, p: Piece, q: Piece)
    requires Shape(a) && Shape(b) && SameBoard(a, b) && SamePiece(p, q)
    ensures PawnMoves(a, p) == PawnMoves(b, q)
  {
    hide PawnAdvance;
    PawnAdvanceFrame(a, b, p, q, 1);
    PawnAdvanceFrame(a, b, p, q, -1);
  }

  lemma PawnAdvanceFrame(a: World, b: World, p: Piece, q: Piece, f: int)
    requires Shape(a) && Shape(b) && SameBoard(a, b) && SamePiece(p, q)
    ensures PawnAdvance(a, p, f) == PawnAdvance(b, q, f)
  {
    hide Vacant, HoldsEnemy;
    var x, y, c := p.pos.x, p.pos.y, p.color;
    CellFrame(a, b, c, x, y + f);
    CellFrame(a, b, c, x, y + 2 * f);
    CellFrame(a, b, c, x + 1, y + f);
    CellFrame(a, b, c, x - 1, y + f);
  }

  /** The board with piece k's stored list replaced by l. */
  function WithList(w: World, k: nat, l: seq<Point>): World
    requires k < |w.pieces|
  {
    w.(pieces := w.pieces[k := w.pieces[k].(moveList := l)])
  }

  /**
   * King.movesIntoCheck consults only roster pieces: a piece outside both
   * rosters may carry any move list without changing what the King lists.
   */
  lemma KingIgnoresOutsiders(w: World, p: Piece, k: nat, l: seq<Point>)
    requires Shape(w) && k < |w.pieces| && k !in w.rosters[0] && k !in w.rosters[1]
    ensures Shape(WithList(w, k, l))
    ensures KingMoves(WithList(w, k, l), p) == KingMoves(w, p)
  {
    var w' := WithList(w, k, l);
    forall pt ensures IntoCheck(w', p.color, pt) == IntoCheck(w, p.color, pt) {
      IntoCheckExact(w, p.color, pt);
      IntoCheckExact(w', p.color, pt);
    }
    KingCellsFrame(w', w, p.color, p.pos, KING_OFFSETS, 0);
  }
}
