/**
 * The Board class: the 2-D Space array, its width and height, and the pieces
 * and players it works on.  Every method is proved against the engine function
 * of the same name: the abstract State() afterwards is that function applied to
 * the State() before.
 */
module Boards {
  import opened Model
  import opened MoveGen
  import opened Engine
  import opened Players
  import opened Pieces

  /** Two grids of the same dimensions that agree cell by cell are equal. */
  lemma GridEq(a: seq<seq<Option<nat>>>, b: seq<seq<Option<nat>>>)
    requires SameDims(a, b)
    requires forall x, y | 0 <= x < |a| && 0 <= y < |a[x]| :: a[x][y] == b[x][y]
    ensures a == b
  {
    forall x | 0 <= x < |a| ensures a[x] == b[x] {
      assert |a[x]| == |b[x]|;
    }
  }

  /** One round of the King's offset loop. */
  lemma KingCellsNext(w: World, c: Color, at: Point, offs: seq<Point>, k: nat, done: seq<Point>, cell: seq<Point>)
    requires Shape(w) && k < |offs|
    requires done + KingCells(w, c, at, offs, k) == KingCells(w, c, at, offs, 0)
    requires cell == KingCell(w, c, at.x + offs[k].x, at.y + offs[k].y)
    ensures (done + cell) + KingCells(w, c, at, offs, k + 1) == KingCells(w, c, at, offs, 0)
  {
    ConcatAssoc(done, cell, KingCells(w, c, at, offs, k + 1));
  }

  /** One round of the one-cell offset loop. */
  lemma OpensNext(w: World, c: Color, at: Point, offs: seq<Point>, k: nat, done: seq<Point>, cell: seq<Point>)
    requires Shape(w) && k < |offs|
    requires done + Opens(w, c, at, offs, k) == Opens(w, c, at, offs, 0)
    requires cell == Open(w, c, at.x + offs[k].x, at.y + offs[k].y)
    ensures (done + cell) + Opens(w, c, at, offs, k + 1) == Opens(w, c, at, offs, 0)
  {
    ConcatAssoc(done, cell, Opens(w, c, at, offs, k + 1));
  }

  /** One round of the ray loop. */
  lemma RaysNext(w: World, c: Color, at: Point, dirs: seq<Point>, k: nat, done: seq<Point>, ray: seq<Point>)
    requires Shape(w) && k < |dirs| && forall m | 0 <= m < |dirs| :: IsDir(dirs[m].x, dirs[m].y)
    requires done + Rays(w, c, at, dirs, k) == Rays(w, c, at, dirs, 0)
    requires ray == Ray(w, c, at.x + dirs[k].x, at.y + dirs[k].y, dirs[k].x, dirs[k].y)
    ensures (done + ray) + Rays(w, c, at, dirs, k + 1) == Rays(w, c, at, dirs, 0)
  {
    ConcatAssoc(done, ray, Rays(w, c, at, dirs, k + 1));
  }

  /** One round of the placement loop. */
  lemma PlaceNext(w: World, plan: seq<Placement>, k: nat)
    requires WF(w) && Covers(w.cells, SIDE, SIDE) && PlanOnBoard(plan) && k < |plan|
    ensures Place(w, plan, k) == Place(Put(w, plan[k]), plan, k + 1)
  {
  }

  class Board {
    var width: int
    var height: int
    /** The occupant of every Space, spaces[x, y] for column x and row y. */
    var spaces: array2<Option<nat>>
    /** The same grid as a value, for the specification. */
    ghost var cells: seq<seq<Option<nat>>>
    /** Every piece ever created, indexed by id. */
    var pieces: seq<Piece>
    /** player[0] and player[1] of the game. */
    const white: Player
    const black: Player

    /** The board, the piece table and the two players' lists as one value. */
    ghost function State(): World
      reads this, white, black
    {
      World(width, height, cells, pieces, [white.roster, black.roster], [white.graveyard, black.graveyard])
    }

    /** The array holds exactly `cells`. */
    ghost predicate Mirrors()
      reads this, spaces
    {
      && spaces.Length0 == |cells|
      && (forall x | 0 <= x < |cells| :: |cells[x]| == spaces.Length1)
      && (forall x, y | 0 <= x < spaces.Length0 && 0 <= y < spaces.Length1 :: spaces[x, y] == cells[x][y])
    }

    ghost predicate Valid()
      reads this, spaces, white, black
    {
      white != black && white.color == White && black.color == Black && Mirrors() && WF(State())
    }

    /** game.player[i]. */
    function PlayerAt(i: nat): Player
      requires i < 2
    {
      if i == 0 then white else black
    }

    /** Board(game): an 8 x 8 array of empty Spaces, no pieces yet. */
    constructor ()
      ensures Valid() && fresh(white) && fresh(black) && fresh(spaces)
      ensures width == SIDE && height == SIDE && pieces == []
      ensures State().rosters == [[], []] && State().graves == [[], []]
      ensures spaces.Length0 == SIDE && spaces.Length1 == SIDE
      ensures forall x, y :: Model.GetPiece(State(), x, y).None?
      ensures State() == World(SIDE, SIDE, seq(SIDE, x => seq(SIDE, y => None)), [], [[], []], [[], []])
    {
      width := SIDE;
      height := SIDE;
      spaces := new Option<nat>[SIDE, SIDE]((x, y) => None);
      cells := seq(SIDE, x => seq(SIDE, y => None));
      pieces := [];
      white := new Player(White);
      black := new Player(Black);
    }

    /**
     * Board(game, width, height): the given size when both sides are at least
     * 4, otherwise 4 x 4; every Space empty.
     */
    constructor Sized(w: int, h: int)
      ensures Valid() && fresh(white) && fresh(black) && fresh(spaces)
      ensures w >= MIN_SIDE && h >= MIN_SIDE ==> width == w && height == h
      ensures !(w >= MIN_SIDE && h >= MIN_SIDE) ==> width == MIN_SIDE && height == MIN_SIDE
      ensures pieces == [] && State().rosters == [[], []] && State().graves == [[], []]
      ensures spaces.Length0 == width && spaces.Length1 == height
      ensures forall x, y :: Model.GetPiece(State(), x, y).None?
    {
      var n, m := MIN_SIDE, MIN_SIDE;
      if w >= MIN_SIDE && h >= MIN_SIDE {
        n, m := w, h;
      }
      width := n;
      height := m;
      spaces := new Option<nat>[n, m]((x, y) => None);
      cells := seq(n, x => seq(m, y => None));
      pieces := [];
      white := new Player(White);
      black := new Player(Black);
    }

    /** Board.getPiece: none off the width x height area, the Space's occupant on it. */
    method GetPiece(x: int, y: int) returns (r: Option<nat>)
      requires Valid()
      ensures r == Model.GetPiece(State(), x, y)
    {
      if x < 0 || y < 0 || x >= width || y >= height {
        r := None;
      } else {
        assert |cells[x]| == spaces.Length1;
        r := spaces[x, y];
      }
    }

    /** One Space's addPiece or removePiece, with the mirror kept in step. */
    method SetSpace(x: int, y: int, v: Option<nat>)
      requires Mirrors() && 0 <= x < |cells| && 0 <= y < |cells[x]|
      modifies this, spaces
      ensures Mirrors() && spaces == old(spaces)
      ensures cells == old(cells)[x := old(cells)[x][y := v]]
      ensures width == old(width) && height == old(height) && pieces == old(pieces)
    {
      spaces[x, y] := v;
      cells := cells[x := cells[x][y := v]];
    }

    /** Board.addPiece. */
    method AddPiece(id: nat)
      requires Valid() && id < |pieces|
      modifies this, spaces
      ensures Valid() && spaces == old(spaces)
      ensures State() == Engine.AddPiece(old(State()), id)
    {
      var p := pieces[id].pos;
      if p.x >= 0 && p.y >= 0 && p.x < width && p.y < height {
        SetSpace(p.x, p.y, Some(id));
      }
    }

    /** Board.removePiece. */
    method RemovePiece(x: int, y: int)
      requires Valid()
      modifies this, spaces
      ensures Valid() && spaces == old(spaces)
      ensures State() == Engine.RemovePiece(old(State()), x, y)
    {
      if x >= 0 && y >= 0 && x < width && y < height {
        SetSpace(x, y, None);
      }
    }

    /** Board.clearBoard: removePiece on every Space of the area, column by column. */
    method ClearBoard()
      requires Valid()
      modifies this, spaces
      ensures Valid() && spaces == old(spaces)
      ensures State() == Engine.ClearBoard(old(State()))
    {
      var col := 0;
      while col < width
        invariant 0 <= col <= width && Mirrors() && spaces == old(spaces)
        invariant width == old(width) && height == old(height) && pieces == old(pieces)
        invariant SameDims(cells, old(cells))
        invariant forall a, b | 0 <= a < |cells| && 0 <= b < |cells[a]| ::
          cells[a][b] == if a < col && b < height then None else old(cells)[a][b]
      {
        var row := 0;
        while row < height
          invariant 0 <= row <= height && Mirrors() && spaces == old(spaces)
          invariant width == old(width) && height == old(height) && pieces == old(pieces)
          invariant SameDims(cells, old(cells))
          invariant forall a, b | 0 <= a < |cells| && 0 <= b < |cells[a]| ::
            cells[a][b] == if (a < col || (a == col && b < row)) && b < height then None else old(cells)[a][b]
        {
          SetSpace(col, row, None);
          row := row + 1;
        }
        col := col + 1;
      }
      GridEq(cells, Engine.ClearBoard(old(State())).cells);
    }

    /** Board.reset: a new 8 x 8 array of empty Spaces; width and height stay. */
    method Reset()
      requires Valid() && width <= SIDE && height <= SIDE
      modifies this
      ensures Valid() && fresh(spaces)
      ensures State() == Engine.Reset(old(State()))
    {
      spaces := new Option<nat>[SIDE, SIDE]((x, y) => None);
      cells := seq(SIDE, x => seq(SIDE, y => None));
    }
    // ------------------------------------------------- move generation

    /** The ally test every generator makes through getPiece and isEnemy. */
    method IsAlly(c: Color, x: int, y: int) returns (b: bool)
      requires Valid()
      ensures b == HoldsAlly(State(), c, x, y)
    {
      var o := GetPiece(x, y);
      b := o.Some? && pieces[o.value].color == c;
    }

    /** The one-cell calculateMoveList of Knight and High Templar, over an offset table. */
    method OpenCells(c: Color, at: Point, offs: seq<Point>) returns (moves: seq<Point>)
      requires Valid()
      ensures moves == Opens(State(), c, at, offs, 0)
    {
      hide Opens;
      moves := [];
      ghost var s := State();
      var k := 0;
      while k < |offs|
        invariant 0 <= k <= |offs|
        invariant moves + Opens(s, c, at, offs, k) == Opens(s, c, at, offs, 0)
      {
        var x, y := at.x + offs[k].x, at.y + offs[k].y;
        var cell := [];
        if x >= 0 && y >= 0 && x < SIDE && y < SIDE {
          var ally := IsAlly(c, x, y);
          if !ally {
            cell := [Point(x, y)];
          }
        }
        assert State() == s;
        OpensNext(s, c, at, offs, k, moves, cell);
        moves := moves + cell;
        k := k + 1;
      }
    }

    /**
     * The recursive calculateMoveList of Bishop, Rook and Queen: list the cell
     * unless it is off the board or an ally's, and go on only past an empty one.
     */
    method RayCells(c: Color, x: int, y: int, dx: int, dy: int) returns (moves: seq<Point>)
      requires Valid() && IsDir(dx, dy)
      ensures moves == Ray(State(), c, x, y, dx, dy)
      decreases Steps(x, y, dx, dy)
    {
      hide Ray;
      RayStep(State(), c, x, y, dx, dy);
      if x < 0 || y < 0 || x >= SIDE || y >= SIDE {
        return [];
      }
      var o := GetPiece(x, y);
      if o.Some? && pieces[o.value].color == c {
        return [];
      }
      if o.None? {
        var rest := RayCells(c, x + dx, y + dy, dx, dy);
        moves := [Point(x, y)] + rest;
      } else {
        moves := [Point(x, y)];
      }
    }

    /** The calculateMoveList calls of one updateMoveList, one per direction, each one step from `at`. */
    method RaysCells(c: Color, at: Point, dirs: seq<Point>) returns (moves: seq<Point>)
      requires Valid() && forall m | 0 <= m < |dirs| :: IsDir(dirs[m].x, dirs[m].y)
      ensures moves == Rays(State(), c, at, dirs, 0)
    {
      hide Ray;
      moves := [];
      ghost var s := State();
      var k := 0;
      while k < |dirs|
        invariant 0 <= k <= |dirs|
        invariant moves + Rays(s, c, at, dirs, k) == Rays(s, c, at, dirs, 0)
      {
        var d := dirs[k];
        var ray := RayCells(c, at.x + d.x, at.y + d.y, d.x, d.y);
        assert State() == s;
        RaysNext(s, c, at, dirs, k, moves, ray);
        moves := moves + ray;
        k := k + 1;
      }
    }

    /**
     * King.movesIntoCheck: is pt an entry of the stored list of some piece in
     * the roster of colour e?
     */
    method MovesIntoCheck(pt: Point, e: Color) returns (b: bool)
      requires Valid()
      ensures b == ListedBy(State(), e, pt)
    {
      var roster := PlayerAt(PlayerOf(e)).roster;
      var i := 0;
      while i < |roster|
        invariant 0 <= i <= |roster|
        invariant forall k | 0 <= k < i :: roster[k] < |pieces| && pt !in pieces[roster[k]].moveList
      {
        assert roster[i] in roster;
        var list := pieces[roster[i]].moveList;
        var m := 0;
        while m < |list|
          invariant 0 <= m <= |list|
          invariant forall k | 0 <= k < m :: list[k] != pt
        {
          if pt == list[m] {
            return true;
          }
          m := m + 1;
        }
        i := i + 1;
      }
      b := false;
      assert forall id | id in roster :: pt !in pieces[id].moveList by {
        forall id | id in roster ensures pt !in pieces[id].moveList {
          var k :| 0 <= k < |roster| && roster[k] == id;
        }
      }
    }

    /** King.calculateMoveList for one neighbour: in bounds, no ally, not into check. */
    method KingCellAt(c: Color, x: int, y: int) returns (moves: seq<Point>)
      requires Valid()
      ensures moves == KingCell(State(), c, x, y)
    {
      if !(x >= 0 && y >= 0 && x < SIDE && y < SIDE) {
        return [];
      }
      var ally := IsAlly(c, x, y);
      if ally {
        return [];
      }
      var i := 0;
      while i < 2
        invariant 0 <= i <= 2
        invariant forall k | 0 <= k < i :: !(PlayerColor(k) != c && ListedBy(State(), PlayerColor(k), Point(x, y)))
      {
        var enemyColor := PlayerColor(i);
        if enemyColor != c {
          var into := MovesIntoCheck(Point(x, y), enemyColor);
          if into {
            return [];
          }
        }
        i := i + 1;
      }
      moves := [Point(x, y)];
    }

    /** The King's calculateMoveList calls, one per offset from `at`. */
    method KingCellsAt(c: Color, at: Point, offs: seq<Point>) returns (moves: seq<Point>)
      requires Valid()
      ensures moves == KingCells(State(), c, at, offs, 0)
    {
      ghost var w := State();
      moves := [];
      var k := 0;
      while k < |offs|
        invariant 0 <= k <= |offs|
        invariant moves + KingCells(w, c, at, offs, k) == KingCells(w, c, at, offs, 0)
      {
        var cell := KingCellAt(c, at.x + offs[k].x, at.y + offs[k].y);
        KingCellsNext(w, c, at, offs, k, moves, cell);
        moves := moves + cell;
        k := k + 1;
      }
    }

    /** The four forward tests of Pawn.calculateMoveList for direction f. */
    method PawnAdvanceCells(p: Piece, f: int) returns (moves: seq<Point>)
      requires Valid()
      ensures moves == PawnAdvance(State(), p, f)
    {
      hide HoldsEnemy, Model.GetPiece;
      var x, y := p.pos.x, p.pos.y;
      var one := GetPiece(x, y + f);
      var two := GetPiece(x, y + 2 * f);
      var right := false;
      if x + 1 >= 0 {
        right := IsEnemyAt(p.color, x + 1, y + f);
      }
      var left := false;
      if x - 1 >= 0 {
        left := IsEnemyAt(p.color, x - 1, y + f);
      }
      moves := (if p.firstMove && one.None? && two.None? then [Point(x, y + 2 * f)] else [])
        + (if one.None? then [Point(x, y + f)] else [])
        + (if right then [Point(x + 1, y + f)] else [])
        + (if left then [Point(x - 1, y + f)] else []);
    }

    /** The enemy test of the pawn's diagonal captures, through getPiece and isEnemy. */
    method IsEnemyAt(c: Color, x: int, y: int) returns (b: bool)
      requires Valid()
      ensures b == HoldsEnemy(State(), c, x, y)
    {
      var o := GetPiece(x, y);
      b := o.Some? && pieces[o.value].color != c;
    }

    /** Pawn.updateMoveList: the bound test as written, then the forward tests. */
    method PawnList(p: Piece) returns (moves: seq<Point>)
      requires Valid()
      ensures moves == PawnMoves(State(), p)
    {
      if p.color == Black {
        if p.pos.y + 1 >= SIDE {
          return [];
        }
        moves := PawnAdvanceCells(p, 1);
      } else {
        if p.pos.y - 1 <= 0 {
          return [];
        }
        moves := PawnAdvanceCells(p, -1);
      }
    }

    /**
     * The snipe loop of Ghost.calculateMoveList from distance i to
     * MAX_RANGE - 1: an empty target is a null dereference of getType; an
     * enemy High Templar is listed.
     */
    method ScanCells(c: Color, x: int, y: int, d: int, i: int) returns (l: Listing)
      requires Valid() && 0 <= d < 8 && 1 <= i
      ensures l == Scan(State(), c, x, y, d, i)
      decreases MAX_RANGE - i
    {
      if i >= MAX_RANGE {
        return Listing([], false);
      }
      var t := SnipeTarget(x, y, d, i);
      var o := GetPiece(t.x, t.y);
      if o.None? {
        return Listing([], true);
      }
      var hit := pieces[o.value].kind == HighTemplar && pieces[o.value].color != c;
      var rest := ScanCells(c, x, y, d, i + 1);
      l := Listing((if hit then [t] else []) + rest.moves, rest.fault);
    }

    /** Ghost.calculateMoveList for one call. */
    method GhostCallCells(c: Color, x: int, y: int, dir: int) returns (l: Listing)
      requires Valid() && -1 <= dir < 8
      ensures l == GhostCall(State(), c, x, y, dir)
    {
      if y + 1 >= SIDE || y - 1 < 0 || x + 1 >= SIDE || x - 1 < 0 {
        return Listing([], false);
      }
      var o := GetPiece(x, y);
      if o.None? {
        return Listing([], true);
      }
      if pieces[o.value].color == c {
        return Listing([], false);
      }
      if dir != -1 {
        l := ScanCells(c, x, y, dir, 1);
      } else {
        l := Listing([Point(x, y)], false);
      }
    }

    /** Ghost.updateMoveList: the sixteen calls in order; a throw ends the rebuild. */
    method GhostList(p: Piece) returns (l: Listing)
      requires Valid()
      ensures l == GhostMoves(State(), p)
    {
      hide GhostPrefix, GhostCall;
      ghost var s := State();
      GhostPrefixStep(s, p, 0);
      l := Listing([], false);
      var k := 0;
      while k < |GHOST_PROBES|
        invariant 0 <= k <= |GHOST_PROBES|
        invariant l == GhostPrefix(s, p, k)
      {
        GhostPrefixStep(s, p, k);
        if !l.fault {
          var g := GHOST_PROBES[k];
          var call := GhostCallCells(p.color, p.pos.x + g.dx, p.pos.y + g.dy, g.dir);
          assert State() == s;
          l := Listing(l.moves + call.moves, call.fault);
        }
        k := k + 1;
      }
    }

    /** The updateMoveList override of p's kind, on a cleared list. */
    method GenerateList(p: Piece) returns (l: Listing)
      requires Valid()
      ensures l == Generate(State(), p)
    {
      match p.kind
      case Pawn =>
        var m := PawnList(p);
        l := Listing(m, false);
      case Knight =>
        var m := OpenCells(p.color, p.pos, KNIGHT_OFFSETS);
        l := Listing(m, false);
      case Bishop =>
        var m := RaysCells(p.color, p.pos, BISHOP_DIRS);
        l := Listing(m, false);
      case Rook =>
        var m := RaysCells(p.color, p.pos, ROOK_DIRS);
        l := Listing(m, false);
      case Queen =>
        var m := RaysCells(p.color, p.pos, QUEEN_DIRS);
        l := Listing(m, false);
      case King =>
        var m := KingCellsAt(p.color, p.pos, KING_OFFSETS);
        l := Listing(m, false);
      case HighTemplar =>
        var m := OpenCells(p.color, p.pos, TEMPLAR_OFFSETS);
        l := Listing(m, false);
      case Ghost =>
        l := GhostList(p);
    }

    // ------------------------------------------------- piece operations

    /** Writes piece `id`'s record; grid, area and players stay. */
    method SetPieceRecord(id: nat, p: Piece)
      requires Valid() && id < |pieces|
      requires p.color == pieces[id].color && |p.moveList| <= MAX_MOVES
      modifies this
      ensures Valid() && spaces == old(spaces)
      ensures State() == SetPieceAt(old(State()), id, p)
    {
      pieces := pieces[id := p];
      assert forall i, k | 0 <= i < 2 && k in State().rosters[i] :: State().pieces[k].color == old(State()).pieces[k].color;
    }

    /** Piece.updateMoveList of piece `id`: false when the Java code would have thrown. */
    method UpdateMoveList(id: nat) returns (ok: bool)
      requires Valid() && id < |pieces|
      modifies this
      ensures Valid() && spaces == old(spaces)
      ensures State() == Engine.UpdateMoveList(old(State()), id).w
      ensures ok == Engine.UpdateMoveList(old(State()), id).value
    {
      var l := GenerateList(pieces[id]);
      SetPieceRecord(id, pieces[id].(moveList := l.moves));
      ok := !l.fault;
    }

    /** Piece.setLocation: only an on-board coordinate moves the piece and recomputes its list. */
    method SetLocation(id: nat, x: int, y: int) returns (ok: bool)
      requires Valid() && id < |pieces|
      modifies this
      ensures Valid() && spaces == old(spaces)
      ensures State() == Engine.SetLocation(old(State()), id, x, y).w
      ensures ok == Engine.SetLocation(old(State()), id, x, y).value
    {
      ok := true;
      if x >= 0 && y >= 0 && x < SIDE && y < SIDE {
        SetPieceRecord(id, pieces[id].(pos := Point(x, y)));
        ok := UpdateMoveList(id);
      }
    }

    /** Piece.setAlive. */
    method SetAlive(id: nat, alive: bool)
      requires Valid() && id < |pieces|
      modifies this
      ensures Valid() && spaces == old(spaces)
      ensures State() == SetPieceAt(old(State()), id, old(pieces)[id].(alive := alive))
    {
      SetPieceRecord(id, pieces[id].(alive := alive));
    }

    /** Pawn.setFirstMove. */
    method SetFirstMove(id: nat, b: bool)
      requires Valid() && id < |pieces|
      modifies this
      ensures Valid() && spaces == old(spaces)
      ensures State() == Engine.SetFirstMove(old(State()), id, b)
    {
      SetPieceRecord(id, pieces[id].(firstMove := b));
    }

    /** Piece.move of Knight, Bishop, Rook, Queen and King, after the list update. */
    method BaseMove(id: nat, x: int, y: int) returns (ok: bool)
      requires Valid() && id < |pieces|
      modifies this
      ensures Valid() && spaces == old(spaces)
      ensures State() == Engine.BaseMove(old(State()), id, x, y).w
      ensures ok == Engine.BaseMove(old(State()), id, x, y).value
    {
      var p := pieces[id];
      ok := CanMoveTo(p, x, y);
      if ok {
        var enemy := GetPiece(x, y);
        if enemy.Some? && pieces[enemy.value].color != p.color {
          SetAlive(enemy.value, false);
        }
        SetPieceRecord(id, pieces[id].(pos := Point(x, y)));
      }
    }

    /** Pawn.move after the list update. */
    method PawnMove(id: nat, x: int, y: int) returns (ok: bool)
      requires Valid() && id < |pieces|
      modifies this
      ensures Valid() && spaces == old(spaces)
      ensures State() == Engine.PawnMove(old(State()), id, x, y).w
      ensures ok == Engine.PawnMove(old(State()), id, x, y).value
    {
      ok := CanMoveTo(pieces[id], x, y);
      if ok {
        SetPieceRecord(id, pieces[id].(firstMove := false, pos := Point(x, y)));
      }
    }

    /** Marks dead whatever piece stands on (x, y). */
    method KillAt(x: int, y: int)
      requires Valid()
      modifies this
      ensures Valid() && spaces == old(spaces)
      ensures State() == Engine.KillAt(old(State()), x, y)
    {
      var o := GetPiece(x, y);
      if o.Some? {
        SetAlive(o.value, false);
      }
    }

    /** HighTemplar.move after the list update: energy first, then the storm or an ordinary move. */
    method TemplarMove(id: nat, x: int, y: int) returns (ok: bool)
      requires Valid() && id < |pieces|
      modifies this
      ensures Valid() && spaces == old(spaces)
      ensures State() == Engine.TemplarMove(old(State()), id, x, y).w
      ensures ok == Engine.TemplarMove(old(State()), id, x, y).value
    {
      SetPieceRecord(id, pieces[id].(energy := pieces[id].energy + 1));
      var p := pieces[id];
      ok := CanMoveTo(p, x, y);
      if !ok {
        return;
      }
      var enemy := GetPiece(x, y);
      if enemy.Some? && pieces[enemy.value].color != p.color && StormReady(p, x, y) {
        SetPieceRecord(id, p.(energy := 0));
        Storm(x, y);
      } else {
        SetPieceRecord(id, p.(pos := Point(x, y)));
      }
    }

    /** The storm's marks on (x, y + 1) and (x, y - 1). */
    method Storm(x: int, y: int)
      requires Valid()
      modifies this
      ensures Valid() && spaces == old(spaces)
      ensures State() == Engine.Storm(old(State()), x, y)
    {
      hide Engine.KillAt;
      ghost var w0 := State();
      if y + 1 < SIDE {
        KillAt(x, y + 1);
      }
      assert State() == if y + 1 < SIDE then Engine.KillAt(w0, x, y + 1) else w0;
      if y - 1 < SIDE {
        KillAt(x, y - 1);
      }
    }

    /**
     * Ghost.move after the list update: a snipe kills without moving, a step
     * moves and kills an enemy occupant.  `ok` is false also when the Java code
     * would have thrown; `threw` tells the two apart.
     */
    method GhostMove(id: nat, x: int, y: int) returns (ok: bool, threw: bool)
      requires Valid() && id < |pieces|
      modifies this
      ensures Valid() && spaces == old(spaces)
      ensures State() == Engine.GhostMove(old(State()), id, x, y).w
      ensures ok == Engine.GhostMove(old(State()), id, x, y).value
      ensures threw == Engine.GhostMove(old(State()), id, x, y).threw
    {
      var p := pieces[id];
      threw := false;
      ok := CanMoveTo(p, x, y);
      if !ok {
        return;
      }
      var target := GetPiece(x, y);
      var adx, ady := Abs(x - p.pos.x), Abs(y - p.pos.y);
      if adx >= 2 || ady >= 2 {
        if target.None? {
          ok, threw := false, true;
          return;
        }
        SetAlive(target.value, false);
        return;
      }
      if target.Some? && pieces[target.value].color != p.color {
        SetAlive(target.value, false);
      }
      SetPieceRecord(id, pieces[id].(pos := Point(x, y)));
    }

    /** Piece.move and its overrides: recompute the list, then the kind's own move. */
    method Move(id: nat, x: int, y: int) returns (ok: bool, threw: bool)
      requires Valid() && id < |pieces|
      modifies this
      ensures Valid() && spaces == old(spaces)
      ensures State() == Engine.Move(old(State()), id, x, y).w
      ensures ok == Engine.Move(old(State()), id, x, y).value
      ensures threw == Engine.Move(old(State()), id, x, y).threw
    {
      var updated := UpdateMoveList(id);
      if !updated {
        return false, true;
      }
      threw := false;
      match pieces[id].kind
      case Pawn => ok := PawnMove(id, x, y);
      case HighTemplar => ok := TemplarMove(id, x, y);
      case Ghost => ok, threw := GhostMove(id, x, y);
      case _ => ok := BaseMove(id, x, y);
    }

    // ---------------------------------------------------- transactions

    /** Player.getCaptured on the owner's side: its graveyard gains, its roster loses the piece. */
    method GetCaptured(i: nat, id: nat)
      requires Valid() && i < 2 && id < |pieces|
      modifies PlayerAt(i)
      ensures Valid()
      ensures State() == Engine.GetCaptured(old(State()), i, id)
    {
      PlayerAt(i).GetCaptured(id);
    }

    /** Player.addToRoster on player i: only a piece of that player's colour joins. */
    method AddToRoster(i: nat, id: nat)
      requires Valid() && i < 2 && id < |pieces|
      modifies PlayerAt(i)
      ensures Valid()
      ensures State() == Engine.AddToRoster(old(State()), i, id)
    {
      PlayerAt(i).AddToRoster(id, pieces[id].color);
    }

    /** Player.removeFromTeam on player i. */
    method RemoveFromRoster(i: nat, id: nat)
      requires Valid() && i < 2
      modifies PlayerAt(i)
      ensures Valid()
      ensures State() == Engine.RemoveFromRoster(old(State()), i, id)
    {
      PlayerAt(i).RemoveFromTeam(id);
    }

    /** Game.clearTeams: both rosters emptied, the graveyards kept. */
    method ClearTeams()
      requires Valid()
      modifies white, black
      ensures Valid()
      ensures State() == Engine.ClearTeams(old(State()))
    {
      white.ClearTeam();
      black.ClearTeam();
    }

    /**
     * Board.setCapturedPiece: the player whose colour is the piece's captures
     * it, then the piece is marked dead.
     */
    method SetCapturedPiece(id: nat)
      requires Valid() && id < |pieces|
      modifies this, white, black
      ensures Valid() && spaces == old(spaces)
      ensures State() == Engine.SetCaptured(old(State()), id)
    {
      GetCaptured(PlayerOf(pieces[id].color), id);
      SetAlive(id, false);
    }

    /** setCapturedPiece on an occupant, nothing on an empty cell. */
    method CaptureIf(occupant: Option<nat>)
      requires Valid() && (occupant.Some? ==> occupant.value < |pieces|)
      modifies this, white, black
      ensures Valid() && spaces == old(spaces)
      ensures State() == Engine.CaptureIf(old(State()), occupant)
    {
      if occupant.Some? {
        SetCapturedPiece(occupant.value);
      }
    }

    /**
     * Board.updateBoard: clear the grid, then for each player and each roster
     * piece in order, place the piece and recompute its list.  `ok` is false
     * when a recomputation would have thrown.
     */
    method UpdateBoard() returns (ok: bool)
      requires Valid()
      modifies this, spaces
      ensures Valid() && spaces == old(spaces)
      ensures State() == Engine.UpdateBoard(old(State())).w
      ensures ok == Engine.UpdateBoard(old(State())).value
    {
      ClearBoard();
      ghost var target := Rebuild(State(), 0, 0);
      var i := 0;
      while i < 2
        invariant 0 <= i <= 2 && Valid() && spaces == old(spaces)
        invariant Rebuild(State(), i, 0) == target
      {
        var player := PlayerAt(i);
        var j := 0;
        while j < |player.roster|
          invariant 0 <= j && Valid() && spaces == old(spaces)
          invariant Rebuild(State(), i, j) == target
        {
          var id := player.roster[j];
          assert id in State().rosters[i];
          AddPiece(id);
          ok := UpdateMoveList(id);
          if !ok {
            return;
          }
          j := j + 1;
        }
        i := i + 1;
      }
      ok := true;
    }

    /**
     * Board.movePiece: the destination occupant is read first; after a
     * successful move it is captured (a storm also captures the cells above
     * and below it) and the board is rebuilt.
     */
    method MovePiece(piece: Option<nat>, x: int, y: int) returns (ok: bool, threw: bool)
      requires Valid() && (piece.Some? ==> piece.value < |pieces|)
      modifies this, spaces, white, black
      ensures Valid() && spaces == old(spaces)
      ensures State() == Engine.MovePiece(old(State()), piece, x, y).w
      ensures ok == Engine.MovePiece(old(State()), piece, x, y).value
      ensures threw == Engine.MovePiece(old(State()), piece, x, y).threw
    {
      var destination := GetPiece(x, y);
      if piece.None? {
        return false, false;
      }
      ok, threw := Move(piece.value, x, y);
      if threw || !ok {
        return;
      }
      ok := CapturesAndRebuild(pieces[piece.value], destination, x, y);
      threw := !ok;
    }

    /** The second half of Board.movePiece: the captures, then updateBoard. */
    method CapturesAndRebuild(p: Piece, destination: Option<nat>, x: int, y: int) returns (ok: bool)
      requires Valid() && (destination.Some? ==> destination.value < |pieces|)
      modifies this, spaces, white, black
      ensures Valid() && spaces == old(spaces)
      ensures State() == Engine.UpdateBoard(Captures(old(State()), p, destination, x, y)).w
      ensures ok == Engine.UpdateBoard(Captures(old(State()), p, destination, x, y)).value
    {
      CaptureIf(destination);
      if p.kind == HighTemplar && StormRow(p, y) {
        var behind := GetPiece(x, y + 1);
        var ahead := GetPiece(x, y - 1);
        CaptureIf(behind);
        CaptureIf(ahead);
      }
      ok := UpdateBoard();
    }

    // ----------------------------------------------------------- setup

    /**
     * The populate helpers of Board.setUpGame: each placement of the plan
     * creates a piece and puts it on its Space.
     */
    method Populate(plan: seq<Placement>)
      requires Valid() && Covers(cells, SIDE, SIDE) && PlanOnBoard(plan)
      modifies this, spaces
      ensures Valid() && spaces == old(spaces)
      ensures State() == Place(old(State()), plan, 0)
    {
      ghost var target := Place(State(), plan, 0);
      var k := 0;
      while k < |plan|
        invariant 0 <= k <= |plan| && Valid() && spaces == old(spaces) && Covers(cells, SIDE, SIDE)
        invariant Place(State(), plan, k) == target
      {
        PlaceNext(State(), plan, k);
        PutPiece(plan[k]);
        k := k + 1;
      }
    }

    /** One `spaces[x][y].addPiece(new P(color, x, y))`. */
    method PutPiece(pl: Placement)
      requires Valid() && Covers(cells, SIDE, SIDE) && OnBoard(pl.x, pl.y)
      modifies this, spaces
      ensures Valid() && spaces == old(spaces) && Covers(cells, SIDE, SIDE)
      ensures State() == Put(old(State()), pl)
    {
      ghost var w := State();
      pieces := pieces + [Created(pl)];
      assert WF(State()) by {
        assert forall i, id | 0 <= i < 2 && id in w.rosters[i] :: State().pieces[id] == w.pieces[id];
      }
      SetSpace(pl.x, pl.y, Some(|pieces| - 1));
      CoversSameDims(w.cells, cells, SIDE, SIDE);
    }

    /**
     * Board.populateTeamListsUpdateMoves: column by column, a piece on rows 0-1
     * joins player[1], on rows 6-7 player[0], and every piece found has its
     * list recomputed.
     */
    method PopulateTeamLists() returns (ok: bool)
      requires Valid()
      modifies this, white, black
      ensures Valid() && spaces == old(spaces)
      ensures State() == TeamLists(old(State()), 0, 0).w
      ensures ok == TeamLists(old(State()), 0, 0).value
    {
      hide TeamLists, Engine.UpdateMoveList, JoinTeam;
      ghost var target := TeamLists(State(), 0, 0);
      var col := 0;
      while col < width
        invariant 0 <= col && Valid() && spaces == old(spaces) && width == old(width) && height == old(height)
        invariant TeamLists(State(), col, 0) == target
      {
        var row := 0;
        while row < height
          invariant 0 <= row && Valid() && spaces == old(spaces) && width == old(width) && height == old(height)
          invariant TeamLists(State(), col, row) == target
        {
          TeamListsStep(State(), col, row);
          assert |cells[col]| == spaces.Length1;
          var piece := spaces[col, row];
          if piece.Some? {
            ok := JoinAndUpdate(row, piece.value);
            if !ok {
              return;
            }
          }
          row := row + 1;
        }
        TeamListsStep(State(), col, row);
        col := col + 1;
      }
      TeamListsStep(State(), col, 0);
      ok := true;
    }

    /** One piece found by populateTeamListsUpdateMoves: it joins its team by row, then its list is recomputed. */
    method JoinAndUpdate(row: int, id: nat) returns (ok: bool)
      requires Valid() && id < |pieces|
      modifies this, white, black
      ensures Valid() && spaces == old(spaces)
      ensures State() == Engine.UpdateMoveList(JoinTeam(old(State()), row, id), id).w
      ensures ok == Engine.UpdateMoveList(JoinTeam(old(State()), row, id), id).value
    {
      if row == 0 || row == 1 {
        black.AddToRoster(id, pieces[id].color);
      } else if row == 6 || row == 7 {
        white.AddToRoster(id, pieces[id].color);
      }
      assert State() == JoinTeam(old(State()), row, id);
      ok := UpdateMoveList(id);
    }

    /** Board.setUpGame: the opening position, then the rosters and every move list. */
    method SetUpGame() returns (ok: bool)
      requires Valid() && Covers(cells, SIDE, SIDE)
      modifies this, spaces, white, black
      ensures Valid() && spaces == old(spaces)
      ensures State() == Engine.SetUpGame(old(State())).w
      ensures ok == Engine.SetUpGame(old(State())).value
    {
      Populate(SetupPlan());
      ok := PopulateTeamLists();
    }
  }
}
