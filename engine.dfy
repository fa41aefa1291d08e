/**
 * The board transitions of the engine as functions on a World: the Space and
 * Board cell operations, the Player roster operations, the piece operations
 * (updateMoveList, setLocation and the kind-specific move), and the Board
 * transactions setCapturedPiece, updateBoard, movePiece and setUpGame.  Each
 * follows the Java code branch by branch, including the order in which pieces
 * are placed and move lists recomputed.
 */
module Engine {
  import opened Model
  import opened MoveGen

  // ------------------------------------------------------------ the grid

  /** Board.addPiece: the piece goes to its own coordinate when that lies in the area. */
  function AddPiece(w: World, id: nat): (r: World)
    requires WF(w) && id < |w.pieces|
    ensures WF(r) && r.pieces == w.pieces && r.rosters == w.rosters && r.graves == w.graves
    ensures r.width == w.width && r.height == w.height
    ensures SameDims(r.cells, w.cells)
  {
    var p := w.pieces[id].pos;
    if 0 <= p.x < w.width && 0 <= p.y < w.height then SetCell(w, p.x, p.y, Some(id)) else w
  }

  /** Board.removePiece. */
  function RemovePiece(w: World, x: int, y: int): (r: World)
    requires WF(w)
    ensures WF(r) && r.pieces == w.pieces && r.rosters == w.rosters && r.graves == w.graves
    ensures r.width == w.width && r.height == w.height
    ensures SameDims(r.cells, w.cells)
  {
    if x >= 0 && y >= 0 && x < w.width && y < w.height then SetCell(w, x, y, None) else w
  }

  /** Board.clearBoard: every Space of the width x height area is emptied. */
  function ClearBoard(w: World): (r: World)
    requires WF(w)
    ensures WF(r) && r.pieces == w.pieces && r.rosters == w.rosters && r.graves == w.graves
    ensures r.width == w.width && r.height == w.height
    ensures SameDims(r.cells, w.cells)
  {
    w.(cells := seq(|w.cells|, x requires 0 <= x < |w.cells| =>
                  seq(|w.cells[x]|, y requires 0 <= y < |w.cells[x]| =>
                    if x < w.width && y < w.height then None else w.cells[x][y])))
  }

  /**
   * Board.reset: a fresh 8 x 8 array of empty Spaces.  The width and height
   * fields are not touched, so a board larger than 8 x 8 would afterwards index
   * outside the array; the model admits only boards that fit.
   */
  function Reset(w: World): (r: World)
    requires WF(w) && w.width <= SIDE && w.height <= SIDE
    ensures WF(r) && r.pieces == w.pieces && r.rosters == w.rosters && r.graves == w.graves
    ensures r.width == w.width && r.height == w.height
  {
    w.(cells := seq(SIDE, x => seq(SIDE, y => None)))
  }

  // -------------------------------------------------------------- pieces

  /**
   * Piece.updateMoveList: the list is cleared and refilled by the piece's
   * generator; only that piece's list changes.
   */
  function UpdateMoveList(w: World, id: nat): (r: Run)
    requires WF(w) && id < |w.pieces|
    ensures WF(r.w) && r.value == !r.threw
    ensures r.w.cells == w.cells && r.w.rosters == w.rosters && r.w.graves == w.graves
    ensures r.w.width == w.width && r.w.height == w.height && |r.w.pieces| == |w.pieces|
    ensures forall k | 0 <= k < |w.pieces| && k != id :: r.w.pieces[k] == w.pieces[k]
    ensures r.w.pieces[id].(moveList := w.pieces[id].moveList) == w.pieces[id]
  {
    var l := Generate(w, w.pieces[id]);
    Run(SetPieceAt(w, id, w.pieces[id].(moveList := l.moves)), !l.fault, l.fault)
  }

  /** Piece.setLocation: only an on-board coordinate moves the piece and recomputes its list. */
  function SetLocation(w: World, id: nat, x: int, y: int): (r: Run)
    requires WF(w) && id < |w.pieces|
    ensures WF(r.w) && r.value == !r.threw
    ensures r.w.cells == w.cells && r.w.rosters == w.rosters && r.w.graves == w.graves
    ensures r.w.width == w.width && r.w.height == w.height && |r.w.pieces| == |w.pieces|
    ensures forall k | 0 <= k < |w.pieces| && k != id :: r.w.pieces[k] == w.pieces[k]
  {
    if 0 <= x && 0 <= y && x < SIDE && y < SIDE then
      UpdateMoveList(SetPieceAt(w, id, w.pieces[id].(pos := Point(x, y))), id)
    else Run(w, true, false)
  }

  /** Piece.setAlive(false). */
  function Kill(w: World, k: nat): (r: World)
    requires WF(w) && k < |w.pieces|
    ensures WF(r) && r.cells == w.cells && r.rosters == w.rosters && r.graves == w.graves
    ensures r.width == w.width && r.height == w.height && |r.pieces| == |w.pieces|
    ensures !r.pieces[k].alive && r.pieces[k].(alive := w.pieces[k].alive) == w.pieces[k]
    ensures forall j | 0 <= j < |w.pieces| && j != k :: r.pieces[j] == w.pieces[j]
  {
    SetPieceAt(w, k, w.pieces[k].(alive := false))
  }

  /** Piece.setAlive(true). */
  function Revive(w: World, k: nat): (r: World)
    requires WF(w) && k < |w.pieces|
    ensures WF(r) && r.cells == w.cells && r.rosters == w.rosters && r.graves == w.graves
    ensures r.width == w.width && r.height == w.height && |r.pieces| == |w.pieces|
    ensures r.pieces[k].alive && r.pieces[k].(alive := w.pieces[k].alive) == w.pieces[k]
    ensures forall j | 0 <= j < |w.pieces| && j != k :: r.pieces[j] == w.pieces[j]
  {
    SetPieceAt(w, k, w.pieces[k].(alive := true))
  }

  /** Pawn.setFirstMove. */
  function SetFirstMove(w: World, k: nat, b: bool): (r: World)
    requires WF(w) && k < |w.pieces|
    ensures WF(r) && r.cells == w.cells && r.rosters == w.rosters && r.graves == w.graves
    ensures r.width == w.width && r.height == w.height && |r.pieces| == |w.pieces|
    ensures r.pieces[k].firstMove == b && r.pieces[k].(firstMove := w.pieces[k].firstMove) == w.pieces[k]
    ensures forall j | 0 <= j < |w.pieces| && j != k :: r.pieces[j] == w.pieces[j]
  {
    SetPieceAt(w, k, w.pieces[k].(firstMove := b))
  }

  /** Marks dead whatever piece stands on (x, y), if any. */
  function KillAt(w: World, x: int, y: int): (r: World)
    requires WF(w)
    ensures WF(r) && r.cells == w.cells && r.rosters == w.rosters && r.graves == w.graves
    ensures r.width == w.width && r.height == w.height && |r.pieces| == |w.pieces|
    ensures GetPiece(w, x, y).Some? ==> !r.pieces[GetPiece(w, x, y).value].alive
    ensures forall j | 0 <= j < |w.pieces| :: r.pieces[j].(alive := w.pieces[j].alive) == w.pieces[j]
    ensures forall j | 0 <= j < |w.pieces| && GetPiece(w, x, y) != Some(j) :: r.pieces[j] == w.pieces[j]
  {
    match GetPiece(w, x, y)
    case Some(k) => Kill(w, k)
    case None => w
  }

  /** coordinate.setLocation(x, y) inside move: no bounds test, no list update. */
  function Relocate(w: World, id: nat, x: int, y: int): (r: World)
    requires WF(w) && id < |w.pieces|
    ensures WF(r) && r.cells == w.cells && r.rosters == w.rosters && r.graves == w.graves
    ensures r.width == w.width && r.height == w.height && |r.pieces| == |w.pieces|
    ensures r.pieces[id].pos == Point(x, y) && r.pieces[id].(pos := w.pieces[id].pos) == w.pieces[id]
    ensures forall j | 0 <= j < |w.pieces| && j != id :: r.pieces[j] == w.pieces[j]
  {
    SetPieceAt(w, id, w.pieces[id].(pos := Point(x, y)))
  }

  /** Piece.move after the list update (Knight, Bishop, Rook, Queen, King). */
  function BaseMove(w: World, id: nat, x: int, y: int): (r: Run)
    requires WF(w) && id < |w.pieces|
    ensures WF(r.w) && !r.threw
    ensures r.w.cells == w.cells && r.w.rosters == w.rosters && r.w.graves == w.graves
    ensures r.w.width == w.width && r.w.height == w.height && |r.w.pieces| == |w.pieces|
    ensures r.w.pieces[id].moveList == w.pieces[id].moveList
  {
    var p := w.pieces[id];
    if !Listed(p, x, y) then Run(w, false, false)
    else
      var w1 := if HoldsEnemy(w, p.color, x, y) then Kill(w, GetPiece(w, x, y).value) else w;
      Run(Relocate(w1, id, x, y), true, false)
  }

  /** Pawn.move after the list update: no capture mark, the first move is spent. */
  function PawnMove(w: World, id: nat, x: int, y: int): (r: Run)
    requires WF(w) && id < |w.pieces|
    ensures WF(r.w) && !r.threw
    ensures r.w.cells == w.cells && r.w.rosters == w.rosters && r.w.graves == w.graves
    ensures r.w.width == w.width && r.w.height == w.height && |r.w.pieces| == |w.pieces|
    ensures r.w.pieces[id].moveList == w.pieces[id].moveList
  {
    var p := w.pieces[id];
    if !Listed(p, x, y) then Run(w, false, false)
    else Run(SetPieceAt(w, id, p.(firstMove := false, pos := Point(x, y))), true, false)
  }

  /**
   * The storm test of HighTemplar.move, as written: the last alternative
   * compares y with the Templar's x coordinate minus 4.
   */
  predicate StormReady(p: Piece, x: int, y: int)
  {
    (y == p.pos.y + 3 || y == p.pos.y + 4 || y == p.pos.y - 3 || y == p.pos.x - 4)
    && x == p.pos.x && p.energy > 3
  }

  /** The storm's marks: the pieces on (x, y + 1) and (x, y - 1), each behind its bound test. */
  function Storm(w: World, x: int, y: int): (r: World)
    requires WF(w)
    ensures WF(r) && r.cells == w.cells && r.rosters == w.rosters && r.graves == w.graves
    ensures r.width == w.width && r.height == w.height && |r.pieces| == |w.pieces|
  {
    var w1 := if y + 1 < SIDE then KillAt(w, x, y + 1) else w;
    if y - 1 < SIDE then KillAt(w1, x, y - 1) else w1
  }

  /**
   * HighTemplar.move after the list update: energy goes up first; a storm on an
   * enemy spends the energy, marks the cells above and below the target dead and
   * leaves the Templar in place.
   */
  function TemplarMove(w: World, id: nat, x: int, y: int): (r: Run)
    requires WF(w) && id < |w.pieces|
    ensures WF(r.w) && !r.threw
    ensures r.w.cells == w.cells && r.w.rosters == w.rosters && r.w.graves == w.graves
    ensures r.w.width == w.width && r.w.height == w.height && |r.w.pieces| == |w.pieces|
  {
    var w1 := SetPieceAt(w, id, w.pieces[id].(energy := w.pieces[id].energy + 1));
    var p := w1.pieces[id];
    if !Listed(p, x, y) then Run(w1, false, false)
    else if HoldsEnemy(w1, p.color, x, y) && StormReady(p, x, y) then
      Run(Storm(SetPieceAt(w1, id, p.(energy := 0)), x, y), true, false)
    else Run(Relocate(w1, id, x, y), true, false)
  }

  /**
   * The snipe test of Ghost.move.  Its third alternative (a Manhattan distance of
   * three or more to an enemy Templar) can only hold when one of the first two
   * does, so the test reduces to these two (see SnipeRangeExact).
   */
  predicate SnipeRange(adx: nat, ady: nat)
  {
    adx >= 2 || ady >= 2
  }

  /** The test as written, with the enemy-Templar conjuncts as one boolean. */
  lemma SnipeRangeExact(adx: nat, ady: nat, enemyTemplar: bool)
    ensures SnipeRange(adx, ady) <==> (adx >= 2 || ady >= 2 || (adx + ady >= 3 && enemyTemplar))
  {
  }

  /**
   * Ghost.move after the list update: a listed cell two or more away in either
   * axis is a snipe (the occupant dies, the Ghost stays); one step away the
   * Ghost moves and kills an enemy occupant.
   */
  function GhostMove(w: World, id: nat, x: int, y: int): (r: Run)
    requires WF(w) && id < |w.pieces|
    ensures WF(r.w) && (r.value ==> !r.threw)
    ensures r.w.cells == w.cells && r.w.rosters == w.rosters && r.w.graves == w.graves
    ensures r.w.width == w.width && r.w.height == w.height && |r.w.pieces| == |w.pieces|
    ensures r.w.pieces[id].moveList == w.pieces[id].moveList
  {
    var p := w.pieces[id];
    var adx, ady := Abs(x - p.pos.x), Abs(y - p.pos.y);
    if !Listed(p, x, y) then Run(w, false, false)
    else if SnipeRange(adx, ady) then
      if Vacant(w, x, y) then Run(w, false, true)
      else Run(Kill(w, GetPiece(w, x, y).value), true, false)
    else
      var w1 := if adx < 2 && ady < 2 && adx + ady < 3 && HoldsEnemy(w, p.color, x, y)
                then Kill(w, GetPiece(w, x, y).value) else w;
      Run(Relocate(w1, id, x, y), true, false)
  }

  /** Piece.move and its overrides: recompute the list, then test and perform the move. */
  function Move(w: World, id: nat, x: int, y: int): (r: Run)
    requires WF(w) && id < |w.pieces|
    ensures WF(r.w) && (r.value ==> !r.threw)
    ensures r.w.cells == w.cells && r.w.rosters == w.rosters && r.w.graves == w.graves
    ensures r.w.width == w.width && r.w.height == w.height && |r.w.pieces| == |w.pieces|
  {
    var u := UpdateMoveList(w, id);
    if u.threw then u
    else match w.pieces[id].kind
      case Pawn => PawnMove(u.w, id, x, y)
      case HighTemplar => TemplarMove(u.w, id, x, y)
      case Ghost => GhostMove(u.w, id, x, y)
      case _ => BaseMove(u.w, id, x, y)
  }

  // ------------------------------------------------------------- players

  /** Player.addToRoster for player i. */
  function AddToRoster(w: World, i: nat, id: nat): (r: World)
    requires WF(w) && i < 2 && id < |w.pieces|
    ensures WF(r) && r.cells == w.cells && r.pieces == w.pieces && r.graves == w.graves
    ensures r.width == w.width && r.height == w.height
  {
    if w.pieces[id].color == PlayerColor(i) then w.(rosters := w.rosters[i := w.rosters[i] + [id]])
    else w
  }

  /** Game.clearTeams: Player.clearTeam on both players; the graveyards stay. */
  function ClearTeams(w: World): (r: World)
    requires WF(w)
    ensures WF(r) && r.cells == w.cells && r.pieces == w.pieces && r.graves == w.graves
    ensures r.width == w.width && r.height == w.height
  {
    w.(rosters := [[], []])
  }

  /** Player.removeFromTeam for player i. */
  function RemoveFromRoster(w: World, i: nat, id: nat): (r: World)
    requires WF(w) && i < 2
    ensures WF(r) && r.cells == w.cells && r.pieces == w.pieces && r.graves == w.graves
    ensures r.width == w.width && r.height == w.height
    ensures |r.rosters[0]| <= |w.rosters[0]| && |r.rosters[1]| <= |w.rosters[1]|
  {
    w.(rosters := w.rosters[i := RemoveFirst(w.rosters[i], id)])
  }

  /**
   * Player.getCaptured for player i: one graveyard entry per roster occurrence,
   * then the first occurrence leaves the roster.
   */
  function GetCaptured(w: World, i: nat, id: nat): (r: World)
    requires WF(w) && i < 2 && id < |w.pieces|
    ensures WF(r) && r.cells == w.cells && r.pieces == w.pieces
    ensures r.width == w.width && r.height == w.height
    ensures |r.rosters[0]| <= |w.rosters[0]| && |r.rosters[1]| <= |w.rosters[1]|
  {
    var w1 := w.(graves := w.graves[i := w.graves[i] + Matches(w.rosters[i], id)]);
    RemoveFromRoster(w1, i, id)
  }

  /** Board.setCapturedPiece: the owner's getCaptured, then the piece is marked dead. */
  function SetCaptured(w: World, id: nat): (r: World)
    requires WF(w) && id < |w.pieces|
    ensures WF(r) && r.cells == w.cells && |r.pieces| == |w.pieces|
    ensures r.width == w.width && r.height == w.height
    ensures |r.rosters[0]| <= |w.rosters[0]| && |r.rosters[1]| <= |w.rosters[1]|
  {
    Kill(GetCaptured(w, PlayerOf(w.pieces[id].color), id), id)
  }

  /** setCapturedPiece on an occupant, nothing on an empty cell. */
  function CaptureIf(w: World, occupant: Option<nat>): (r: World)
    requires WF(w) && (occupant.Some? ==> occupant.value < |w.pieces|)
    ensures WF(r) && r.cells == w.cells && |r.pieces| == |w.pieces|
    ensures r.width == w.width && r.height == w.height
    ensures |r.rosters[0]| <= |w.rosters[0]| && |r.rosters[1]| <= |w.rosters[1]|
  {
    if occupant.Some? then SetCaptured(w, occupant.value) else w
  }

  // -------------------------------------------------------- transactions

  /**
   * The loop of Board.updateBoard from player i, roster index j on: each roster
   * piece is placed, then its list recomputed against the grid built so far.
   */
  function Rebuild(w: World, i: nat, j: nat): (r: Run)
    requires WF(w) && i <= 2
    ensures WF(r.w) && r.value == !r.threw
    ensures r.w.rosters == w.rosters && r.w.graves == w.graves
    ensures r.w.width == w.width && r.w.height == w.height && |r.w.pieces| == |w.pieces|
    ensures SameDims(r.w.cells, w.cells)
    decreases 2 - i, if i < 2 then |w.rosters[i]| - j else 0
  {
    if i == 2 then Run(w, true, false)
    else if j >= |w.rosters[i]| then Rebuild(w, i + 1, 0)
    else
      var id := w.rosters[i][j];
      assert id in w.rosters[i];
      var u := UpdateMoveList(AddPiece(w, id), id);
      if u.threw then u else Rebuild(u.w, i, j + 1)
  }

  /** Board.updateBoard: clear the grid, then rebuild it from the rosters. */
  function UpdateBoard(w: World): (r: Run)
    requires WF(w)
    ensures WF(r.w) && r.value == !r.threw
    ensures r.w.rosters == w.rosters && r.w.graves == w.graves
    ensures r.w.width == w.width && r.w.height == w.height && |r.w.pieces| == |w.pieces|
    ensures SameDims(r.w.cells, w.cells)
  {
    Rebuild(ClearBoard(w), 0, 0)
  }

  /** The three storm distances Board.movePiece tests, measured from the Templar after its move. */
  predicate StormRow(p: Piece, y: int)
  {
    y == p.pos.y + 3 || y == p.pos.y + 4 || y == p.pos.y - 3 || y == p.pos.y - 4
  }

  /**
   * Board.movePiece: the destination occupant is read first; after a successful
   * move it is captured (for a storm, so are the cells above and below it), and
   * the board is rebuilt.  A missing piece or a refused move returns false with
   * the grid untouched.
   */
  function MovePiece(w: World, piece: Option<nat>, x: int, y: int): (r: Run)
    requires WF(w) && (piece.Some? ==> piece.value < |w.pieces|)
    ensures WF(r.w) && (r.value ==> !r.threw)
    ensures r.w.width == w.width && r.w.height == w.height && |r.w.pieces| == |w.pieces|
    ensures |r.w.rosters[0]| <= |w.rosters[0]| && |r.w.rosters[1]| <= |w.rosters[1]|
    ensures SameDims(r.w.cells, w.cells)
  {
    var destination := GetPiece(w, x, y);
    if piece.None? then Run(w, false, false)
    else
      var m := Move(w, piece.value, x, y);
      if m.threw || !m.value then m
      else UpdateBoard(Captures(m.w, m.w.pieces[piece.value], destination, x, y))
  }

  /**
   * The captures of Board.movePiece after a successful move of p: the former
   * destination occupant, and for a High Templar storm also the occupants of
   * (x, y + 1) and (x, y - 1).
   */
  function Captures(w: World, p: Piece, destination: Option<nat>, x: int, y: int): (r: World)
    requires WF(w) && (destination.Some? ==> destination.value < |w.pieces|)
    ensures WF(r) && r.cells == w.cells && |r.pieces| == |w.pieces|
    ensures r.width == w.width && r.height == w.height
    ensures |r.rosters[0]| <= |w.rosters[0]| && |r.rosters[1]| <= |w.rosters[1]|
  {
    var w1 := CaptureIf(w, destination);
    if p.kind == HighTemplar && StormRow(p, y) then
      var behind := GetPiece(w1, x, y + 1);
      var ahead := GetPiece(w1, x, y - 1);
      CaptureIf(CaptureIf(w1, behind), ahead)
    else w1
  }

  // --------------------------------------------------------------- setup

  /** One `spaces[x][y].addPiece(new P(color, x, y))` of the populate helpers. */
  datatype Placement = Placement(color: Color, kind: Kind, x: int, y: int)

  /** Board.populatePawns for one colour: a pawn in every column of `row`. */
  function PawnPlan(c: Color, row: int): (plan: seq<Placement>)
    ensures |plan| == SIDE
    ensures forall m | 0 <= m < SIDE :: plan[m] == Placement(c, Pawn, m, row)
  {
    seq(SIDE, col => Placement(c, Pawn, col, row))
  }

  /** Board.populateBackRow: the Queen and King only on rows 0 and 7. */
  function BackRowPlan(c: Color, row: int): (plan: seq<Placement>)
    ensures forall m | 0 <= m < |plan| :: plan[m].color == c && plan[m].y == row
  {
    [Placement(c, Rook, 0, row), Placement(c, Knight, 1, row), Placement(c, Bishop, 2, row),
     Placement(c, Bishop, 5, row), Placement(c, Knight, 6, row), Placement(c, Rook, 7, row)]
    + (if row == 0 || row == 7 then [Placement(c, Queen, 3, row), Placement(c, King, 4, row)] else [])
  }

  /**
   * The placements of Board.setUpGame in the order the Java code makes them:
   * populatePawns (row 1 black, then row 6 white), then populateBackRow for
   * black on row 0 and for white on row 7.
   */
  function SetupPlan(): (plan: seq<Placement>)
    ensures |plan| == 32
    ensures forall m | 0 <= m < |plan| :: OnBoard(plan[m].x, plan[m].y)
  {
    PawnPlan(Black, 1) + PawnPlan(White, 6) + BackRowPlan(Black, 0) + BackRowPlan(White, 7)
  }

  predicate PlanOnBoard(plan: seq<Placement>)
  {
    forall m | 0 <= m < |plan| :: OnBoard(plan[m].x, plan[m].y)
  }

  function Created(p: Placement): Piece
  {
    NewPiece(p.color, p.kind, p.x, p.y)
  }

  /** One placement: the new piece joins the table and its Space. */
  function Put(w: World, pl: Placement): (r: World)
    requires WF(w) && Covers(w.cells, SIDE, SIDE) && OnBoard(pl.x, pl.y)
    ensures WF(r) && Covers(r.cells, SIDE, SIDE) && SameDims(r.cells, w.cells)
    ensures r.rosters == w.rosters && r.graves == w.graves
    ensures r.width == w.width && r.height == w.height
    ensures r.pieces == w.pieces + [Created(pl)]
    ensures 0 <= pl.x < w.width && 0 <= pl.y < w.height ==> GetPiece(r, pl.x, pl.y) == Some(|w.pieces|)
    ensures forall a, b | (a, b) != (pl.x, pl.y) :: GetPiece(r, a, b) == GetPiece(w, a, b)
  {
    var w1 := w.(pieces := w.pieces + [Created(pl)]);
    assert WF(w1) by {
      assert forall i, id | 0 <= i < 2 && id in w.rosters[i] :: w1.pieces[id] == w.pieces[id];
    }
    var r := SetCell(w1, pl.x, pl.y, Some(|w.pieces|));
    CoversSameDims(w.cells, r.cells, SIDE, SIDE);
    r
  }

  /** The placements from index k on: each new piece joins the table and its Space. */
  function Place(w: World, plan: seq<Placement>, k: nat): (r: World)
    requires WF(w) && Covers(w.cells, SIDE, SIDE) && PlanOnBoard(plan) && k <= |plan|
    ensures WF(r) && Covers(r.cells, SIDE, SIDE) && SameDims(r.cells, w.cells)
    ensures r.rosters == w.rosters && r.graves == w.graves
    ensures r.width == w.width && r.height == w.height
    ensures |r.pieces| == |w.pieces| + |plan| - k && r.pieces[..|w.pieces|] == w.pieces
    ensures forall m | k <= m < |plan| :: r.pieces[|w.pieces| + m - k] == Created(plan[m])
    decreases |plan| - k
  {
    if k == |plan| then
      assert w.pieces[..|w.pieces|] == w.pieces;
      w
    else
      var n := |w.pieces|;
      var w2 := Put(w, plan[k]);
      var r := Place(w2, plan, k + 1);
      assert r.pieces[..n] == w.pieces by {
        assert r.pieces[..n + 1][..n] == r.pieces[..n];
      }
      SameDimsTrans(r.cells, w2.cells, w.cells);
      r
  }

  /** The roster choice of Board.populateTeamListsUpdateMoves: rows 0-1 for player[1], rows 6-7 for player[0]. */
  function JoinTeam(w: World, row: int, id: nat): (r: World)
    requires WF(w) && id < |w.pieces|
    ensures WF(r) && r.cells == w.cells && r.pieces == w.pieces && r.graves == w.graves
    ensures r.width == w.width && r.height == w.height
  {
    if row == 0 || row == 1 then AddToRoster(w, PLAYER2, id)
    else if row == 6 || row == 7 then AddToRoster(w, PLAYER1, id)
    else w
  }

  /**
   * The loop of Board.populateTeamListsUpdateMoves from (col, row) on, column
   * by column: a piece on rows 0-1 joins player[1], on rows 6-7 player[0], and
   * every piece found has its list recomputed.
   */
  function TeamLists(w: World, col: nat, row: nat): (r: Run)
    requires WF(w)
    ensures WF(r.w) && r.value == !r.threw
    ensures r.w.cells == w.cells && r.w.graves == w.graves
    ensures r.w.width == w.width && r.w.height == w.height && |r.w.pieces| == |w.pieces|
    decreases w.width - col, w.height - row
  {
    if col >= w.width then Run(w, true, false)
    else if row >= w.height then TeamLists(w, col + 1, 0)
    else match w.cells[col][row]
      case None => TeamLists(w, col, row + 1)
      case Some(id) =>
        var u := UpdateMoveList(JoinTeam(w, row, id), id);
        if u.threw then u else TeamLists(u.w, col, row + 1)
  }

  /** One cell of the scan, as TeamLists is defined. */
  lemma TeamListsStep(w: World, col: nat, row: nat)
    requires WF(w)
    ensures col >= w.width ==> TeamLists(w, col, row) == Run(w, true, false)
    ensures col < w.width && row >= w.height ==> TeamLists(w, col, row) == TeamLists(w, col + 1, 0)
    ensures col < w.width && row < w.height && w.cells[col][row].None? ==>
              TeamLists(w, col, row) == TeamLists(w, col, row + 1)
    ensures col < w.width && row < w.height && w.cells[col][row].Some? ==>
              var id := w.cells[col][row].value;
              var u := UpdateMoveList(JoinTeam(w, row, id), id);
              TeamLists(w, col, row) == if u.threw then u else TeamLists(u.w, col, row + 1)
  {
  }

  /** Board.setUpGame on a board whose Space array is at least 8 x 8. */
  function SetUpGame(w: World): (r: Run)
    requires WF(w) && Covers(w.cells, SIDE, SIDE)
    ensures WF(r.w) && r.value == !r.threw
    ensures r.w.width == w.width && r.w.height == w.height
    ensures SameDims(r.w.cells, w.cells)
    ensures |r.w.pieces| >= |w.pieces|
  {
    TeamLists(Place(w, SetupPlan(), 0), 0, 0)
  }
}
