/**
 * The Game layer as functions on a GameState: the roster lookups, isInCheck,
 * the apply-and-revert search of checkCheckmate, checkStalemate, playerMove
 * with the MoveCommand memento and the single-slot CommandManager, resetGame and
 * the win flags.
 */
module GameModel {
  import opened Model
  import opened MoveGen
  import opened Engine

  /**
   * Game.MoveCommand: what its constructor records.  `dest` is the piece that
   * stood on the destination, `prevDest` its coordinate (left at (0, 0), the
   * Java default, when there was none); `firstMove` is the pawn flag, false
   * for the other kinds.
   */
  datatype MoveCommand = MoveCommand(src: nat, dest: Option<nat>, prevSrc: Point, prevDest: Point,
                                     prevTurn: int, to: Point, firstMove: bool)

  /** The fields of Game, with the CommandManager's lastCommand as `last`. */
  datatype GameState = GameState(w: World, turn: int, p1Win: bool, p2Win: bool,
                                 inCheck: bool, tie: bool, last: Option<MoveCommand>)

  /** A Game operation's outcome: as Run, for a whole game. */
  datatype GRun = GRun(g: GameState, value: bool, threw: bool)

  ghost predicate CommandFits(w: World, c: MoveCommand)
  {
    c.src < |w.pieces| && (c.dest.Some? ==> c.dest.value < |w.pieces|) && 0 <= c.prevTurn < 2
  }

  /** The invariant of a Game: a well-formed 8 x 8 board and turn 0 or 1. */
  ghost predicate GWF(g: GameState)
  {
    && WF(g.w) && g.w.width == SIDE && g.w.height == SIDE && Covers(g.w.cells, SIDE, SIDE)
    && 0 <= g.turn < 2
  }

  /**
   * The recorded command's pieces exist.  In Java the command holds the
   * Piece objects themselves; here it holds their ids, and piece ids are
   * never withdrawn, so this holds from the constructor on.
   */
  ghost predicate LastFits(g: GameState)
  {
    g.last.Some? ==> CommandFits(g.w, g.last.value)
  }

  /** The board of a Game changed by an engine operation that keeps the array shape. */
  lemma BoardStep(g: GameState, w: World)
    requires GWF(g) && WF(w) && w.width == g.w.width && w.height == g.w.height
    requires SameDims(w.cells, g.w.cells) && |w.pieces| >= |g.w.pieces|
    ensures GWF(g.(w := w))
  {
    CoversSameDims(g.w.cells, w.cells, SIDE, SIDE);
  }

  /** The Game constructor: an empty default board, no pieces, player 1 to move. */
  function NewGame(): (g: GameState)
    ensures GWF(g) && g.turn == PLAYER1 && g.last.None?
    ensures !g.p1Win && !g.p2Win && !g.tie && !g.inCheck
    ensures forall x, y :: GetPiece(g.w, x, y).None?
    ensures g.w.rosters == [[], []] && g.w.graves == [[], []]
  {
    GameState(World(SIDE, SIDE, seq(SIDE, x => seq(SIDE, y => None)), [], [[], []], [[], []]),
              PLAYER1, false, false, false, false, None)
  }

  // ------------------------------------------------------------- lookups

  /** Game.getRosterSize; findPlayer always finds one of the two colours. */
  function RosterSize(w: World, c: Color): (n: nat)
    requires Shape(w)
    ensures n == |w.rosters[PlayerOf(c)]|
  {
    |w.rosters[PlayerOf(c)]|
  }

  /** Game.getPieceFromRoster, through Player.getFromRoster. */
  function PieceFromRoster(w: World, c: Color, index: int): (r: Option<nat>)
    requires Shape(w)
    ensures r.Some? <==> 0 <= index < |w.rosters[PlayerOf(c)]|
    ensures r.Some? ==> r.value == w.rosters[PlayerOf(c)][index] && r.value < |w.pieces|
  {
    var roster := w.rosters[PlayerOf(c)];
    if index >= |roster| || index < 0 then None
    else
      assert roster[index] in roster;
      Some(roster[index])
  }

  /** The first id in `roster` from position j on whose piece has kind k. */
  function FirstOfKind(pieces: seq<Piece>, roster: seq<nat>, k: Kind, j: nat): (r: Option<nat>)
    requires forall m | 0 <= m < |roster| :: roster[m] < |pieces|
    requires j <= |roster|
    ensures r.Some? ==> r.value < |pieces| && r.value in roster && pieces[r.value].kind == k
    ensures r.None? <==> forall m | j <= m < |roster| :: pieces[roster[m]].kind != k
    ensures r.Some? ==> exists m | j <= m < |roster| :: roster[m] == r.value && forall m2 | j <= m2 < m :: pieces[roster[m2]].kind != k
    decreases |roster| - j
  {
    if j == |roster| then None
    else
      if pieces[roster[j]].kind == k then Some(roster[j])
      else FirstOfKind(pieces, roster, k, j + 1)
  }

  /** Game.getPieceOfType: the first roster piece of kind k, or none (Java null). */
  function PieceOfType(w: World, c: Color, k: Kind): (r: Option<nat>)
    requires Shape(w)
    ensures r.Some? ==> r.value in w.rosters[PlayerOf(c)] && r.value < |w.pieces| && w.pieces[r.value].kind == k
    ensures r.None? <==> forall id | id in w.rosters[PlayerOf(c)] :: w.pieces[id].kind != k
    ensures r.Some? ==> var roster := w.rosters[PlayerOf(c)];
      exists m | 0 <= m < |roster| :: roster[m] == r.value &&
        forall m2 | 0 <= m2 < m && roster[m2] in roster :: w.pieces[roster[m2]].kind != k
  {
    var roster := w.rosters[PlayerOf(c)];
    assert forall m | 0 <= m < |roster| :: roster[m] in roster;
    var r := FirstOfKind(w.pieces, roster, k, 0);
    assert r.None? ==> forall id | id in roster :: w.pieces[id].kind != k by {
      if r.None? {
        forall id | id in roster ensures w.pieces[id].kind != k {
          var m :| 0 <= m < |roster| && roster[m] == id;
        }
      }
    }
    r
  }

  /** A match at i with no match before it is the first of its kind. */
  lemma {:induction false} FirstOfKindAt(pieces: seq<Piece>, roster: seq<nat>, k: Kind, j: nat, i: nat)
    requires forall m | 0 <= m < |roster| :: roster[m] < |pieces|
    requires j <= i < |roster| && pieces[roster[i]].kind == k
    requires forall m | j <= m < i :: pieces[roster[m]].kind != k
    ensures FirstOfKind(pieces, roster, k, j) == Some(roster[i])
    decreases i - j
  {
    if j < i {
      FirstOfKindAt(pieces, roster, k, j + 1, i);
    }
  }

  /** getPieceOfType is the search from the roster's start. */
  lemma PieceOfTypeSearch(w: World, c: Color, k: Kind)
    requires Shape(w)
    ensures var roster := w.rosters[PlayerOf(c)];
      && (forall m | 0 <= m < |roster| :: roster[m] < |w.pieces|)
      && PieceOfType(w, c, k) == FirstOfKind(w.pieces, roster, k, 0)
  {
    var roster := w.rosters[PlayerOf(c)];
    assert forall m | 0 <= m < |roster| :: roster[m] in roster;
  }

  /** Game.getPlayerColor: none (Java null) outside the two player indices. */
  function PlayerColorAt(index: int): (r: Option<Color>)
    ensures r.Some? <==> 0 <= index < 2
    ensures r.Some? ==> PlayerOf(r.value) == index
  {
    if index < 2 && index >= 0 then Some(PlayerColor(index)) else None
  }

  /** Game.addToTeam: the roster of the player of colour c, through Player.addToRoster. */
  function AddToTeam(w: World, c: Color, id: nat): (r: World)
    requires WF(w) && id < |w.pieces|
    ensures WF(r) && r.cells == w.cells && r.pieces == w.pieces && r.graves == w.graves
    ensures r.width == w.width && r.height == w.height
  {
    AddToRoster(w, PlayerOf(c), id)
  }

  /** Game.removeFromTeam. */
  function RemoveFromTeam(w: World, c: Color, id: nat): (r: World)
    requires WF(w)
    ensures WF(r) && r.cells == w.cells && r.pieces == w.pieces && r.graves == w.graves
    ensures r.width == w.width && r.height == w.height
  {
    RemoveFromRoster(w, PlayerOf(c), id)
  }

  /** Game.setCapturedPiece: the owner's getCaptured, without the death mark. */
  function GameCaptured(w: World, id: nat): (r: World)
    requires WF(w) && id < |w.pieces|
    ensures WF(r) && r.cells == w.cells && r.pieces == w.pieces
    ensures r.width == w.width && r.height == w.height
  {
    GetCaptured(w, PlayerOf(w.pieces[id].color), id)
  }

  // ---------------------------------------------------------------- check

  /**
   * The loop of Game.isInCheck from player i, roster index j on: every enemy
   * roster piece has its list recomputed and is asked whether it lists `king`.
   */
  function CheckScan(g: GameState, c: Color, king: Point, i: nat, j: nat): (r: GRun)
    requires GWF(g) && i <= 2
    ensures GWF(r.g) && r.g.w.cells == g.w.cells && r.g.w.rosters == g.w.rosters
    ensures r.g.w.graves == g.w.graves && |r.g.w.pieces| == |g.w.pieces|
    ensures r.g.(w := g.w, inCheck := g.inCheck) == g
    ensures r.value ==> !r.threw
    ensures !r.threw ==> r.g.inCheck == r.value
    decreases 2 - i, if i < 2 then |g.w.rosters[i]| - j else 0
  {
    if i == 2 then GRun(g.(inCheck := false), false, false)
    else if PlayerColor(i) == c || j >= |g.w.rosters[i]| then CheckScan(g, c, king, i + 1, 0)
    else
      assert g.w.rosters[i][j] in g.w.rosters[i];
      var u := Examine(g, g.w.rosters[i][j], king);
      if u.threw || u.value then u else CheckScan(u.g, c, king, i, j + 1)
  }

  /** One round of the scan, as CheckScan is defined. */
  lemma CheckScanStep(g: GameState, c: Color, king: Point, i: nat, j: nat)
    requires GWF(g) && i < 2
    ensures PlayerColor(i) == c || j >= |g.w.rosters[i]| ==>
              CheckScan(g, c, king, i, j) == CheckScan(g, c, king, i + 1, 0)
    ensures PlayerColor(i) != c && j < |g.w.rosters[i]| ==>
              && g.w.rosters[i][j] < |g.w.pieces|
              && var u := Examine(g, g.w.rosters[i][j], king);
                 CheckScan(g, c, king, i, j) == if u.threw || u.value then u else CheckScan(u.g, c, king, i, j + 1)
  {
    hide Examine, UpdateMoveList, Generate;
    if j < |g.w.rosters[i]| {
      assert g.w.rosters[i][j] in g.w.rosters[i];
    }
  }

  /**
   * One enemy of isInCheck: its list is recomputed, and if it holds the
   * King's cell, `inCheck` is set and the answer is true.
   */
  function Examine(g: GameState, enemy: nat, king: Point): (r: GRun)
    requires GWF(g) && enemy < |g.w.pieces|
    ensures GWF(r.g) && r.g.w.cells == g.w.cells && r.g.w.rosters == g.w.rosters
    ensures r.g.w.graves == g.w.graves && |r.g.w.pieces| == |g.w.pieces|
    ensures r.g.(w := g.w, inCheck := g.inCheck) == g
    ensures r.value ==> !r.threw && r.g.inCheck
    ensures !r.value ==> r.g.inCheck == g.inCheck
  {
    var u := UpdateMoveList(g.w, enemy);
    var g1 := g.(w := u.w);
    if u.threw then GRun(g1, false, true)
    else if Listed(u.w.pieces[enemy], king.x, king.y) then GRun(g1.(inCheck := true), true, false)
    else GRun(g1, false, false)
  }

  /**
   * Game.isInCheck: without a King in the roster the Java code dereferences
   * null; otherwise the scan above, which sets or clears `inCheck`.
   */
  function IsInCheck(g: GameState, c: Color): (r: GRun)
    requires GWF(g)
    ensures GWF(r.g) && r.g.w.cells == g.w.cells && r.g.w.rosters == g.w.rosters
    ensures r.g.w.graves == g.w.graves && |r.g.w.pieces| == |g.w.pieces|
    ensures r.g.(w := g.w, inCheck := g.inCheck) == g
    ensures r.value ==> !r.threw
    ensures !r.threw ==> r.g.inCheck == r.value
  {
    match PieceOfType(g.w, c, King)
    case None => GRun(g, false, true)
    case Some(k) => CheckScan(g, c, g.w.pieces[k].pos, 0, 0)
  }

  // ------------------------------------------------------------ checkmate

  function Dist(i: int, n: int): nat
  {
    if i < n then n - i else 0
  }

  /**
   * The outer loop of Game.checkCheckmate from roster index i on.  The roster
   * size is read afresh on every round, as Java's loop condition does.
   */
  function Probe(g: GameState, c: Color, i: nat): (r: GRun)
    requires GWF(g)
    ensures GWF(r.g) && |r.g.w.pieces| == |g.w.pieces|
    ensures r.value ==> !r.threw
    decreases 2 * Dist(i, |g.w.rosters[PlayerOf(c)]|) + 1, 0
  {
    var roster := g.w.rosters[PlayerOf(c)];
    if i >= |roster| then GRun(g, true, false)
    else
      var ally := roster[i];
      assert ally in roster;
      if g.w.pieces[ally].kind == King then Probe(g, c, i + 1)
      else Try(g, c, i, ally, g.w.pieces[ally].pos, 0)
  }

  /** One round of the outer loop, as Probe is defined. */
  lemma ProbeUnfold(g: GameState, c: Color, i: nat)
    requires GWF(g)
    ensures var roster := g.w.rosters[PlayerOf(c)];
      && (i >= |roster| ==> Probe(g, c, i) == GRun(g, true, false))
      && (i < |roster| ==> roster[i] < |g.w.pieces|)
      && (i < |roster| && g.w.pieces[roster[i]].kind == King ==> Probe(g, c, i) == Probe(g, c, i + 1))
      && (i < |roster| && g.w.pieces[roster[i]].kind != King ==>
            Probe(g, c, i) == Try(g, c, i, roster[i], g.w.pieces[roster[i]].pos, 0))
  {
    if i < |g.w.rosters[PlayerOf(c)]| {
      assert g.w.rosters[PlayerOf(c)][i] in g.w.rosters[PlayerOf(c)];
    }
  }

  /**
   * The inner loop for one non-King ally, from list index m on: apply the m-th
   * listed move with Board.movePiece, ask isInCheck, move back to the original
   * coordinate.  The list is re-read on every round, after the updates the
   * probes made to it.
   */
  function Try(g: GameState, c: Color, i: nat, ally: nat, orig: Point, m: nat): (r: GRun)
    requires GWF(g) && ally < |g.w.pieces|
    ensures GWF(r.g) && |r.g.w.pieces| == |g.w.pieces|
    ensures r.value ==> !r.threw
    decreases 2 * Dist(i, |g.w.rosters[PlayerOf(c)]|), MAX_MOVES - m
  {
    var list := g.w.pieces[ally].moveList;
    if m >= |list| then
      if i + 1 >= |g.w.rosters[PlayerOf(c)]| then GRun(g, true, false) else Probe(g, c, i + 1)
    else
      var p := ProbeMove(g, c, ally, list[m], orig);
      if p.threw then GRun(p.g, false, true)
      else if !p.value then GRun(p.g, false, false)
      else Try(p.g, c, i, ally, orig, m + 1)
  }

  /** One round of the inner loop, as Try is defined. */
  lemma TryStep(g: GameState, c: Color, i: nat, ally: nat, orig: Point, m: nat)
    requires GWF(g) && ally < |g.w.pieces|
    ensures var list := g.w.pieces[ally].moveList;
      && (m >= |list| && i + 1 >= |g.w.rosters[PlayerOf(c)]| ==> Try(g, c, i, ally, orig, m) == GRun(g, true, false))
      && (m >= |list| && i + 1 < |g.w.rosters[PlayerOf(c)]| ==> Try(g, c, i, ally, orig, m) == Probe(g, c, i + 1))
      && (m < |list| ==>
            var p := ProbeMove(g, c, ally, list[m], orig);
            Try(g, c, i, ally, orig, m) ==
              (if p.threw then GRun(p.g, false, true)
               else if !p.value then GRun(p.g, false, false)
               else Try(p.g, c, i, ally, orig, m + 1)))
  {
  }

  /**
   * One probe of checkCheckmate: the ally moves to pt, isInCheck is asked,
   * the ally moves back to orig.  The value is isInCheck's answer; a fault
   * stops the sequence where it happens.
   */
  function ProbeMove(g: GameState, c: Color, ally: nat, pt: Point, orig: Point): (r: GRun)
    requires GWF(g) && ally < |g.w.pieces|
    ensures GWF(r.g) && |r.g.w.pieces| == |g.w.pieces|
    ensures |r.g.w.rosters[0]| <= |g.w.rosters[0]| && |r.g.w.rosters[1]| <= |g.w.rosters[1]|
  {
    var there := MovePiece(g.w, Some(ally), pt.x, pt.y);
    BoardStep(g, there.w);
    var g1 := g.(w := there.w);
    if there.threw then GRun(g1, false, true) else ProbeBack(g1, c, ally, orig)
  }

  /** The rest of a probe once the ally stands on pt: isInCheck, then the move back to orig. */
  function ProbeBack(g: GameState, c: Color, ally: nat, orig: Point): (r: GRun)
    requires GWF(g) && ally < |g.w.pieces|
    ensures GWF(r.g) && |r.g.w.pieces| == |g.w.pieces|
    ensures |r.g.w.rosters[0]| <= |g.w.rosters[0]| && |r.g.w.rosters[1]| <= |g.w.rosters[1]|
  {
    var check := IsInCheck(g, c);
    if check.threw then GRun(check.g, false, true)
    else
      var back := MovePiece(check.g.w, Some(ally), orig.x, orig.y);
      BoardStep(check.g, back.w);
      GRun(check.g.(w := back.w), check.value, back.threw)
  }

  /** Game.checkCheckmate. */
  function CheckCheckmate(g: GameState, c: Color): (r: GRun)
    requires GWF(g)
    ensures GWF(r.g) && |r.g.w.pieces| == |g.w.pieces|
    ensures r.value ==> !r.threw
  {
    var check := IsInCheck(g, c);
    if check.threw || !check.value then GRun(check.g, false, check.threw) else Probe(check.g, c, 0)
  }

  /** Game.checkStalemate: no roster piece of either player lists a move. */
  predicate NoMoves(w: World, i: nat, j: nat)
    requires Shape(w) && i <= 2
    decreases 2 - i, if i < 2 then |w.rosters[i]| - j else 0
  {
    if i == 2 then true
    else if j >= |w.rosters[i]| then NoMoves(w, i + 1, 0)
    else
      assert w.rosters[i][j] in w.rosters[i];
      |w.pieces[w.rosters[i][j]].moveList| == 0 && NoMoves(w, i, j + 1)
  }

  function CheckStalemate(g: GameState): (r: bool)
    requires GWF(g)
  {
    NoMoves(g.w, 0, 0)
  }

  // ---------------------------------------------------------------- moves

  /** The MoveCommand constructor. */
  function NewCommand(g: GameState, src: nat, x: int, y: int): (c: MoveCommand)
    requires GWF(g) && src < |g.w.pieces|
    ensures CommandFits(g.w, c) && c.src == src && c.to == Point(x, y)
    ensures c.dest == GetPiece(g.w, x, y) && c.prevTurn == g.turn
    ensures c.prevSrc == g.w.pieces[src].pos
    ensures c.dest.Some? ==> c.prevDest == g.w.pieces[c.dest.value].pos
    ensures c.firstMove <==> g.w.pieces[src].kind == Pawn && g.w.pieces[src].firstMove
  {
    var dest := GetPiece(g.w, x, y);
    var p := g.w.pieces[src];
    MoveCommand(src, dest, p.pos, if dest.Some? then g.w.pieces[dest.value].pos else Point(0, 0),
                g.turn, Point(x, y), if p.kind == Pawn then p.firstMove else false)
  }

  /** The turn after `t`: (t + 1) % 2, the other player for t in 0..1. */
  function NextTurn(t: int): (r: int)
    ensures 0 <= t < 2 ==> r == 1 - t
  {
    (t + 1) % 2
  }

  /** MoveCommand.execute: the turn passes, then Board.movePiece (its result is dropped). */
  function Execute(g: GameState, c: MoveCommand): (r: GRun)
    requires GWF(g) && CommandFits(g.w, c)
    ensures GWF(r.g) && |r.g.w.pieces| == |g.w.pieces| && r.value == !r.threw
    ensures r.g.turn == NextTurn(g.turn)
  {
    var g1 := g.(turn := NextTurn(g.turn));
    var mv := MovePiece(g1.w, Some(c.src), c.to.x, c.to.y);
    BoardStep(g1, mv.w);
    GRun(g1.(w := mv.w), !mv.threw, mv.threw)
  }

  /** CommandManager.executeCommand: execute, then record the command. */
  function ExecuteCommand(g: GameState, c: MoveCommand): (r: GRun)
    requires GWF(g) && CommandFits(g.w, c)
    ensures GWF(r.g) && |r.g.w.pieces| == |g.w.pieces| && r.value == !r.threw
    ensures !r.threw ==> r.g.last == Some(c)
    ensures r.threw ==> r.g.last == g.last
  {
    var e := Execute(g, c);
    if e.threw then e else GRun(e.g.(last := Some(c)), true, false)
  }

  /** Game.playerMove: only the player on turn, and only to a listed cell. */
  function PlayerMove(g: GameState, piece: nat, x: int, y: int): (r: GRun)
    requires GWF(g) && piece < |g.w.pieces|
    ensures GWF(r.g) && (r.value ==> !r.threw)
    ensures LastFits(g) ==> LastFits(r.g)
  {
    var p := g.w.pieces[piece];
    if p.color == PlayerColor(g.turn) && Listed(p, x, y) then
      ExecuteCommand(g, NewCommand(g, piece, x, y))
    else GRun(g, false, false)
  }

  /** A Game whose board went through an engine step, with any throw passed on. */
  function Stop(g: GameState, r: Run): GRun
  {
    GRun(g.(w := r.w), false, true)
  }

  /**
   * Restores one piece of a command: piece `id` goes back to `prev` through
   * Piece.setLocation, the board is rebuilt, and the piece's list recomputed.
   */
  function Restore(g: GameState, id: nat, prev: Point): (r: GRun)
    requires GWF(g) && id < |g.w.pieces|
    ensures GWF(r.g) && |r.g.w.pieces| == |g.w.pieces| && r.value == !r.threw
    ensures r.g.(w := g.w) == g
  {
    var s1 := SetLocation(g.w, id, prev.x, prev.y);
    BoardStep(g, s1.w);
    if s1.threw then Stop(g, s1)
    else
      var s2 := UpdateBoard(s1.w);
      BoardStep(g, s2.w);
      if s2.threw then Stop(g, s2)
      else
        var s3 := UpdateMoveList(s2.w, id);
        BoardStep(g, s3.w);
        if s3.threw then Stop(g, s3) else GRun(g.(w := s3.w), true, false)
  }

  /**
   * MoveCommand.undo: the pawn flag and the source coordinate come back, the
   * board is rebuilt, the turn is restored; then the recorded destination
   * piece is revived, re-added to its roster and put back.
   */
  function UndoCommand(g: GameState, c: MoveCommand): (r: GRun)
    requires GWF(g) && CommandFits(g.w, c)
    ensures GWF(r.g) && |r.g.w.pieces| == |g.w.pieces| && r.value == !r.threw
    ensures r.g.last == g.last
  {
    var back := UndoSource(g, c);
    if back.threw then back
    else
      var g3 := back.g.(turn := c.prevTurn);
      match c.dest
      case None => GRun(g3, true, false)
      case Some(d) => RestoreCaptured(g3, d, c.prevDest)
  }

  /** The first half of MoveCommand.undo: the pawn flag, then the source piece put back. */
  function UndoSource(g: GameState, c: MoveCommand): (r: GRun)
    requires GWF(g) && CommandFits(g.w, c)
    ensures GWF(r.g) && |r.g.w.pieces| == |g.w.pieces| && r.value == !r.threw
    ensures r.g.(w := g.w) == g
  {
    var w0 := if g.w.pieces[c.src].kind == Pawn then SetFirstMove(g.w, c.src, c.firstMove) else g.w;
    BoardStep(g, w0);
    Restore(g.(w := w0), c.src, c.prevSrc)
  }

  /** The second half of MoveCommand.undo: the captured piece is revived, re-added to its roster and put back. */
  function RestoreCaptured(g: GameState, d: nat, prev: Point): (r: GRun)
    requires GWF(g) && d < |g.w.pieces|
    ensures GWF(r.g) && |r.g.w.pieces| == |g.w.pieces| && r.value == !r.threw
    ensures r.g.(w := g.w) == g
  {
    var w1 := AddToTeam(Revive(g.w, d), g.w.pieces[d].color, d);
    BoardStep(g, w1);
    Restore(g.(w := w1), d, prev)
  }

  /** CommandManager.isUndoAvailable. */
  predicate UndoAvailable(g: GameState)
  {
    g.last.Some?
  }

  /** CommandManager.undo: the recorded command is undone once, then forgotten. */
  function Undo(g: GameState): (r: GRun)
    requires GWF(g) && LastFits(g)
    ensures GWF(r.g) && LastFits(r.g) && r.value == !r.threw
    ensures !r.threw ==> r.g.last.None?
  {
    match g.last
    case None => GRun(g, true, false)
    case Some(c) =>
      var u := UndoCommand(g, c);
      if u.threw then u else GRun(u.g.(last := None), true, false)
  }

  /**
   * Game.resetGame: forceTie, Board.clearBoard, clearTeams, Board.setUpGame,
   * then gameLoop, whose loop body never runs because `tie` holds, so only
   * its closing assignments take effect.  The win flags, the graveyards and
   * the recorded command are left as they were.
   */
  function ResetGame(g: GameState): (r: GRun)
    requires GWF(g)
    ensures GWF(r.g) && r.value == !r.threw
    ensures LastFits(g) ==> LastFits(r.g)
  {
    var s := ResetBoard(g.w);
    BoardStep(g, s.w);
    var g1 := g.(w := s.w, tie := true);
    if s.threw then GRun(g1, false, true)
    else GRun(g1.(tie := false, inCheck := false, turn := PLAYER1), true, false)
  }

  /** The board part of Game.resetGame: clearBoard, clearTeams, setUpGame. */
  function ResetBoard(w: World): (r: Run)
    requires WF(w) && Covers(w.cells, SIDE, SIDE)
    ensures WF(r.w) && r.value == !r.threw
    ensures r.w.width == w.width && r.w.height == w.height
    ensures SameDims(r.w.cells, w.cells) && |r.w.pieces| >= |w.pieces|
  {
    var w1 := ClearBoard(w);
    var w2 := ClearTeams(w1);
    CoversSameDims(w.cells, w2.cells, SIDE, SIDE);
    var s := SetUpGame(w2);
    SameDimsTrans(s.w.cells, w1.cells, w.cells);
    s
  }

  /** Game.getPlayer1Win: the flag is read and cleared. */
  function GetPlayer1Win(g: GameState): (r: GRun)
    ensures r.value == g.p1Win && r.g == g.(p1Win := false) && !r.threw
  {
    GRun(g.(p1Win := false), g.p1Win, false)
  }

  /** Game.getPlayer2Win: the flag is read and cleared. */
  function GetPlayer2Win(g: GameState): (r: GRun)
    ensures r.value == g.p2Win && r.g == g.(p2Win := false) && !r.threw
  {
    GRun(g.(p2Win := false), g.p2Win, false)
  }
}
