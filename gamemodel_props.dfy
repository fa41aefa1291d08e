/**
 * What the Game layer promises: playerMove only moves the player on turn to a
 * listed cell, isInCheck answers whether an enemy roster piece's recomputed
 * list holds the King's cell, checkStalemate means no roster piece lists a
 * move, undo restores the recorded pieces and turn once, and resetGame lays
 * out the starting position.
 */
module GameModelProps {
  import opened Model
  import opened MoveGen
  import opened Engine
  import opened GameModel
  import opened MoveGenProps
  import opened EngineProps

  // ----------------------------------------------------------- playerMove

  /** The two conditions Game.playerMove tests before it builds a command. */
  predicate Accepted(g: GameState, piece: nat, x: int, y: int)
    requires piece < |g.w.pieces| && 0 <= g.turn < 2
  {
    g.w.pieces[piece].color == PlayerColor(g.turn) && Listed(g.w.pieces[piece], x, y)
  }

  /**
   * Game.playerMove: a piece of the other player, or a cell the piece does not
   * list, is refused with the game untouched; otherwise the turn passes, the
   * board is Board.movePiece's, and without a fault the command is recorded.
   */
  lemma PlayerMoveExact(g: GameState, piece: nat, x: int, y: int)
    requires GWF(g) && piece < |g.w.pieces|
    ensures var r := PlayerMove(g, piece, x, y);
      && (!Accepted(g, piece, x, y) ==> r == GRun(g, false, false))
      && (Accepted(g, piece, x, y) ==>
            var mv := MovePiece(g.w, Some(piece), x, y);
            && r.g.w == mv.w && r.threw == mv.threw
            && r.g.turn == 1 - g.turn
            && r.g.(w := g.w, turn := g.turn, last := g.last) == g
            && r.g.last == (if mv.threw then g.last else Some(NewCommand(g, piece, x, y))))
      && (r.value <==> Accepted(g, piece, x, y) && !r.threw)
  {
  }

  // ------------------------------------------------------------ isInCheck

  /** Board a and board b look alike to c's enemies: only enemy move lists differ. */
  ghost predicate Agrees(a: World, b: World, c: Color)
    requires Shape(a) && Shape(b)
  {
    && SameBoard(a, b)
    && (forall k | 0 <= k < |a.pieces| :: SamePiece(a.pieces[k], b.pieces[k]))
    && (forall id | id in a.rosters[PlayerOf(c)] :: b.pieces[id].moveList == a.pieces[id].moveList)
  }

  /** Piece id, its list freshly recomputed on w, lists the King's cell. */
  ghost predicate Sees(w: World, id: nat, king: Point)
    requires Shape(w)
  {
    id < |w.pieces| && king in Generate(w, w.pieces[id]).moves
  }

  /** Some piece of the other player's roster, recomputed on w, lists `king`. */
  ghost predicate Attacked(w: World, c: Color, king: Point)
    requires Shape(w)
  {
    exists id | id in w.rosters[PlayerOf(Other(c))] :: Sees(w, id, king)
  }

  /** Some enemy roster entry at player i, index j or later lists `king`. */
  ghost predicate ThreatFrom(w: World, c: Color, king: Point, i: nat, j: nat)
    requires Shape(w)
  {
    exists i2, j2 | i <= i2 < 2 && (i2 == i ==> j <= j2) && PlayerColor(i2) != c && 0 <= j2 < |w.rosters[i2]| ::
      Sees(w, w.rosters[i2][j2], king)
  }

  lemma AgreesRefl(w: World, c: Color)
    requires Shape(w)
    ensures Agrees(w, w, c)
  {
  }

  /** An enemy of c sees the same on two agreeing boards. */
  lemma AgreesSees(a: World, b: World, c: Color, id: nat, king: Point)
    requires WF(a) && WF(b) && Agrees(a, b, c) && id < |a.pieces| && a.pieces[id].color != c
    ensures Generate(a, a.pieces[id]) == Generate(b, b.pieces[id])
  {
    var p := a.pieces[id];
    if p.kind == King {
      assert Other(p.color) == c by { match c case White => case Black => }
      forall pt
        ensures IntoCheck(a, p.color, pt) == IntoCheck(b, p.color, pt)
      {
        IntoCheckExact(a, p.color, pt);
        IntoCheckExact(b, p.color, pt);
      }
    }
    GenerateFrame(a, b, p, b.pieces[id]);
  }

  /** Recomputing an enemy's list keeps two boards agreeing. */
  lemma UpdateAgrees(w0: World, w: World, c: Color, e: nat)
    requires WF(w0) && WF(w) && Agrees(w0, w, c) && e < |w.pieces| && w.pieces[e].color != c
    ensures Agrees(w0, UpdateMoveList(w, e).w, c)
  {
    hide Generate, UpdateMoveList;
    var u := UpdateMoveList(w, e).w;
    forall id | id in w0.rosters[PlayerOf(c)]
      ensures u.pieces[id].moveList == w0.pieces[id].moveList
    {
      assert w.pieces[id].color == PlayerColor(PlayerOf(c));
    }
    forall k | 0 <= k < |w0.pieces|
      ensures SamePiece(w0.pieces[k], u.pieces[k])
    {
      assert SamePiece(w0.pieces[k], w.pieces[k]);
    }
  }

  /** The enemy's recomputed list holds the King's cell exactly when it sees it on the first board. */
  lemma UpdateSees(w0: World, w: World, c: Color, e: nat, king: Point)
    requires WF(w0) && WF(w) && Agrees(w0, w, c) && e < |w.pieces| && w.pieces[e].color != c
    ensures Listed(UpdateMoveList(w, e).w.pieces[e], king.x, king.y) <==> Sees(w0, e, king)
  {
    hide Generate, UpdateMoveList;
    UpdateMoveListForgets(w, e, w.pieces[e].moveList);
    AgreesSees(w0, w, c, e, king);
  }

  /**
   * One enemy examined by isInCheck: the boards still agree, and its answer is
   * whether it sees the King on the board the scan started from.
   */
  lemma ExamineAgrees(g0: GameState, g: GameState, c: Color, i: nat, j: nat, king: Point)
    requires GWF(g0) && GWF(g) && Agrees(g0.w, g.w, c)
    requires i < 2 && PlayerColor(i) != c && j < |g.w.rosters[i]|
    ensures g.w.rosters[i][j] < |g.w.pieces|
    ensures var u := Examine(g, g.w.rosters[i][j], king);
      && Agrees(g0.w, u.g.w, c)
      && (!u.threw ==> (u.value <==> Sees(g0.w, g.w.rosters[i][j], king)))
  {
    hide Generate, UpdateMoveList, Agrees, Sees;
    var e := g.w.rosters[i][j];
    assert e in g.w.rosters[i];
    assert g.w.pieces[e].color == PlayerColor(i);
    UpdateAgrees(g0.w, g.w, c, e);
    UpdateSees(g0.w, g.w, c, e, king);
  }

  /** The isInCheck scan from (i, j): its answer is ThreatFrom on the board it started from. */
  lemma {:induction false} CheckScanExact(g0: GameState, g: GameState, c: Color, king: Point, i: nat, j: nat)
    requires GWF(g0) && GWF(g) && i <= 2 && Agrees(g0.w, g.w, c)
    ensures var r := CheckScan(g, c, king, i, j);
      && Agrees(g0.w, r.g.w, c)
      && (!r.threw ==> (r.value <==> ThreatFrom(g0.w, c, king, i, j)))
    decreases 2 - i, if i < 2 then |g.w.rosters[i]| - j else 0
  {
    hide CheckScan, Examine, Generate, Sees;
    var w0 := g0.w;
    if i == 2 {
      CheckScanDone(g, c, king, j);
    } else if PlayerColor(i) == c || j >= |g.w.rosters[i]| {
      CheckScanStep(g, c, king, i, j);
      CheckScanExact(g0, g, c, king, i + 1, 0);
      if ThreatFrom(w0, c, king, i, j) {
        var i2, j2 :| i <= i2 < 2 && (i2 == i ==> j <= j2) && PlayerColor(i2) != c && 0 <= j2 < |w0.rosters[i2]| &&
          Sees(w0, w0.rosters[i2][j2], king);
        assert i2 != i;
      }
    } else {
      CheckScanStep(g, c, king, i, j);
      ExamineAgrees(g0, g, c, i, j, king);
      var u := Examine(g, g.w.rosters[i][j], king);
      if u.threw {
      } else if u.value {
        assert Sees(w0, w0.rosters[i][j], king);
      } else {
        CheckScanExact(g0, u.g, c, king, i, j + 1);
        if ThreatFrom(w0, c, king, i, j) {
          var i2, j2 :| i <= i2 < 2 && (i2 == i ==> j <= j2) && PlayerColor(i2) != c && 0 <= j2 < |w0.rosters[i2]| &&
            Sees(w0, w0.rosters[i2][j2], king);
          assert i2 != i || j2 != j;
        }
      }
    }
  }

  lemma CheckScanDone(g: GameState, c: Color, king: Point, j: nat)
    requires GWF(g)
    ensures CheckScan(g, c, king, 2, j) == GRun(g.(inCheck := false), false, false)
  {
  }

  /** The scan from the start looks at exactly the other player's roster. */
  lemma ThreatAttacked(w: World, c: Color, king: Point)
    requires Shape(w)
    ensures ThreatFrom(w, c, king, 0, 0) <==> Attacked(w, c, king)
  {
    EnemyPlayer(c, 0);
    EnemyPlayer(c, 1);
    var e := PlayerOf(Other(c));
    if Attacked(w, c, king) {
      var id :| id in w.rosters[e] && Sees(w, id, king);
      var j :| 0 <= j < |w.rosters[e]| && w.rosters[e][j] == id;
      assert Sees(w, w.rosters[e][j], king);
    }
    if ThreatFrom(w, c, king, 0, 0) {
      var i2, j2 :| 0 <= i2 < 2 && PlayerColor(i2) != c && 0 <= j2 < |w.rosters[i2]| && Sees(w, w.rosters[i2][j2], king);
      assert w.rosters[i2][j2] in w.rosters[e];
    }
  }

  /**
   * Game.isInCheck: without a King the Java code dereferences null; otherwise,
   * when no list rebuild faults, it answers whether a piece of the other
   * player's roster, its list recomputed, lists the King's cell.  Only enemy
   * move lists change.
   */
  lemma IsInCheckExact(g: GameState, c: Color)
    requires GWF(g)
    ensures var r := IsInCheck(g, c);
      && Agrees(g.w, r.g.w, c)
      && (PieceOfType(g.w, c, King).None? ==> r == GRun(g, false, true))
      && (PieceOfType(g.w, c, King).Some? && !r.threw ==>
            (r.value <==> Attacked(g.w, c, g.w.pieces[PieceOfType(g.w, c, King).value].pos)))
  {
    AgreesRefl(g.w, c);
    match PieceOfType(g.w, c, King)
    case None =>
    case Some(k) =>
      CheckScanExact(g, g, c, g.w.pieces[k].pos, 0, 0);
      ThreatAttacked(g.w, c, g.w.pieces[k].pos);
  }

  // ------------------------------------------------------- checkCheckmate

  /** checkCheckmate answers true only for a player isInCheck finds in check. */
  lemma CheckmateNeedsCheck(g: GameState, c: Color)
    requires GWF(g)
    ensures CheckCheckmate(g, c).value ==> IsInCheck(g, c).value && !IsInCheck(g, c).threw
    ensures !IsInCheck(g, c).threw && !IsInCheck(g, c).value ==> CheckCheckmate(g, c) == GRun(IsInCheck(g, c).g, false, false)
  {
  }

  /** The outer loop skips every King: a roster of Kings alone has no move to probe. */
  lemma {:induction false} ProbeKings(g: GameState, c: Color, i: nat)
    requires GWF(g)
    requires forall id | id in g.w.rosters[PlayerOf(c)] :: g.w.pieces[id].kind == King
    ensures Probe(g, c, i) == GRun(g, true, false)
    decreases Dist(i, |g.w.rosters[PlayerOf(c)]|)
  {
    ProbeUnfold(g, c, i);
    if i < |g.w.rosters[PlayerOf(c)]| {
      assert g.w.rosters[PlayerOf(c)][i] in g.w.rosters[PlayerOf(c)];
      ProbeKings(g, c, i + 1);
    }
  }

  /**
   * A player left with Kings only is checkmated exactly when in check: the
   * King's own escapes are not probed by checkCheckmate.
   */
  lemma KingsOnlyCheckmate(g: GameState, c: Color)
    requires GWF(g)
    requires forall id | id in g.w.rosters[PlayerOf(c)] :: g.w.pieces[id].kind == King
    ensures var check := IsInCheck(g, c);
      CheckCheckmate(g, c).value <==> check.value && !check.threw
  {
    IsInCheckExact(g, c);
    var check := IsInCheck(g, c);
    if !check.threw && check.value {
      forall id | id in check.g.w.rosters[PlayerOf(c)]
        ensures check.g.w.pieces[id].kind == King
      {
        assert g.w.pieces[id].kind == check.g.w.pieces[id].kind;
      }
      ProbeKings(check.g, c, 0);
    }
  }

  // ------------------------------------------------------- checkStalemate

  /** Piece id exists and lists no move. */
  ghost predicate Idle(w: World, id: nat)
  {
    id < |w.pieces| && |w.pieces[id].moveList| == 0
  }

  /** Every roster entry from player i, index j on is idle. */
  ghost predicate IdleFrom(w: World, i: nat, j: nat)
    requires |w.rosters| == 2
  {
    forall i2, j2 | i <= i2 < 2 && (i2 == i ==> j <= j2) && 0 <= j2 < |w.rosters[i2]| :: Idle(w, w.rosters[i2][j2])
  }

  lemma {:induction false} NoMovesExact(w: World, i: nat, j: nat)
    requires Shape(w) && i <= 2
    ensures NoMoves(w, i, j) <==> IdleFrom(w, i, j)
    decreases 2 - i, if i < 2 then |w.rosters[i]| - j else 0
  {
    if i == 2 {
    } else if j >= |w.rosters[i]| {
      NoMovesExact(w, i + 1, 0);
    } else {
      assert w.rosters[i][j] in w.rosters[i];
      NoMovesExact(w, i, j + 1);
      if IdleFrom(w, i, j + 1) && Idle(w, w.rosters[i][j]) {
        forall i2, j2 | i <= i2 < 2 && (i2 == i ==> j <= j2) && 0 <= j2 < |w.rosters[i2]|
          ensures Idle(w, w.rosters[i2][j2])
        {
          if i2 != i || j2 != j {
            assert i <= i2 < 2 && (i2 == i ==> j + 1 <= j2);
          }
        }
      }
    }
  }

  /** Game.checkStalemate: true exactly when no piece of either roster lists a move. */
  lemma CheckStalemateExact(g: GameState)
    requires GWF(g)
    ensures CheckStalemate(g) <==>
              forall i, id | 0 <= i < 2 && id in g.w.rosters[i] :: |g.w.pieces[id].moveList| == 0
  {
    var w := g.w;
    NoMovesExact(w, 0, 0);
    if IdleFrom(w, 0, 0) {
      forall i, id | 0 <= i < 2 && id in w.rosters[i]
        ensures |w.pieces[id].moveList| == 0
      {
        var j :| 0 <= j < |w.rosters[i]| && w.rosters[i][j] == id;
        assert Idle(w, w.rosters[i][j]);
      }
    } else {
      var i2, j2 :| 0 <= i2 < 2 && 0 <= j2 < |w.rosters[i2]| && !Idle(w, w.rosters[i2][j2]);
      assert w.rosters[i2][j2] in w.rosters[i2];
    }
  }

  /** With both rosters empty, as after clearTeams, the game is a stalemate. */
  lemma EmptyRostersStalemate(g: GameState)
    requires GWF(g) && g.w.rosters == [[], []]
    ensures CheckStalemate(g)
  {
    CheckStalemateExact(g);
  }

  // ----------------------------------------------------------------- undo

  /** Piece p after Piece.setLocation(at): only an on-board coordinate is taken. */
  function Relocated(p: Piece, at: Point): (q: Piece)
    ensures q.(pos := p.pos) == p
    ensures q.pos == if OnBoard(at.x, at.y) then at else p.pos
  {
    if OnBoard(at.x, at.y) then p.(pos := at) else p
  }

  /** Piece p after Pawn.setFirstMove(b), which only a Pawn has. */
  function Reflagged(p: Piece, b: bool): (q: Piece)
    ensures q.(firstMove := p.firstMove) == p
    ensures q.firstMove == if p.kind == Pawn then b else p.firstMove
  {
    if p.kind == Pawn then p.(firstMove := b) else p
  }

  /** Move list aside, the piece table b is a with piece id replaced by p. */
  ghost predicate AsBut(a: seq<Piece>, b: seq<Piece>, id: nat, p: Piece)
  {
    |a| == |b| && forall k | 0 <= k < |a| :: b[k].(moveList := []) == (if k == id then p else a[k]).(moveList := [])
  }

  lemma AsButLists(a: seq<Piece>, b: seq<Piece>, c: seq<Piece>, id: nat, p: Piece)
    requires AsBut(a, b, id, p) && ListsOnly(b, c)
    ensures AsBut(a, c, id, p)
  {
    forall k | 0 <= k < |a|
      ensures c[k].(moveList := []) == (if k == id then p else a[k]).(moveList := [])
    {
      assert c[k].(moveList := b[k].moveList) == b[k];
    }
  }

  /** Recomputing one list changes only move lists. */
  lemma UpdateListsOnly(w: World, id: nat)
    requires WF(w) && id < |w.pieces|
    ensures ListsOnly(w.pieces, UpdateMoveList(w, id).w.pieces)
  {
  }

  /**
   * Restoring one piece: it returns to `prev` when that is on the board, no
   * other piece moves and rosters and graveyards stay; without a fault the
   * rebuilt grid shows every roster piece on its cell and nothing else.
   */
  lemma RestoreExact(g: GameState, id: nat, prev: Point)
    requires GWF(g) && id < |g.w.pieces|
    ensures var r := Restore(g, id, prev);
      && r.g.w.rosters == g.w.rosters && r.g.w.graves == g.w.graves
      && AsBut(g.w.pieces, r.g.w.pieces, id, Relocated(g.w.pieces[id], prev))
      && (!r.threw ==> GridHonest(r.g.w) && Covered(r.g.w, g.w.rosters[0] + g.w.rosters[1]))
  {
    hide SetLocation, UpdateBoard, UpdateMoveList, Generate, Rebuild, ClearBoard, AddPiece;
    var w := g.w;
    var at := Relocated(w.pieces[id], prev);
    SetLocationExact(w, id, prev.x, prev.y);
    var s1 := SetLocation(w, id, prev.x, prev.y);
    assert AsBut(w.pieces, s1.w.pieces, id, at);
    if !s1.threw {
      UpdateBoardExact(s1.w);
      var s2 := UpdateBoard(s1.w);
      AsButLists(w.pieces, s1.w.pieces, s2.w.pieces, id, at);
      if !s2.threw {
        var s3 := UpdateMoveList(s2.w, id);
        UpdateListsOnly(s2.w, id);
        AsButLists(w.pieces, s2.w.pieces, s3.w.pieces, id, at);
        GridFrame(s2.w, s3.w, w.rosters[0] + w.rosters[1]);
      }
    }
  }

  /** The piece a command's first half puts back: its pawn flag, then its old coordinate. */
  function SourceBack(p: Piece, c: MoveCommand): Piece
  {
    Relocated(Reflagged(p, c.firstMove), c.prevSrc)
  }

  /** The first half of MoveCommand.undo: the source piece is restored, nothing else moves. */
  lemma UndoSourceExact(g: GameState, c: MoveCommand)
    requires GWF(g) && CommandFits(g.w, c)
    ensures var r := UndoSource(g, c);
      && r.g.w.rosters == g.w.rosters && r.g.w.graves == g.w.graves
      && AsBut(g.w.pieces, r.g.w.pieces, c.src, SourceBack(g.w.pieces[c.src], c))
      && (!r.threw ==> GridHonest(r.g.w) && Covered(r.g.w, g.w.rosters[0] + g.w.rosters[1]))
  {
    hide Restore;
    var p := g.w.pieces[c.src];
    var w0 := if p.kind == Pawn then SetFirstMove(g.w, c.src, c.firstMove) else g.w;
    assert w0.pieces == g.w.pieces[c.src := Reflagged(p, c.firstMove)];
    BoardStep(g, w0);
    RestoreExact(g.(w := w0), c.src, c.prevSrc);
  }

  /** The piece a command's second half puts back: alive, at its old coordinate. */
  function CapturedBack(p: Piece, prev: Point): Piece
  {
    Relocated(p.(alive := true), prev)
  }

  /**
   * The second half of MoveCommand.undo: the captured piece lives again, is
   * appended to its player's roster and returns to its coordinate; the
   * graveyards keep it.
   */
  lemma RestoreCapturedExact(g: GameState, d: nat, prev: Point)
    requires GWF(g) && d < |g.w.pieces|
    ensures var r := RestoreCaptured(g, d, prev);
      var o := PlayerOf(g.w.pieces[d].color);
      && r.g.w.rosters == g.w.rosters[o := g.w.rosters[o] + [d]] && r.g.w.graves == g.w.graves
      && AsBut(g.w.pieces, r.g.w.pieces, d, CapturedBack(g.w.pieces[d], prev))
      && (!r.threw ==> GridHonest(r.g.w) && Covered(r.g.w, r.g.w.rosters[0] + r.g.w.rosters[1]))
  {
    hide Restore;
    var o := PlayerOf(g.w.pieces[d].color);
    var w1 := Revive(g.w, d);
    AddToRosterExact(w1, o, d);
    var w2 := AddToTeam(w1, g.w.pieces[d].color, d);
    assert w2.pieces == g.w.pieces[d := g.w.pieces[d].(alive := true)];
    BoardStep(g, w2);
    RestoreExact(g.(w := w2), d, prev);
  }

  /**
   * MoveCommand.undo: the turn is restored; the source piece gets back its pawn
   * flag and coordinate; a recorded captured piece lives again, rejoins its
   * roster and returns to its coordinate; no other piece changes but for its
   * list, and the grid is rebuilt from the rosters.
   */
  lemma UndoCommandExact(g: GameState, c: MoveCommand)
    requires GWF(g) && CommandFits(g.w, c)
    ensures var r := UndoCommand(g, c);
      && r.g.(w := g.w, turn := g.turn) == g
      && r.g.w.graves == g.w.graves
      && (!r.threw ==> r.g.turn == c.prevTurn)
      && (!r.threw ==> GridHonest(r.g.w) && Covered(r.g.w, r.g.w.rosters[0] + r.g.w.rosters[1]))
      && (c.dest.None? ==>
            r.g.w.rosters == g.w.rosters && AsBut(g.w.pieces, r.g.w.pieces, c.src, SourceBack(g.w.pieces[c.src], c)))
      && (c.dest.Some? && c.dest.value != c.src && !r.threw ==>
            var d := c.dest.value;
            var o := PlayerOf(g.w.pieces[d].color);
            && r.g.w.rosters == g.w.rosters[o := g.w.rosters[o] + [d]]
            && r.g.w.pieces[c.src].(moveList := []) == SourceBack(g.w.pieces[c.src], c).(moveList := [])
            && r.g.w.pieces[d].(moveList := []) == CapturedBack(g.w.pieces[d], c.prevDest).(moveList := [])
            && forall k | 0 <= k < |g.w.pieces| && k != c.src && k != d ::
                 r.g.w.pieces[k].(moveList := []) == g.w.pieces[k].(moveList := []))
      && (c.dest == Some(c.src) && !r.threw ==>
            r.g.w.pieces[c.src].(moveList := []) ==
              CapturedBack(SourceBack(g.w.pieces[c.src], c), c.prevDest).(moveList := []))
  {
    hide UndoSource, RestoreCaptured, GridHonest, Covered, AsBut, SourceBack, CapturedBack;
    UndoSourceExact(g, c);
    var back := UndoSource(g, c);
    if !back.threw {
      var g3 := back.g.(turn := c.prevTurn);
      match c.dest
      case None =>
      case Some(d) =>
        var a, b := g.w.pieces, g3.w.pieces;
        SourceBackFacts(a[c.src], c);
        AsButColor(a, b, c.src, SourceBack(a[c.src], c), d);
        RestoreCapturedExact(g3, d, c.prevDest);
        var r := RestoreCaptured(g3, d, c.prevDest);
        if d != c.src {
          AsButCompose(a, b, r.g.w.pieces, c.src, d, SourceBack(a[c.src], c), CapturedBack(b[d], c.prevDest));
          AsButAt(a, b, c.src, SourceBack(a[c.src], c), d);
          CapturedBackLists(b[d], a[d], c.prevDest);
        } else {
          AsButAt(a, b, c.src, SourceBack(a[c.src], c), d);
          AsButAt(b, r.g.w.pieces, d, CapturedBack(b[d], c.prevDest), d);
          CapturedBackLists(b[d], SourceBack(a[d], c), c.prevDest);
        }
    }
  }

  /** The entry of an AsBut table at k, move list aside. */
  lemma AsButAt(a: seq<Piece>, b: seq<Piece>, id: nat, p: Piece, k: nat)
    requires AsBut(a, b, id, p) && k < |a|
    ensures b[k].(moveList := []) == (if k == id then p else a[k]).(moveList := [])
  {
  }

  /** A restored source piece keeps its colour, as every piece an AsBut table leaves out does. */
  lemma AsButColor(a: seq<Piece>, b: seq<Piece>, s: nat, p: Piece, k: nat)
    requires AsBut(a, b, s, p) && s < |a| && k < |a| && p.color == a[s].color
    ensures b[k].color == a[k].color
  {
    assert b[k].(moveList := []) == (if k == s then p else a[k]).(moveList := []);
  }

  /** Two pieces replaced one after the other. */
  lemma AsButCompose(a: seq<Piece>, b: seq<Piece>, c: seq<Piece>, s: nat, d: nat, p: Piece, q: Piece)
    requires AsBut(a, b, s, p) && AsBut(b, c, d, q) && s != d && s < |a| && d < |a|
    ensures c[s].(moveList := []) == p.(moveList := [])
    ensures c[d].(moveList := []) == q.(moveList := [])
    ensures forall k | 0 <= k < |a| && k != s && k != d :: c[k].(moveList := []) == a[k].(moveList := [])
  {
    assert c[s].(moveList := []) == b[s].(moveList := []);
    forall k | 0 <= k < |a| && k != s && k != d
      ensures c[k].(moveList := []) == a[k].(moveList := [])
    {
      assert c[k].(moveList := []) == b[k].(moveList := []);
    }
  }

  lemma CapturedBackLists(p: Piece, q: Piece, prev: Point)
    requires p.(moveList := []) == q.(moveList := [])
    ensures CapturedBack(p, prev).(moveList := []) == CapturedBack(q, prev).(moveList := [])
  {
  }

  /** CommandManager.undo with nothing recorded does nothing. */
  lemma UndoNothing(g: GameState)
    requires GWF(g) && LastFits(g) && g.last.None?
    ensures Undo(g) == GRun(g, true, false) && !UndoAvailable(g)
  {
  }

  /** CommandManager.undo forgets the command it undid: a second undo does nothing. */
  lemma UndoOnce(g: GameState)
    requires GWF(g) && LastFits(g)
    ensures var r := Undo(g);
      && (g.last.Some? ==> r == (var u := UndoCommand(g, g.last.value); if u.threw then u else GRun(u.g.(last := None), true, false)))
      && (!r.threw ==> !UndoAvailable(r.g) && Undo(r.g) == GRun(r.g, true, false))
  {
  }

  /**
   * Game u after a move of `piece` to (x, y) from game g and its undo: the
   * turn is the mover's again, the piece is back on its cell with its pawn
   * flag, and a piece captured there is alive, on its roster and on its cell.
   */
  ghost predicate MovedBack(g: GameState, u: GameState, piece: nat, x: int, y: int)
    requires GWF(g) && piece < |g.w.pieces| && Shape(u.w)
  {
    && u.turn == g.turn && !UndoAvailable(u)
    && |u.w.pieces| == |g.w.pieces|
    && u.w.pieces[piece].pos == g.w.pieces[piece].pos
    && (g.w.pieces[piece].kind == Pawn ==> u.w.pieces[piece].firstMove == g.w.pieces[piece].firstMove)
    && (GetPiece(g.w, x, y).Some? && GetPiece(g.w, x, y).value != piece ==>
          var d := GetPiece(g.w, x, y).value;
          && u.w.pieces[d].alive
          && d in u.w.rosters[PlayerOf(g.w.pieces[d].color)]
          && (OnBoard(g.w.pieces[d].pos.x, g.w.pieces[d].pos.y) ==> u.w.pieces[d].pos == g.w.pieces[d].pos))
  }

  /** A move and its undo: CommandManager.undo puts back what playerMove changed (MovedBack). */
  lemma MoveUndo(g: GameState, piece: nat, x: int, y: int)
    requires GWF(g) && piece < |g.w.pieces| && Accepted(g, piece, x, y)
    requires OnBoard(g.w.pieces[piece].pos.x, g.w.pieces[piece].pos.y)
    ensures var m := PlayerMove(g, piece, x, y);
      !m.threw ==>
        && UndoAvailable(m.g) && LastFits(m.g)
        && (!Undo(m.g).threw ==> MovedBack(g, Undo(m.g).g, piece, x, y))
  {
    hide MovePiece, ExecuteCommand, PlayerMove, Undo, Decays, MovedBack;
    PlayerMoveExact(g, piece, x, y);
    var m := PlayerMove(g, piece, x, y);
    if !m.threw {
      MovePieceDecays(g.w, Some(piece), x, y);
      UndoRestores(g, m.g, piece, x, y);
    }
  }

  /** The undo half of MoveUndo, for any later game whose pieces kept their colours and kinds. */
  lemma UndoRestores(g: GameState, mg: GameState, piece: nat, x: int, y: int)
    requires GWF(g) && GWF(mg) && piece < |g.w.pieces| && Decays(g.w, mg.w)
    requires OnBoard(g.w.pieces[piece].pos.x, g.w.pieces[piece].pos.y)
    requires mg.last == Some(NewCommand(g, piece, x, y))
    ensures UndoAvailable(mg) && LastFits(mg)
    ensures !Undo(mg).threw ==> MovedBack(g, Undo(mg).g, piece, x, y)
  {
    hide UndoCommand, AsBut, SourceBack, CapturedBack, GridHonest, Covered, NewCommand;
    var c := NewCommand(g, piece, x, y);
    assert forall k | 0 <= k < |g.w.pieces| :: mg.w.pieces[k].color == g.w.pieces[k].color && mg.w.pieces[k].kind == g.w.pieces[k].kind;
    assert CommandFits(mg.w, c);
    UndoCommandExact(mg, c);
    var u := UndoCommand(mg, c);
    assert Undo(mg) == (if u.threw then u else GRun(u.g.(last := None), true, false));
    if !u.threw {
      var p := mg.w.pieces[piece];
      SourceBackFacts(p, c);
      if c.dest.None? {
        AsButAt(mg.w.pieces, u.g.w.pieces, piece, SourceBack(p, c), piece);
      } else {
        var d := c.dest.value;
        if d == piece {
          CapturedBackFacts(SourceBack(p, c), c.prevDest);
        } else {
          CapturedBackFacts(mg.w.pieces[d], c.prevDest);
        }
      }
    }
  }

  lemma SourceBackFacts(p: Piece, c: MoveCommand)
    ensures var q := SourceBack(p, c);
      && q.color == p.color && q.kind == p.kind && q.alive == p.alive
      && q.pos == (if OnBoard(c.prevSrc.x, c.prevSrc.y) then c.prevSrc else p.pos)
      && q.firstMove == (if p.kind == Pawn then c.firstMove else p.firstMove)
  {
  }

  lemma CapturedBackFacts(p: Piece, prev: Point)
    ensures var q := CapturedBack(p, prev);
      && q.color == p.color && q.kind == p.kind && q.alive && q.firstMove == p.firstMove
      && q.pos == (if OnBoard(prev.x, prev.y) then prev else p.pos)
  {
  }

  // ------------------------------------------------------------ resetGame

  /**
   * Game.resetGame: the starting position on a cleared board, every piece
   * fresh and on its player's roster; player 1 to move, `tie` and `inCheck`
   * cleared, the win flags and the recorded command left as they were.
   */
  lemma ResetGameExact(g: GameState)
    requires GWF(g)
    ensures var r := ResetGame(g);
      && !r.threw && r.value
      && r.g.turn == PLAYER1 && !r.g.tie && !r.g.inCheck
      && r.g.(w := g.w, turn := g.turn, tie := g.tie, inCheck := g.inCheck) == g
      && forall x, y | 0 <= x < SIDE && 0 <= y < SIDE :: StartCell(g.w, r.g.w, x, y)
  {
    hide SetUpGame, StartCell;
    var w1 := ClearBoard(g.w);
    ClearBoardEmpty(g.w);
    var w2 := ClearTeams(w1);
    CoversSameDims(g.w.cells, w2.cells, SIDE, SIDE);
    assert forall x, y | 0 <= x < SIDE && 0 <= y < SIDE :: Vacant(w2, x, y) by {
      assert forall x, y :: GetPiece(w2, x, y) == GetPiece(w1, x, y);
    }
    SetUpGameLayout(w2);
    assert ResetBoard(g.w) == SetUpGame(w2);
    forall x, y | 0 <= x < SIDE && 0 <= y < SIDE
      ensures StartCell(g.w, ResetBoard(g.w).w, x, y)
    {
      StartCellBase(w2, g.w, ResetBoard(g.w).w, x, y);
    }
  }

  /** StartCell reads the first board only through its piece count. */
  lemma StartCellBase(a: World, b: World, v: World, x: int, y: int)
    requires Shape(v) && 0 <= x < SIDE && 0 <= y < SIDE && |a.pieces| == |b.pieces|
    requires StartCell(a, v, x, y)
    ensures StartCell(b, v, x, y)
  {
  }
}
