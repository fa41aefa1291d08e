/**
 * The Game class with its inner MoveCommand, and the CommandManager that
 * keeps the last command.  Every method is proved against the GameModel
 * function of the same name: the abstract GState() afterwards is that
 * function applied to the state before, and the returned flags are the
 * function's value and fault.  The two players live in the Board (its
 * `white` and `black`), which is where Board.setUpGame and movePiece reach
 * them through the game.
 */
module Games {
  import opened Model
  import opened MoveGen
  import opened Engine
  import opened GameModel
  import opened Boards
  import Pieces

  /** CommandManager: a single slot holding the last executed command. */
  class CommandManager {
    var last: Option<MoveCommand>

    /** The empty constructor: no command recorded, so nothing to undo. */
    constructor ()
      ensures last.None?
    {
      last := None;
    }

    /** CommandManager.isUndoAvailable. */
    method IsUndoAvailable() returns (b: bool)
      ensures b <==> last.Some?
    {
      b := last.Some?;
    }

    /** CommandManager.executeCommand: run the command, then remember it. */
    method ExecuteCommand(game: Game, c: MoveCommand) returns (threw: bool)
      requires game.Valid() && game.commands == this && CommandFits(game.board.State(), c)
      modifies this, game, game.board, game.board.spaces, game.board.white, game.board.black
      ensures game.GState() == GameModel.ExecuteCommand(old(game.GState()), c).g
      ensures game.Valid() && game.board.spaces == old(game.board.spaces)
      ensures threw == GameModel.ExecuteCommand(old(game.GState()), c).threw
    {
      hide GameModel.Execute;
      threw := game.Execute(c);
      if !threw {
        last := Some(c);
      }
    }

    /** CommandManager.undo: undo the recorded command once, then forget it. */
    method Undo(game: Game) returns (threw: bool)
      requires game.Valid() && game.HistoryFits() && game.commands == this
      modifies this, game, game.board, game.board.spaces, game.board.white, game.board.black
      ensures game.GState() == GameModel.Undo(old(game.GState())).g
      ensures game.Valid() && game.board.spaces == old(game.board.spaces)
      ensures threw == GameModel.Undo(old(game.GState())).threw
    {
      hide GameModel.UndoCommand;
      threw := false;
      if last.Some? {
        threw := game.UndoCommand(last.value);
        if !threw {
          last := None;
        }
      }
    }
  }

  class Game {
    const board: Board
    const commands: CommandManager
    var turn: int
    var p1Win: bool
    var p2Win: bool
    var inCheck: bool
    var tie: bool

    /** The game's fields, its board and its history as one value. */
    ghost function GState(): GameState
      reads this, board, board.white, board.black, commands
    {
      GameState(board.State(), turn, p1Win, p2Win, inCheck, tie, commands.last)
    }

    ghost predicate Valid()
      reads this, board, board.spaces, board.white, board.black, commands
      ensures Valid() ==> GWF(GState())
    {
      && board.Valid() && board.width == SIDE && board.height == SIDE && Covers(board.cells, SIDE, SIDE)
      && 0 <= turn < 2
    }

    /** The recorded command's pieces exist (see LastFits); Game.undo needs it. */
    ghost predicate HistoryFits()
      reads this, board, board.white, board.black, commands
    {
      LastFits(GState())
    }

    /** Game(): the default board, no flag raised, player 1 to move, no history. */
    constructor ()
      ensures Valid() && GState() == NewGame()
      ensures fresh(board) && fresh(board.spaces) && fresh(board.white) && fresh(board.black) && fresh(commands)
    {
      board := new Board();
      p1Win := false;
      p2Win := false;
      tie := false;
      turn := PLAYER1;
      inCheck := false;
      commands := new CommandManager();
    }

    // ----------------------------------------------------------- lookups

    /** Game.getRosterSize: the size of the roster of the player of colour c. */
    method GetRosterSize(c: Color) returns (n: int)
      requires Valid()
      ensures n == RosterSize(board.State(), c)
    {
      var person := board.PlayerAt(PlayerOf(c));
      n := person.GetRosterSize();
    }

    /** Game.getPieceFromRoster. */
    method GetPieceFromRoster(c: Color, index: int) returns (r: Option<nat>)
      requires Valid()
      ensures r == PieceFromRoster(board.State(), c, index)
    {
      var person := board.PlayerAt(PlayerOf(c));
      r := person.GetFromRoster(index);
    }

    /** Game.getPieceOfType: a search of the roster for the first piece of kind k. */
    method GetPieceOfType(c: Color, k: Kind) returns (r: Option<nat>)
      requires Valid()
      ensures r == PieceOfType(board.State(), c, k)
    {
      hide PieceOfType, Generate;
      PieceOfTypeSearch(board.State(), c, k);
      var person := board.PlayerAt(PlayerOf(c));
      var roster, pieces := person.roster, board.pieces;
      var i := 0;
      while i < |roster|
        invariant 0 <= i <= |roster|
        invariant forall m | 0 <= m < |roster| :: roster[m] < |pieces|
        invariant forall m | 0 <= m < i :: pieces[roster[m]].kind != k
      {
        if pieces[roster[i]].kind == k {
          FirstOfKindAt(pieces, roster, k, 0, i);
          return Some(roster[i]);
        }
        i := i + 1;
      }
      return None;
    }

    /** Game.getPlayerColor: the colour of player[index], none outside the two. */
    method GetPlayerColor(index: int) returns (r: Option<Color>)
      requires Valid()
      ensures r == PlayerColorAt(index)
    {
      if index < 2 && index >= 0 {
        return Some(board.PlayerAt(index).color);
      }
      return None;
    }

    /** Game.addToTeam. */
    method AddToTeam(c: Color, id: nat)
      requires Valid() && id < |board.pieces|
      modifies board.white, board.black
      ensures GState() == old(GState()).(w := GameModel.AddToTeam(old(board.State()), c, id))
      ensures Valid()
    {
      ghost var g := GState();
      board.AddToRoster(PlayerOf(c), id);
      BoardStep(g, board.State());
    }

    /** Game.removeFromTeam. */
    method RemoveFromTeam(c: Color, id: nat)
      requires Valid()
      modifies board.white, board.black
      ensures GState() == old(GState()).(w := GameModel.RemoveFromTeam(old(board.State()), c, id))
      ensures Valid()
    {
      ghost var g := GState();
      board.RemoveFromRoster(PlayerOf(c), id);
      BoardStep(g, board.State());
    }

    /** Game.setCapturedPiece: the owner's getCaptured; the piece stays alive. */
    method SetCapturedPiece(id: nat)
      requires Valid() && id < |board.pieces|
      modifies board.white, board.black
      ensures GState() == old(GState()).(w := GameCaptured(old(board.State()), id))
      ensures Valid()
    {
      ghost var g := GState();
      board.GetCaptured(PlayerOf(board.pieces[id].color), id);
      BoardStep(g, board.State());
    }

    // ------------------------------------------------------------- check

    /** Game.isInCheck: every enemy roster piece recomputes its list and is asked for the King's cell. */
    method IsInCheck(c: Color) returns (r: bool, threw: bool)
      requires Valid()
      modifies this, board
      ensures GState() == GameModel.IsInCheck(old(GState()), c).g
      ensures Valid() && board.spaces == old(board.spaces)
      ensures r == GameModel.IsInCheck(old(GState()), c).value
      ensures threw == GameModel.IsInCheck(old(GState()), c).threw
    {
      hide GameModel.Examine;
      var king := GetPieceOfType(c, King);
      if king.None? {
        return false, true;
      }
      var at := board.pieces[king.value].pos;
      ghost var target := CheckScan(GState(), c, at, 0, 0);
      var i := 0;
      while i < 2
        invariant 0 <= i <= 2 && Valid() && board.spaces == old(board.spaces)
        invariant CheckScan(GState(), c, at, i, 0) == target
      {
        var stop;
        r, threw, stop := ScanRoster(c, at, i);
        if stop {
          return;
        }
        i := i + 1;
      }
      inCheck := false;
      return false, false;
    }

    /**
     * The pass of isInCheck over player i: nothing when i is c's own player,
     * otherwise every roster piece in order.  `stop` says the scan ended here.
     */
    method ScanRoster(c: Color, at: Point, i: nat) returns (r: bool, threw: bool, stop: bool)
      requires Valid() && i < 2
      modifies this, board
      ensures Valid() && board.spaces == old(board.spaces)
      ensures stop ==> GRun(GState(), r, threw) == CheckScan(old(GState()), c, at, i, 0)
      ensures !stop ==> CheckScan(GState(), c, at, i + 1, 0) == CheckScan(old(GState()), c, at, i, 0)
    {
      hide GameModel.Examine, CheckScan;
      r, threw, stop := false, false, false;
      var enemyColor := PlayerColor(i);
      if enemyColor == c {
        CheckScanStep(GState(), c, at, i, 0);
        return;
      }
      ghost var target := CheckScan(GState(), c, at, i, 0);
      ghost var rosters := board.State().rosters;
      var j := 0;
      var n := GetRosterSize(enemyColor);
      while !stop && j < n
        invariant 0 <= j && Valid() && board.spaces == old(board.spaces)
        invariant board.State().rosters == rosters && n == |rosters[i]|
        invariant !stop ==> CheckScan(GState(), c, at, i, j) == target
        invariant stop ==> GRun(GState(), r, threw) == target
        decreases n - j + (if stop then 0 else 1)
      {
        CheckScanStep(GState(), c, at, i, j);
        var enemy := GetPieceFromRoster(enemyColor, j);
        r, threw := Examine(enemy.value, at);
        if threw || r {
          stop := true;
        } else {
          j := j + 1;
        }
      }
      if !stop {
        CheckScanStep(GState(), c, at, i, j);
      }
    }

    /** One enemy of isInCheck: updateMoveList, then isInMoveList for the King's cell. */
    method Examine(enemy: nat, at: Point) returns (listed: bool, threw: bool)
      requires Valid() && enemy < |board.pieces|
      modifies this, board
      ensures GState() == GameModel.Examine(old(GState()), enemy, at).g
      ensures Valid() && board.spaces == old(board.spaces)
      ensures listed == GameModel.Examine(old(GState()), enemy, at).value
      ensures threw == GameModel.Examine(old(GState()), enemy, at).threw
    {
      var ok := board.UpdateMoveList(enemy);
      threw := !ok;
      listed := false;
      if ok {
        listed := Pieces.CanMoveTo(board.pieces[enemy], at.x, at.y);
        if listed {
          inCheck := true;
        }
      }
    }

    /**
     * Game.checkCheckmate: in check, every non-King ally tries each of its
     * listed moves, asks isInCheck and moves back; the first probe that
     * escapes check answers false.
     */
    method CheckCheckmate(c: Color) returns (r: bool, threw: bool)
      requires Valid()
      modifies this, board, board.spaces, board.white, board.black
      ensures GState() == GameModel.CheckCheckmate(old(GState()), c).g
      ensures Valid() && board.spaces == old(board.spaces)
      ensures r == GameModel.CheckCheckmate(old(GState()), c).value
      ensures threw == GameModel.CheckCheckmate(old(GState()), c).threw
    {
      var check;
      check, threw := IsInCheck(c);
      if threw || !check {
        return false, threw;
      }
      r, threw := ProbeAll(c);
    }

    /** The loops of checkCheckmate, once the side is known to be in check. */
    method ProbeAll(c: Color) returns (r: bool, threw: bool)
      requires Valid()
      modifies this, board, board.spaces, board.white, board.black
      ensures GRun(GState(), r, threw) == Probe(old(GState()), c, 0)
      ensures Valid() && board.spaces == old(board.spaces)
    {
      hide GameModel.Try, GameModel.Probe;
      ghost var target := Probe(GState(), c, 0);
      var i := 0;
      var n := GetRosterSize(c);
      while i < n
        invariant Valid() && board.spaces == old(board.spaces)
        invariant n == |board.State().rosters[PlayerOf(c)]|
        invariant Probe(GState(), c, i) == target
        decreases Dist(i, n)
      {
        ProbeUnfold(GState(), c, i);
        var ally := GetPieceFromRoster(c, i);
        if board.pieces[ally.value].kind != King {
          var orig := board.pieces[ally.value].pos;
          var stop;
          r, threw, stop := TryMoves(c, i, ally.value, orig);
          if stop {
            return;
          }
        }
        i := i + 1;
        n := GetRosterSize(c);
      }
      ProbeUnfold(GState(), c, i);
      return true, false;
    }

    /**
     * The inner loop of checkCheckmate for one ally.  `stop` says the search
     * ended here (an escape or a fault); otherwise it goes on with the next
     * roster index.
     */
    method TryMoves(c: Color, i: nat, ally: nat, orig: Point) returns (r: bool, threw: bool, stop: bool)
      requires Valid() && ally < |board.pieces|
      modifies this, board, board.spaces, board.white, board.black
      ensures Valid() && board.spaces == old(board.spaces)
      ensures stop ==> GRun(GState(), r, threw) == Try(old(GState()), c, i, ally, orig, 0)
      ensures !stop ==> Probe(GState(), c, i + 1) == Try(old(GState()), c, i, ally, orig, 0)
      ensures |board.State().rosters[PlayerOf(c)]| <= |old(board.State()).rosters[PlayerOf(c)]|
    {
      hide GameModel.ProbeMove, GameModel.Try, GameModel.Probe;
      ghost var target := Try(GState(), c, i, ally, orig, 0);
      ghost var size := |board.State().rosters[PlayerOf(c)]|;
      r, threw, stop := false, false, false;
      var m := 0;
      while !stop && m < |board.pieces[ally].moveList|
        invariant Valid() && board.spaces == old(board.spaces) && ally < |board.pieces|
        invariant |board.State().rosters[PlayerOf(c)]| <= size
        invariant !stop ==> Try(GState(), c, i, ally, orig, m) == target
        invariant stop ==> GRun(GState(), r, threw) == target
        decreases MAX_MOVES - m + (if stop then 0 else 1)
      {
        TryStep(GState(), c, i, ally, orig, m);
        var pt := board.pieces[ally].moveList[m];
        var check, fault := ProbeMove(c, ally, pt, orig);
        if fault {
          r, threw, stop := false, true, true;
        } else if !check {
          r, threw, stop := false, false, true;
        } else {
          m := m + 1;
        }
      }
      if !stop {
        TryStep(GState(), c, i, ally, orig, m);
        ProbeUnfold(GState(), c, i + 1);
      }
    }

    /** One probe: movePiece to pt, isInCheck, movePiece back to orig. */
    method ProbeMove(c: Color, ally: nat, pt: Point, orig: Point) returns (check: bool, threw: bool)
      requires Valid() && ally < |board.pieces|
      modifies this, board, board.spaces, board.white, board.black
      ensures GState() == GameModel.ProbeMove(old(GState()), c, ally, pt, orig).g
      ensures Valid() && board.spaces == old(board.spaces)
      ensures check == GameModel.ProbeMove(old(GState()), c, ally, pt, orig).value
      ensures threw == GameModel.ProbeMove(old(GState()), c, ally, pt, orig).threw
    {
      hide Engine.MovePiece, GameModel.ProbeBack;
      ghost var g := GState();
      var moved;
      moved, threw := board.MovePiece(Some(ally), pt.x, pt.y);
      BoardStep(g, board.State());
      check := false;
      if threw {
        return;
      }
      check, threw := ProbeBack(c, ally, orig);
    }

    /** The rest of a probe: isInCheck, then movePiece back to orig. */
    method ProbeBack(c: Color, ally: nat, orig: Point) returns (check: bool, threw: bool)
      requires Valid() && ally < |board.pieces|
      modifies this, board, board.spaces, board.white, board.black
      ensures GState() == GameModel.ProbeBack(old(GState()), c, ally, orig).g
      ensures Valid() && board.spaces == old(board.spaces)
      ensures check == GameModel.ProbeBack(old(GState()), c, ally, orig).value
      ensures threw == GameModel.ProbeBack(old(GState()), c, ally, orig).threw
    {
      hide Engine.MovePiece, GameModel.IsInCheck;
      check, threw := IsInCheck(c);
      if threw {
        return;
      }
      ghost var g2 := GState();
      var back;
      back, threw := board.MovePiece(Some(ally), orig.x, orig.y);
      BoardStep(g2, board.State());
    }

    /** Game.checkStalemate: a read-only scan of both rosters for a non-empty list. */
    method CheckStalemate() returns (r: bool)
      requires Valid()
      ensures r == GameModel.CheckStalemate(GState())
    {
      var i := 0;
      while i < 2
        invariant 0 <= i <= 2
        invariant NoMoves(board.State(), i, 0) == NoMoves(board.State(), 0, 0)
      {
        var playerColor := PlayerColor(i);
        var n := GetRosterSize(playerColor);
        var j := 0;
        while j < n
          invariant 0 <= j <= n == |board.State().rosters[i]|
          invariant NoMoves(board.State(), i, j) == NoMoves(board.State(), 0, 0)
        {
          var piece := GetPieceFromRoster(playerColor, j);
          if |board.pieces[piece.value].moveList| > 0 {
            return false;
          }
          j := j + 1;
        }
        i := i + 1;
      }
      return true;
    }

    // ------------------------------------------------------------- moves

    /** The MoveCommand constructor: what undo will need, read before the move. */
    method NewCommand(src: nat, x: int, y: int) returns (c: MoveCommand)
      requires Valid() && src < |board.pieces|
      ensures c == GameModel.NewCommand(GState(), src, x, y)
    {
      var dest := board.GetPiece(x, y);
      var p := board.pieces[src];
      var prevDest := Point(0, 0);
      if dest.Some? {
        prevDest := board.pieces[dest.value].pos;
      }
      var firstMove := false;
      if p.kind == Pawn {
        firstMove := p.firstMove;
      }
      c := MoveCommand(src, dest, p.pos, prevDest, turn, Point(x, y), firstMove);
    }

    /** MoveCommand.execute: the other player's turn, then Board.movePiece. */
    method Execute(c: MoveCommand) returns (threw: bool)
      requires Valid() && CommandFits(board.State(), c)
      modifies this, board, board.spaces, board.white, board.black
      ensures GState() == GameModel.Execute(old(GState()), c).g
      ensures Valid() && board.spaces == old(board.spaces)
      ensures threw == GameModel.Execute(old(GState()), c).threw
    {
      hide Engine.MovePiece;
      turn := NextTurn(turn);
      var moved;
      moved, threw := board.MovePiece(Some(c.src), c.to.x, c.to.y);
    }

    /** Game.playerMove: only the player on turn, only to a cell the piece lists. */
    method PlayerMove(piece: nat, x: int, y: int) returns (ok: bool, threw: bool)
      requires Valid() && piece < |board.pieces|
      modifies this, board, board.spaces, board.white, board.black, commands
      ensures GState() == GameModel.PlayerMove(old(GState()), piece, x, y).g
      ensures Valid() && board.spaces == old(board.spaces)
      ensures ok == GameModel.PlayerMove(old(GState()), piece, x, y).value
      ensures threw == GameModel.PlayerMove(old(GState()), piece, x, y).threw
    {
      hide GameModel.ExecuteCommand;
      ok, threw := false, false;
      var p := board.pieces[piece];
      if p.color == board.PlayerAt(turn).color {
        var listed := Pieces.CanMoveTo(p, x, y);
        if listed {
          var c := NewCommand(piece, x, y);
          threw := commands.ExecuteCommand(this, c);
          ok := !threw;
        }
      }
    }

    /** One piece of MoveCommand.undo: setLocation, updateBoard, updateMoveList. */
    method Restore(id: nat, prev: Point) returns (threw: bool)
      requires Valid() && id < |board.pieces|
      modifies board, board.spaces
      ensures GState() == GameModel.Restore(old(GState()), id, prev).g
      ensures Valid() && board.spaces == old(board.spaces)
      ensures threw == GameModel.Restore(old(GState()), id, prev).threw
    {
      hide Engine.SetLocation, Engine.UpdateBoard, Engine.UpdateMoveList;
      var ok := board.SetLocation(id, prev.x, prev.y);
      if !ok {
        return true;
      }
      ok := board.UpdateBoard();
      if !ok {
        return true;
      }
      ok := board.UpdateMoveList(id);
      return !ok;
    }

    /** MoveCommand.undo. */
    method UndoCommand(c: MoveCommand) returns (threw: bool)
      requires Valid() && CommandFits(board.State(), c)
      modifies this, board, board.spaces, board.white, board.black
      ensures GState() == GameModel.UndoCommand(old(GState()), c).g
      ensures Valid() && board.spaces == old(board.spaces)
      ensures threw == GameModel.UndoCommand(old(GState()), c).threw
    {
      hide GameModel.UndoSource, GameModel.RestoreCaptured;
      threw := UndoSource(c);
      if threw {
        return;
      }
      turn := c.prevTurn;
      if c.dest.Some? {
        threw := RestoreCaptured(c.dest.value, c.prevDest);
      }
    }

    /** The first half of MoveCommand.undo: the pawn's saved flag, then the source piece put back. */
    method UndoSource(c: MoveCommand) returns (threw: bool)
      requires Valid() && CommandFits(board.State(), c)
      modifies board, board.spaces
      ensures GState() == GameModel.UndoSource(old(GState()), c).g
      ensures Valid() && board.spaces == old(board.spaces)
      ensures threw == GameModel.UndoSource(old(GState()), c).threw
    {
      hide GameModel.Restore;
      ghost var g := GState();
      if board.pieces[c.src].kind == Pawn {
        board.SetFirstMove(c.src, c.firstMove);
      }
      BoardStep(g, board.State());
      threw := Restore(c.src, c.prevSrc);
    }

    /** The second half of MoveCommand.undo: setAlive(true), addToTeam, and the piece put back. */
    method RestoreCaptured(d: nat, prev: Point) returns (threw: bool)
      requires Valid() && d < |board.pieces|
      modifies board, board.spaces, board.white, board.black
      ensures GState() == GameModel.RestoreCaptured(old(GState()), d, prev).g
      ensures Valid() && board.spaces == old(board.spaces)
      ensures threw == GameModel.RestoreCaptured(old(GState()), d, prev).threw
    {
      hide GameModel.Restore;
      ghost var g := GState();
      board.SetAlive(d, true);
      BoardStep(g, board.State());
      AddToTeam(board.pieces[d].color, d);
      threw := Restore(d, prev);
    }

    /** Game.canUndo. */
    method CanUndo() returns (b: bool)
      requires Valid()
      ensures b == UndoAvailable(GState())
    {
      b := commands.IsUndoAvailable();
    }

    /** Game.undo, through the CommandManager. */
    method Undo() returns (threw: bool)
      requires Valid() && HistoryFits()
      modifies this, board, board.spaces, board.white, board.black, commands
      ensures GState() == GameModel.Undo(old(GState())).g
      ensures Valid() && HistoryFits() && board.spaces == old(board.spaces)
      ensures threw == GameModel.Undo(old(GState())).threw
    {
      threw := commands.Undo(this);
    }

    /**
     * Game.resetGame: forceTie, then the board part, then gameLoop, whose
     * loop body is skipped because `tie` holds, so only its closing
     * assignments run.
     */
    method ResetGame() returns (threw: bool)
      requires Valid()
      modifies this, board, board.spaces, board.white, board.black
      ensures GState() == GameModel.ResetGame(old(GState())).g
      ensures Valid() && board.spaces == old(board.spaces)
      ensures threw == GameModel.ResetGame(old(GState())).threw
    {
      hide GameModel.ResetBoard;
      ForceTie();
      threw := ResetBoard();
      if threw {
        return;
      }
      tie := false;
      inCheck := false;
      turn := PLAYER1;
    }

    /** Board.clearBoard, clearTeams and Board.setUpGame, as resetGame calls them. */
    method ResetBoard() returns (threw: bool)
      requires Valid()
      modifies board, board.spaces, board.white, board.black
      ensures board.State() == GameModel.ResetBoard(old(board.State())).w
      ensures board.Valid() && board.spaces == old(board.spaces)
      ensures threw == GameModel.ResetBoard(old(board.State())).threw
    {
      ghost var w := board.State();
      board.ClearBoard();
      board.ClearTeams();
      CoversSameDims(w.cells, board.State().cells, SIDE, SIDE);
      var ok := board.SetUpGame();
      threw := !ok;
    }

    // --------------------------------------------------------- win flags

    /** Game.player1Forfeit: player 2 wins. */
    method Player1Forfeit()
      modifies this
      ensures p2Win && p1Win == old(p1Win) && turn == old(turn) && inCheck == old(inCheck) && tie == old(tie)
    {
      p2Win := true;
    }

    /** Game.player2Forfeit: player 1 wins. */
    method Player2Forfeit()
      modifies this
      ensures p1Win && p2Win == old(p2Win) && turn == old(turn) && inCheck == old(inCheck) && tie == old(tie)
    {
      p1Win := true;
    }

    /** Game.forceTie. */
    method ForceTie()
      modifies this
      ensures tie && p1Win == old(p1Win) && p2Win == old(p2Win) && turn == old(turn) && inCheck == old(inCheck)
    {
      tie := true;
    }

    /** Game.getPlayer1Win: read once, then cleared. */
    method GetPlayer1Win() returns (r: bool)
      modifies this
      ensures GState() == GameModel.GetPlayer1Win(old(GState())).g
      ensures r == GameModel.GetPlayer1Win(old(GState())).value
    {
      if p1Win == true {
        p1Win := false;
        return true;
      }
      return false;
    }

    /** Game.getPlayer2Win: read once, then cleared. */
    method GetPlayer2Win() returns (r: bool)
      modifies this
      ensures GState() == GameModel.GetPlayer2Win(old(GState())).g
      ensures r == GameModel.GetPlayer2Win(old(GState())).value
    {
      if p2Win == true {
        p2Win := false;
        return true;
      }
      return false;
    }

    /** Game.setPlayer1Win. */
    method SetPlayer1Win(b: bool)
      modifies this
      ensures GState() == old(GState()).(p1Win := b)
    {
      p1Win := b;
    }

    /** Game.setPlayer2Win. */
    method SetPlayer2Win(b: bool)
      modifies this
      ensures GState() == old(GState()).(p2Win := b)
    {
      p2Win := b;
    }
  }
}
