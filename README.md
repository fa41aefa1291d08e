# Chess variant engine: move legality and game state

A Dafny model of the engine of a two-player chess variant on an 8 x 8 board.
Besides Pawn, Knight, Bishop, Rook, Queen and King it has two extra pieces:

- the High Templar gathers energy and can cast a column "storm";
- the Ghost steps next to enemies and "snipes" enemy High Templars.

The model covers:

- the engine's data: board cells (`Space`), pieces, players with their roster
  and graveyard, and the `Board`;
- how every piece kind computes its move list;
- the piece moves, with their capture marks;
- the `Board` transactions `movePiece`, `setCapturedPiece`, `updateBoard` and
  `setUpGame`;
- the single-slot undo history (`CommandManager`, `MoveCommand`);
- the `Game` operations: `playerMove`, `isInCheck`, `checkCheckmate`,
  `checkStalemate`, `resetGame`, the roster lookups and the win flags.

How the model is built:

- **One piece table.** In Java a piece object is shared by a board cell, a
  roster or graveyard, and an undo memento. Here every piece lives in one
  table and is named by its index, its *id*. A cell holds `Option<nat>` and a
  roster holds a `seq<nat>`, so Java reference identity becomes id equality.
- **Pure layer.** The behaviour is stated as pure functions, which follow the
  Java code branch by branch, including the order of placements and list
  rebuilds:
  - `Model`: the vocabulary, and the `World` value (grid, piece table,
    rosters, graveyards);
  - `MoveGen`: move-list generation;
  - `Engine`: piece and board transitions;
  - `GameModel`: the `Game` layer and its `GameState`.
- **Null dereferences.** Within the modelled calls, Java would throw a
  `NullPointerException` in four places:
  - the Ghost generator's `isEnemy(null)` and `getType()` on an empty cell;
  - `isInCheck` without a King;
  - `Ghost.move` sniping an empty target: `setAlive(false)` on a null occupant
    (src/chess/pieces/Ghost.java:33-37), the `threw` outcome of
    `Engine.GhostMove`. This one cannot be reached. `move` rebuilds the list just
    before, and by `MoveGenProps.GhostExact` a Ghost on its own cell lists only
    interior enemy neighbours (its snipe scans start on its own cell and stop
    there, `MoveGenProps.SnipesSilent`), so no listed cell is in snipe range.
    This follows from those two lemmas; no single lemma states it.

  Each is an explicit outcome flag `threw`. The state is the one at the throw,
  and callers pass the flag on. The null cells a `Board.reset` leaves outside a
  small board are the one exception (see "Left out", `Engine.Reset`).
- **Imperative layer.** Every class whose fields Java updates in place is a
  Dafny `class`:
  - `Spaces.Space`, modelled on its own. `Boards.Board` does not use it: its
    array folds each `Space` into an `Option` of a piece id, and its own
    `SetSpace` writes that cell;
  - `Players.Player`, whose roster and graveyard are `seq` fields;
  - `Boards.Board`, over an `array2` of cells;
  - `Games.Game` and `Games.CommandManager`.

  Each method's `ensures` ties the new abstract state, and any returned flags,
  to the pure function of the same name. The loops (`canMoveTo`, the
  generators, `clearBoard`, `updateBoard`, the `setUpGame` scans, the
  `isInCheck` and `checkCheckmate` loops, `checkStalemate`) carry the
  invariants that prove this.
- **Property modules.** `MoveGenProps`, `EngineProps` and `GameModelProps`
  prove what the code promises about those functions.

## Code versus its own comments

Where the code and its doc comments differ, the model follows the code.
Some further behaviour of the code is worth knowing when reading the model.

- The doc comment of `HighTemplar.move` (`src/chess/pieces/HighTemplar.java:24-28`)
  says the storm needs an enemy 3 or 4 spaces ahead or behind and "enough
  energy". In the code (`HighTemplar.java:43-45`) the energy, after the
  increment, must be above 3, and the fourth alternative compares `y` with
  `x - 4`.
- The same comment says the storm captures the enemy and the piece behind it.
  `HighTemplar.move` (`HighTemplar.java:46-59`) marks dead only the two cells
  beside the target, and returns without moving the Templar. The target itself
  dies through `Board.movePiece` (`Board.java:214-218`), whose storm test (with
  `y - 4`) reads the Templar's position after the move.
- The doc comment of `Board.setCapturedPiece` (`Board.java:189-190`) says it
  moves the piece from the roster to the graveyard. That is the only way a
  piece leaves its roster: a piece's own `move` only marks its capture dead
  (the roster removals in `HighTemplar.move` are commented out). The piece
  goes to the graveyard of its own colour's player.
- The doc comment of `Game.checkCheckmate` (`Game.java:63-64`) says it checks
  that the King has no more moves. The loop (`Game.java:70-87`) never probes
  King moves, and captures made during its probing moves stay made.
- `Board.updateBoard` (`Board.java:246-254`) places each roster piece and
  rebuilds its list at once. So every piece of `player[0]` gets its list on a
  grid that holds none of `player[1]`'s pieces, and a King of `player[0]`
  consults the enemy lists left from before the call
  (`EngineProps.UpdateBoardLists`, `EngineProps.FirstPassGrid`).
- The white pawn's bound test (`Pawn.java:97`) is `y - 1 <= 0`.
- A black pawn on its first move from row 6 lists (x, 8) (`Pawn.java:78-81`),
  because an off-board `getPiece` reads as empty.

## Model

| member | source | states |
|---|---|---|
| Spaces.Space.constructor | src/chess/Space.java:18-20 | the new cell holds exactly the piece passed, possibly none |
| Spaces.Space.AddPiece | src/chess/Space.java:26-29 | a piece replaces any occupant without rejection; none leaves the occupant unchanged |
| Spaces.Space.RemovePiece | src/chess/Space.java:34-36 | the cell is empty afterwards |
| Spaces.Space.GetPiece | src/chess/Space.java:42-44 | returns the occupant and changes nothing |
| Model.NewPiece | src/chess/pieces/Piece.java:34-40 | a new piece is alive at (x, y) with an empty list; a new Pawn has its first move, a new High Templar zero energy |
| Model.EnemyRelation | src/chess/pieces/Piece.java:129-131 | isEnemy holds exactly when the colours differ; it is irreflexive and symmetric |
| Pieces.CanMoveTo | src/chess/pieces/Piece.java:97-105 | true exactly when some list entry equals (x, y), which is also isInMoveList |
| Model.GetMove | src/chess/pieces/Piece.java:205-210 | none exactly outside 0..size-1, otherwise the list's entry at that index |
| Model.PlayerOf | src/chess/Game.java:223-229 | findPlayer finds, for each colour, the one player index of that colour |
| Model.GetPiece | src/chess/Board.java:156-163 | none off the width x height area; otherwise the cell's occupant, an id of the table |
| Players.Player.constructor | src/chess/Player.java:23-27 | the colour is fixed, roster and graveyard empty |
| Players.Player.AddToRoster | src/chess/Player.java:34-37 | a piece of the player's colour is appended, any other ignored; the graveyard stays |
| Players.Player.IndexOf | src/chess/Player.java:44-46 | the position of the first occurrence, or the size when there is none |
| Players.Player.RemoveFromTeam | src/chess/Player.java:44-46 | the roster loses its first occurrence of the piece, if any; the graveyard stays |
| Players.SplitAtFirst | src/chess/Player.java:44-46 | cutting the roster around the first occurrence is the same as removing that occurrence |
| Players.Player.GetCaptured | src/chess/Player.java:53-59 | the graveyard gains one entry per roster occurrence of the piece, then its first occurrence leaves the roster |
| Players.Player.ClearTeam | src/chess/Player.java:64-66 | roster empty, graveyard untouched |
| Players.Player.GetFromRoster | src/chess/Player.java:74-79 | none exactly outside 0..size-1, the index-th id otherwise |
| Players.Player.GetRosterSize | src/chess/Player.java:85-87 | the roster's length |
| EngineProps.RemoveFirstExact | src/chess/Player.java:44-46 | ArrayList.remove(Object) drops exactly the first occurrence |
| Model.RemoveFirst | src/chess/Player.java:44-46 | ArrayList.remove(Object): an absent id leaves the roster as it is; a present one shortens it by one; no id is added |
| EngineProps.RemoveFirstMultiset | src/chess/Player.java:44-46 | as a multiset the roster loses one copy of the piece |
| EngineProps.MatchesCount | src/chess/Player.java:53-57 | getCaptured's loop adds as many entries as the roster holds copies |
| Model.Matches | src/chess/Player.java:53-57 | getCaptured's loop: only copies of the piece, at most one per roster entry, none exactly when the roster lacks it |
| EngineProps.MatchesOnce | src/chess/Player.java:53-59 | a piece held once is buried once and is gone from the roster afterwards |
| MoveGen.Ray | src/chess/pieces/Bishop.java:50-70 | the recursive walk lists at most as many cells as remain on the board in its direction, so it terminates |
| MoveGen.Rays | src/chess/pieces/Bishop.java:31-37 | the calls of updateMoveList in order, each at most 8 cells; cells stated by MoveGenProps.RaysMember and MoveGenProps.RaysLine |
| MoveGen.Opens | src/chess/pieces/Knight.java:32-42 | the one-cell calls in order, at most one cell per offset; cells stated by MoveGenProps.OpensMember |
| MoveGen.BishopMoves | src/chess/pieces/Bishop.java:31-37 | four rays, at most 32 cells |
| MoveGen.RookMoves | src/chess/pieces/Rook.java:33-39 | four rays, at most 32 cells |
| MoveGen.QueenMoves | src/chess/pieces/Queen.java:32-42 | eight rays, at most 64 cells |
| MoveGen.KnightMoves | src/chess/pieces/Knight.java:32-42 | at most 8 cells |
| MoveGen.TemplarMoves | src/chess/pieces/HighTemplar.java:78-92 | at most 12 cells |
| MoveGen.KingMoves | src/chess/pieces/King.java:37-47 | at most 8 cells |
| MoveGen.KingCells | src/chess/pieces/King.java:37-47 | the King's calls in order, at most one cell per offset; cells stated by MoveGenProps.KingCellsMember |
| MoveGen.Scan | src/chess/pieces/Ghost.java:95-136 | a snipe scan lists at most MAX_RANGE - 1 = 4 cells |
| MoveGen.GhostCall | src/chess/pieces/Ghost.java:89-143 | one Ghost call lists at most 4 cells |
| MoveGen.GhostPrefix | src/chess/pieces/Ghost.java:57-75 | the first n Ghost calls list at most 4n cells |
| MoveGen.GhostProbeAt | src/chess/pieces/Ghost.java:59-74 | no contract of its own: the k-th call of updateMoveList, with its cell and direction (see MoveGenProps.GhostExact) |
| MoveGen.GhostMoves | src/chess/pieces/Ghost.java:57-75 | no contract of its own: the sixteen calls (see MoveGenProps.GhostExact and MoveGen.GhostPrefix) |
| MoveGen.Generate | src/chess/pieces/Piece.java:112 | every rebuilt list has at most 64 entries, and only the Ghost's rebuild can fault |
| MoveGenProps.RayCells | src/chess/pieces/Bishop.java:57-68 | the k-th listed cell of a ray is the k-th cell of its line from the start cell |
| MoveGenProps.RaySafe | src/chess/pieces/Bishop.java:52-56 | every listed cell is on the board and not held by an ally |
| MoveGenProps.RayThroughVacant | src/chess/pieces/Bishop.java:59 | every listed cell but the last is empty: the walk only goes on past an empty cell |
| MoveGenProps.RayStop | src/chess/pieces/Bishop.java:52-59 | the walk stopped on an enemy it listed last, or because the next cell is off the board or an ally's |
| MoveGenProps.RayShape | src/chess/pieces/Queen.java:55-82 | the four ray facts together: line, safety, through empty cells only, stop rule |
| MoveGenProps.RayOnLine | src/chess/pieces/Queen.java:62-80 | a listed cell is 1 to 8 steps from the piece along the ray |
| MoveGenProps.RaysMember | src/chess/pieces/Queen.java:32-42 | a cell is listed by a sequence of rays exactly when one of those rays lists it |
| MoveGenProps.RaysAppend | src/chess/pieces/Queen.java:34-41 | walking directions a then b lists what walking a and then b lists |
| MoveGenProps.RaysLine | src/chess/pieces/Queen.java:55-82 | whatever the rays list lies on one of their lines, on the board and off allies |
| MoveGenProps.BishopDiagonals | src/chess/pieces/Bishop.java:31-70 | every Bishop cell is on a diagonal through it, on the board, not its own square and not an ally's |
| MoveGenProps.RookLines | src/chess/pieces/Rook.java:33-69 | every Rook cell shares its row or column, on the board, not its own square and not an ally's |
| MoveGenProps.QueenIsBishopThenRook | src/chess/pieces/Queen.java:32-42 | the Queen's list is the Bishop's list followed by the Rook's from the same square |
| MoveGenProps.QueenLines | src/chess/pieces/Queen.java:55-82 | every Queen cell is on a row, column or diagonal through it, on the board and not an ally's |
| MoveGenProps.OpensMember | src/chess/pieces/Knight.java:55-62 | a one-cell call lists a cell exactly when it is one of the offsets, on the board and not ally-held |
| MoveGenProps.OpensOffsets | src/chess/pieces/Knight.java:55-62 | the same stated with the cell's offset looked up in the table |
| MoveGenProps.OpensDistinct | src/chess/pieces/Knight.java:32-42 | distinct offsets give a list without duplicates |
| MoveGenProps.KnightTable | src/chess/pieces/Knight.java:34-41 | the eight offsets are exactly the L jumps, each once |
| MoveGenProps.KnightExact | src/chess/pieces/Knight.java:55-62 | a cell is listed exactly when it is an L jump away, on the board, and empty or enemy-held |
| MoveGenProps.KnightDistinct | src/chess/pieces/Knight.java:32-42 | at most 8 entries, none twice |
| MoveGenProps.KingTable | src/chess/pieces/King.java:39-46 | the eight offsets are exactly the neighbours, each once |
| MoveGenProps.KingCellsMember | src/chess/pieces/King.java:59-76 | a King call lists a cell exactly when it is its neighbour, on the board, not ally-held and in no enemy list |
| MoveGenProps.KingExact | src/chess/pieces/King.java:37-76 | a cell is listed exactly when it is adjacent, on the board, not ally-held, and in no stored list of an enemy roster piece |
| MoveGenProps.KingCellsDistinct | src/chess/pieces/King.java:37-47 | distinct offsets give a King list without duplicates |
| MoveGenProps.KingDistinct | src/chess/pieces/King.java:37-47 | at most 8 entries, none twice |
| MoveGenProps.EnemyPlayer | src/chess/pieces/King.java:68-71 | the players' loop skips exactly the King's own player |
| MoveGenProps.IntoCheckExact | src/chess/pieces/King.java:86-96 | movesIntoCheck holds exactly when a piece of the other roster has the cell in its stored list |
| MoveGen.IntoCheck | src/chess/pieces/King.java:68-72 | no contract of its own: some player of the other colour lists the cell (see MoveGenProps.IntoCheckExact) |
| MoveGenProps.KingCaptures | src/chess/pieces/King.java:63-74 | an adjacent enemy whose cell no enemy list holds is listed, as a capture |
| MoveGenProps.KingIgnoresOutsiders | src/chess/pieces/King.java:87-88 | a piece outside both rosters may hold any list without changing the King's list |
| MoveGenProps.TemplarTable | src/chess/pieces/HighTemplar.java:80-91 | the twelve offsets are the neighbours and the cells 3 and 4 rows away in the column, each once |
| MoveGenProps.TemplarExact | src/chess/pieces/HighTemplar.java:78-113 | a cell is listed exactly when it is one of the twelve, on the board and not ally-held; no duplicates; energy plays no part |
| MoveGenProps.PawnExact | src/chess/pieces/Pawn.java:73-119 | past the bound test nothing is listed; otherwise exactly the double step (first move, both cells empty), the single step (cell empty) and the enemy-held forward diagonals |
| MoveGen.PawnAdvance | src/chess/pieces/Pawn.java:78-94 | no contract of its own: the four forward tests in order (see MoveGenProps.PawnExact) |
| MoveGen.PawnMoves | src/chess/pieces/Pawn.java:73-119 | no contract of its own: the bound test as written, then PawnAdvance (see MoveGenProps.PawnExact and MoveGenProps.PawnBounds) |
| MoveGenProps.PawnDirection | src/chess/pieces/Pawn.java:73-119 | black advances toward +y, white toward -y, by one row, or by two only on the first move in its column |
| MoveGenProps.PawnBlockedAhead | src/chess/pieces/Pawn.java:84-85 | an occupant of either colour ahead blocks both straight steps |
| MoveGenProps.PawnBounds | src/chess/pieces/Pawn.java:75-76 | a black pawn on row 7 or beyond, or a white pawn on row 1 or below, lists nothing |
| MoveGenProps.BlackPawnLeavesBoard | src/chess/pieces/Pawn.java:78-81 | a black first-move pawn on row 6 with (x, 7) empty lists (x, 8), a cell off the board |
| MoveGenProps.ScanHits | src/chess/pieces/Ghost.java:95-136 | a snipe scan lists only cells 1 to 4 away in its direction that hold an enemy High Templar |
| MoveGenProps.SnipesSilent | src/chess/pieces/Ghost.java:67-74 | the eight snipe calls start on the Ghost's own cell; when an ally stands there or it is outside 1..6 they neither list nor throw |
| MoveGenProps.AdjacentProbe | src/chess/pieces/Ghost.java:89-93 | one adjacent check throws on an empty interior cell and lists exactly an interior enemy |
| MoveGenProps.AdjacentPrefix | src/chess/pieces/Ghost.java:59-66 | the first n adjacent checks throw exactly when one meets an empty interior cell, and otherwise list exactly the interior enemy neighbours |
| MoveGenProps.SilentTail | src/chess/pieces/Ghost.java:67-74 | with silent snipe calls the last eight calls change nothing |
| MoveGenProps.GhostExact | src/chess/pieces/Ghost.java:57-75 | with its own cell ally-held, as when it stands there, the Ghost throws exactly when an interior neighbour is empty, and otherwise lists exactly the interior enemy neighbours |
| MoveGenProps.GenerateFrame | src/chess/pieces/Pawn.java:56-59 | a rebuilt list depends only on the grid, colours and kinds, the piece's square and flag, and for a King the enemy lists, never on its own old list |
| MoveGenProps.RayFrame | src/chess/pieces/Bishop.java:50-70 | a ray reads only the grid and colours |
| MoveGenProps.PawnFrame | src/chess/pieces/Pawn.java:73-119 | a pawn's list reads only the grid, colours, its square and its first-move flag |
| Engine.AddPiece | src/chess/Board.java:170-174 | only the grid changes, its dimensions kept |
| EngineProps.AddPieceExact | src/chess/Board.java:170-174 | the piece goes to its own in-area cell and no other cell changes; off the area nothing happens |
| Engine.RemovePiece | src/chess/Board.java:182-186 | only the grid changes, its dimensions kept |
| EngineProps.RemovePieceExact | src/chess/Board.java:182-186 | an in-area cell is emptied and no other changes; off the area nothing happens |
| Engine.ClearBoard | src/chess/Board.java:122-128 | only the grid changes, its dimensions kept |
| EngineProps.ClearBoardEmpty | src/chess/Board.java:122-128 | every cell reads as empty afterwards |
| Engine.Reset | src/chess/Board.java:133-137 | pieces, players, width and height kept |
| EngineProps.ResetEmpty | src/chess/Board.java:133-137 | every cell empty and the array 8 x 8 |
| Engine.UpdateMoveList | src/chess/pieces/Pawn.java:56-59 | only that piece's move list changes; the value is false exactly on a fault |
| EngineProps.UpdateMoveListForgets | src/chess/pieces/Pawn.java:56-59 | the list is cleared first: whatever it held before, the rebuild is the generator's output |
| Engine.SetLocation | src/chess/pieces/Piece.java:56-62 | no other piece, cell or list of players changes |
| EngineProps.SetLocationExact | src/chess/pieces/Piece.java:56-62 | an on-board target moves the piece and rebuilds its list on the moved board; otherwise nothing happens |
| Engine.Move | src/chess/pieces/Piece.java:73-88 | grid and players untouched; success implies no fault |
| EngineProps.MoveRecomputes | src/chess/pieces/Piece.java:73-75 | the list is always rebuilt first; a fault ends the move there; the rebuilt list is what remains |
| EngineProps.MoveRefused | src/chess/pieces/Piece.java:73-88 | a destination the rebuilt list lacks is refused, the piece stays, no other piece changes; a High Templar still gains energy |
| Engine.BaseMove | src/chess/pieces/Piece.java:75-87 | grid, players and the piece's list untouched; never faults |
| Engine.Kill | src/chess/pieces/Piece.java:46-48 | setAlive(false): that piece is dead and nothing else of it or of any other piece changes; grid and players untouched |
| Engine.Revive | src/chess/Game.java:466 | setAlive(true): that piece is alive and nothing else of it or of any other piece changes; grid and players untouched |
| Engine.SetFirstMove | src/chess/pieces/Pawn.java:125-127 | the flag takes the given value and nothing else of it or of any other piece changes |
| Engine.Relocate | src/chess/pieces/Piece.java:83 | coordinate.setLocation: the piece is at (x, y) with no bounds test and no list update; no other piece, cell or roster changes |
| EngineProps.BaseMoveTakes | src/chess/pieces/Piece.java:75-84 | a listed cell: the piece moves there, an enemy occupant is marked dead, nothing else changes, an ally is never marked |
| Engine.PawnMove | src/chess/pieces/Pawn.java:40-49 | grid, players and the pawn's list untouched; never faults |
| EngineProps.PawnMoveTakes | src/chess/pieces/Pawn.java:40-49 | a listed cell: first move spent, the pawn moves, no piece marked |
| Engine.TemplarMove | src/chess/pieces/HighTemplar.java:35-70 | grid and players untouched; never faults |
| Engine.StormReady | src/chess/pieces/HighTemplar.java:43-45 | no contract of its own: the storm test as written, with `x - 4` (see EngineProps.TemplarMoveExact) |
| EngineProps.TemplarKeepsList | src/chess/pieces/HighTemplar.java:35-70 | no part of the move rewrites the Templar's rebuilt list |
| EngineProps.TemplarMoveExact | src/chess/pieces/HighTemplar.java:35-70 | energy rises on every call; an unlisted cell is refused; a storm resets energy, kills the cells above and below whatever their colour and leaves the Templar in place; any other listed cell moves it and marks nobody |
| Engine.Storm | src/chess/pieces/HighTemplar.java:47-59 | only the pieces change |
| Engine.KillAt | src/chess/pieces/HighTemplar.java:49-50 | the occupant of (x, y), if any, is dead; every other piece is unchanged and no piece changes but in liveness |
| EngineProps.StormPieces | src/chess/pieces/HighTemplar.java:47-59 | exactly the occupants of (x, y + 1) and (x, y - 1), behind their bound tests, are marked dead |
| Engine.SnipeRangeExact | src/chess/pieces/Ghost.java:33-36 | the snipe test as written equals its first two alternatives |
| Engine.GhostMove | src/chess/pieces/Ghost.java:28-49 | grid, players and the Ghost's list untouched; success implies no fault |
| EngineProps.GhostMoveExact | src/chess/pieces/Ghost.java:28-49 | unlisted: refused; listed two or more away: the occupant dies (an empty target throws) and the Ghost stays; a listed neighbour: the Ghost moves and an enemy occupant dies |
| Engine.AddToRoster | src/chess/Player.java:34-37 | only the rosters change |
| EngineProps.AddToRosterExact | src/chess/Player.java:34-37 | a piece of player i's colour is appended to roster i; any other leaves the board unchanged |
| Engine.ClearTeams | src/chess/Game.java:147-150 | only the rosters change; graveyards stay |
| Engine.RemoveFromRoster | src/chess/Player.java:44-46 | only the rosters change, never growing |
| Engine.GetCaptured | src/chess/Player.java:53-59 | only rosters and graveyards change; rosters never grow |
| EngineProps.GetCapturedExact | src/chess/Player.java:53-59 | a non-member changes nothing; a piece held once goes to the graveyard and leaves the roster |
| Engine.SetCaptured | src/chess/Board.java:194-202 | the grid stays; rosters never grow |
| EngineProps.SetCapturedExact | src/chess/Board.java:194-202 | the owner's getCaptured, then the piece is marked dead; no other piece or player changes |
| Engine.CaptureIf | src/chess/Board.java:217-226 | the grid stays; rosters never grow |
| Engine.Rebuild | src/chess/Board.java:248-253 | rosters, graveyards and dimensions stay; the value is false exactly on a fault |
| Engine.UpdateBoard | src/chess/Board.java:246-254 | rosters, graveyards and dimensions stay; the value is false exactly on a fault; the rebuilt grid and lists are stated by EngineProps.UpdateBoardExact and EngineProps.UpdateBoardLists |
| EngineProps.UpdateBoardExact | src/chess/Board.java:246-254 | only move lists change; without a fault the area holds exactly the roster pieces lying in it, each on its own cell |
| EngineProps.PlaceAll | src/chess/Board.java:250 | the roster pieces placed in turn by addPiece; pieces, rosters, graveyards and dimensions kept |
| EngineProps.PlaceAllHolds | src/chess/Board.java:247-250 | on a cleared area, every occupied cell after the placements holds one of the placed pieces |
| EngineProps.Stage | src/chess/Board.java:248-253 | the board before the loop's n-th visit; rosters, graveyards, dimensions and the piece count kept |
| EngineProps.Visit | src/chess/Board.java:250-251 | one visit (place, then rebuild the list) leads to the next stage |
| EngineProps.VisitFrame | src/chess/Board.java:250-251 | a visit gives the visited piece the list its generator computes on the grid with it just placed, and changes no other piece and nothing of it but the list |
| EngineProps.RebuildAtZero | src/chess/Board.java:248-249 | entry 0 is roster position (0, 0), or (1, 0) when player[0]'s roster is empty |
| EngineProps.RebuildSkip | src/chess/Board.java:248-249 | an empty roster of player[0] hands the loop straight to player[1] |
| EngineProps.RebuildAtStart | src/chess/Board.java:248-249 | the loop from the start is the loop from the first entry, also with an empty first roster |
| EngineProps.RebuildAtNext | src/chess/Board.java:248-253 | each visit hands the loop on to the next entry, crossing from player[0] to player[1], or ends it with its fault |
| EngineProps.RebuildStage | src/chess/Board.java:248-253 | while no visit faults, the loop from the start equals the loop from entry n |
| EngineProps.VisitsClean | src/chess/Board.java:248-253 | a loop without a fault faults at no visit |
| EngineProps.RebuildEnds | src/chess/Board.java:248-254 | a loop without a fault ends on the stage after the last entry |
| EngineProps.RebuildAtEnd | src/chess/Board.java:248-254 | past the last entry the loop stops without a fault on the board it has |
| EngineProps.StageKeeps | src/chess/Board.java:248-253 | a piece not visited between two stages keeps its whole record |
| EngineProps.StageListsOnly | src/chess/Board.java:248-253 | every stage differs from the start only in move lists |
| EngineProps.PlaceNextCells | src/chess/Board.java:250 | placing entry n on stage n gives the grid of the entries up to n placed in order |
| EngineProps.StageCells | src/chess/Board.java:248-253 | the grid at stage n is that of the entries before n placed in visit order |
| EngineProps.RostersApart | src/chess/Player.java:34-36 | no piece is in both rosters, as each holds pieces of its own colour |
| EngineProps.IntoCheckSame | src/chess/pieces/King.java:86-93 | a King's check test reads only the stored lists of the other roster |
| EngineProps.FinalList | src/chess/Board.java:248-253 | a roster piece leaves the loop with the list computed at its last visit, on the grid of the entries up to that visit |
| EngineProps.SameBoardAt | src/chess/Board.java:248-253 | that grid and the stage board agree on everything a generator reads but stored lists |
| EngineProps.ListAt | src/chess/Board.java:248-253 | the list of each last visit is what ListRebuilt describes |
| EngineProps.UpdateBoardLists | src/chess/Board.java:246-254 | without a fault every roster piece ends with its generator's list on the cleared grid holding just the roster entries up to its own last visit (player[0] first); a King of player[0] reads the enemy lists from before the call, one of player[1] the rebuilt ones |
| EngineProps.FirstPassGrid | src/chess/Board.java:248-253 | while player[0]'s roster is rebuilt, the grid holds pieces of that roster only |
| EngineProps.RebuildStep | src/chess/Board.java:250-251 | one round places the piece on its cell and rebuilds its list, keeping the grid honest |
| EngineProps.RebuildGrid | src/chess/Board.java:248-253 | the loop from any round on ends with an honest grid covering the placed pieces |
| EngineProps.GridFrame | src/chess/Board.java:251 | rebuilding lists on a fixed grid and rosters keeps the grid honest |
| Engine.MovePiece | src/chess/Board.java:211-240 | dimensions kept; rosters never grow; success implies no fault |
| Engine.Captures | src/chess/Board.java:214-233 | the grid stays; rosters never grow |
| Engine.StormRow | src/chess/Board.java:214-216 | no contract of its own: the movePiece storm test on the post-move position (see EngineProps.MovePieceStorm) |
| EngineProps.MovePieceRefused | src/chess/Board.java:211-239 | no piece, or a cell the rebuilt list lacks: false, grid, rosters and graveyards unchanged, the piece in place |
| EngineProps.MovePieceCaptures | src/chess/Board.java:212-233 | on success the destination's former occupant is dead, in its owner's graveyard if its roster held it, and off a roster that held it once |
| EngineProps.MovePieceRebuilds | src/chess/Board.java:228-236 | on success the rebuilt area holds exactly the remaining roster pieces lying in it, and every remaining roster piece ends with the list updateBoard's loop rebuilt for it on the board after the captures (EngineProps.ListRebuilt) |
| EngineProps.MovePieceStorm | src/chess/Board.java:214-228 | after a storm the pieces above and below the target are dead as well, have gone to their owner's graveyard if its roster held them, and have left a roster that held them once |
| EngineProps.CaptureTracks | src/chess/Board.java:194-201 | one setCapturedPiece keeps every rostered or buried piece rostered or buried, never adds roster copies, and buries its own piece, taking its last roster copy |
| EngineProps.StormBuries | src/chess/Board.java:220-228 | the two storm captures and the rebuild bury a side casualty held by its roster and take its last roster copy |
| EngineProps.StormKills | src/chess/Board.java:220-228 | the two storm captures followed by the rebuild leave their pieces dead |
| EngineProps.MovePieceDecays | src/chess/Board.java:211-240 | colours and kinds are kept, no dead piece revives, rosters only lose and graveyards only gain entries |
| EngineProps.MoveDecays | src/chess/pieces/Piece.java:73-88 | a move keeps colours and kinds and revives nobody |
| EngineProps.UpdateBoardDecays | src/chess/Board.java:246-254 | the rebuild keeps colours and kinds and revives nobody |
| Engine.PawnPlan | src/chess/Board.java:56-66 | a pawn of the given colour in every column of the row |
| Engine.BackRowPlan | src/chess/Board.java:74-86 | every placement has the row's colour and row |
| Engine.SetupPlan | src/chess/Board.java:142-145 | 32 placements, all on the board |
| Engine.Put | src/chess/Board.java:75 | the new piece joins the table and its cell; no other cell changes |
| Engine.Place | src/chess/Board.java:56-86 | the new pieces join the table in creation order; nothing but the grid and table changes |
| EngineProps.PlaceCell | src/chess/Board.java:56-86 | each placement's cell holds the piece it created |
| EngineProps.PlaceCells | src/chess/Board.java:56-86 | a cell no placement names is untouched |
| EngineProps.BackRowSlots | src/chess/Board.java:74-86 | the back-row placements are Rook, Knight, Bishop, Bishop, Knight, Rook, Queen, King on their columns |
| EngineProps.SetupSlots | src/chess/Board.java:56-86 | each placement agrees with the standard array |
| EngineProps.SetupCells | src/chess/Board.java:56-86 | the placements target exactly the occupied cells of the standard array, each once |
| Engine.JoinTeam | src/chess/Board.java:108-111 | only the rosters change |
| EngineProps.JoinTeamExact | src/chess/Board.java:108-111 | a black piece found on rows 0-1 joins player[1], a white one on rows 6-7 player[0]; no roster member is lost |
| Engine.TeamLists | src/chess/Board.java:103-117 | the grid, graveyards and dimensions stay; the value is false exactly on a fault |
| EngineProps.TeamListsExact | src/chess/Board.java:103-117 | only move lists and rosters change, no roster member is lost, every piece found joins its row's player; with no Ghost on a cell still to visit nothing faults |
| Engine.SetUpGame | src/chess/Board.java:142-147 | dimensions kept; the table only grows |
| EngineProps.SetUpGameLayout | src/chess/Board.java:142-147 | on a cleared 8 x 8 board: no fault, and every cell holds what the standard array says, as a fresh piece on its player's roster |
| Boards.Board.constructor | src/chess/Board.java:24-30 | an 8 x 8 array of empty cells (each cell folds its `Space` into an `Option` of a piece id), no pieces, empty players |
| Boards.Board.Sized | src/chess/Board.java:38-51 | the given size when both sides are at least 4, otherwise 4 x 4; every Space empty |
| Boards.Board.GetPiece | src/chess/Board.java:156-163 | the abstract getPiece of the board |
| Boards.Board.AddPiece | src/chess/Board.java:170-174 | the new board is Engine.AddPiece of the old |
| Boards.Board.RemovePiece | src/chess/Board.java:182-186 | the new board is Engine.RemovePiece of the old |
| Boards.Board.ClearBoard | src/chess/Board.java:122-128 | the column-by-column loop yields Engine.ClearBoard |
| Boards.Board.Reset | src/chess/Board.java:133-137 | a fresh array, the new board Engine.Reset of the old |
| Boards.Board.IsAlly | src/chess/pieces/Bishop.java:54-55 | the ally test through getPiece and isEnemy |
| Boards.Board.IsEnemyAt | src/chess/pieces/Pawn.java:88-89 | the enemy test through getPiece and isEnemy |
| Boards.Board.RayCells | src/chess/pieces/Bishop.java:50-70 | the recursive calculateMoveList lists MoveGen.Ray |
| Boards.Board.RaysCells | src/chess/pieces/Queen.java:32-42 | the calls of one updateMoveList list MoveGen.Rays |
| Boards.Board.OpenCells | src/chess/pieces/Knight.java:32-62 | the Knight and Templar loop lists MoveGen.Opens |
| Boards.Board.MovesIntoCheck | src/chess/pieces/King.java:86-96 | the nested loop answers whether a roster piece of the colour lists the cell |
| Boards.Board.KingCellAt | src/chess/pieces/King.java:59-76 | one King call lists MoveGen.KingCell |
| Boards.Board.KingCellsAt | src/chess/pieces/King.java:37-47 | the King's calls list MoveGen.KingCells |
| Boards.Board.PawnAdvanceCells | src/chess/pieces/Pawn.java:78-95 | the four forward tests list MoveGen.PawnAdvance |
| Boards.Board.PawnList | src/chess/pieces/Pawn.java:73-119 | the bound test, then the forward tests, list MoveGen.PawnMoves |
| Boards.Board.ScanCells | src/chess/pieces/Ghost.java:95-136 | the snipe loop yields MoveGen.Scan, fault included |
| Boards.Board.GhostCallCells | src/chess/pieces/Ghost.java:89-143 | one Ghost call yields MoveGen.GhostCall |
| Boards.Board.GhostList | src/chess/pieces/Ghost.java:57-75 | the sixteen calls yield MoveGen.GhostMoves |
| Boards.Board.GenerateList | src/chess/pieces/Piece.java:112 | the override of the piece's kind yields MoveGen.Generate |
| Boards.Board.UpdateMoveList | src/chess/pieces/Pawn.java:56-59 | the new board and result are Engine.UpdateMoveList's |
| Boards.Board.SetLocation | src/chess/pieces/Piece.java:56-62 | the new board and result are Engine.SetLocation's |
| Boards.Board.SetAlive | src/chess/pieces/Piece.java:46-48 | only the piece's liveness changes |
| Boards.Board.SetFirstMove | src/chess/pieces/Pawn.java:125-127 | the new board is Engine.SetFirstMove's |
| Boards.Board.BaseMove | src/chess/pieces/Piece.java:75-87 | the new board and result are Engine.BaseMove's |
| Boards.Board.PawnMove | src/chess/pieces/Pawn.java:42-48 | the new board and result are Engine.PawnMove's |
| Boards.Board.KillAt | src/chess/pieces/Piece.java:76-80 | the new board is Engine.KillAt's |
| Boards.Board.TemplarMove | src/chess/pieces/HighTemplar.java:37-69 | the new board and result are Engine.TemplarMove's |
| Boards.Board.Storm | src/chess/pieces/HighTemplar.java:47-59 | the new board is Engine.Storm's |
| Boards.Board.GhostMove | src/chess/pieces/Ghost.java:30-48 | the new board, result and fault are Engine.GhostMove's |
| Boards.Board.Move | src/chess/pieces/Piece.java:73-88 | the new board, result and fault are Engine.Move's |
| Boards.Board.GetCaptured | src/chess/Player.java:53-59 | the new board is Engine.GetCaptured's |
| Boards.Board.AddToRoster | src/chess/Player.java:34-37 | the new board is Engine.AddToRoster's |
| Boards.Board.RemoveFromRoster | src/chess/Player.java:44-46 | the new board is Engine.RemoveFromRoster's |
| Boards.Board.ClearTeams | src/chess/Game.java:147-150 | the new board is Engine.ClearTeams's |
| Boards.Board.SetCapturedPiece | src/chess/Board.java:194-202 | the new board is Engine.SetCaptured's |
| Boards.Board.CaptureIf | src/chess/Board.java:217-218 | the new board is Engine.CaptureIf's |
| Boards.Board.UpdateBoard | src/chess/Board.java:246-254 | the clear-then-place loop yields Engine.UpdateBoard, fault included |
| Boards.Board.MovePiece | src/chess/Board.java:211-240 | the new board, result and fault are Engine.MovePiece's |
| Boards.Board.CapturesAndRebuild | src/chess/Board.java:217-235 | the captures, then updateBoard |
| Boards.Board.Populate | src/chess/Board.java:56-86 | the populate helpers yield Engine.Place |
| Boards.Board.PutPiece | src/chess/Board.java:75 | one addPiece of a new piece yields Engine.Put |
| Boards.Board.PopulateTeamLists | src/chess/Board.java:103-117 | the nested scan yields Engine.TeamLists, fault included |
| Boards.Board.JoinAndUpdate | src/chess/Board.java:106-113 | one found piece joins its row's team, then its list is rebuilt |
| Boards.Board.SetUpGame | src/chess/Board.java:142-147 | the new board and result are Engine.SetUpGame's |
| Games.CommandManager.constructor | src/chess/CommandManager.java:12 | no command recorded |
| Games.CommandManager.IsUndoAvailable | src/chess/CommandManager.java:27-29 | true exactly when a command is recorded |
| Games.CommandManager.ExecuteCommand | src/chess/CommandManager.java:18-21 | the game becomes GameModel.ExecuteCommand of the old one |
| GameModel.ExecuteCommand | src/chess/CommandManager.java:18-21 | the command runs and then, unless it faulted, is the one recorded; a fault leaves the old record |
| Games.CommandManager.Undo | src/chess/CommandManager.java:34-39 | the game becomes GameModel.Undo of the old one |
| GameModel.Undo | src/chess/CommandManager.java:34-39 | without a fault the slot is empty afterwards |
| GameModelProps.UndoNothing | src/chess/CommandManager.java:34-39 | with nothing recorded undo changes nothing and no undo is available |
| GameModelProps.UndoOnce | src/chess/CommandManager.java:34-39 | undo runs the recorded command's undo once and forgets it, so a second undo is a no-op |
| Games.Game.constructor | src/chess/Game.java:30-40 | the default empty board, no flag raised, player 1 to move, no history |
| GameModel.NewGame | src/chess/Game.java:30-40 | an empty 8 x 8 board with empty players, player 1 to move, every flag false, no command |
| Games.Game.GetRosterSize | src/chess/Game.java:281-288 | the size of the roster of the player of that colour |
| GameModel.RosterSize | src/chess/Game.java:281-288 | the size of the roster of the player of that colour |
| Games.Game.GetPieceFromRoster | src/chess/Game.java:297-303 | getFromRoster on the player of that colour |
| GameModel.PieceFromRoster | src/chess/Game.java:297-303 | none exactly outside 0..size-1, otherwise the index-th roster id |
| Games.Game.GetPieceOfType | src/chess/Game.java:313-322 | the search loop yields GameModel.PieceOfType, the first roster entry of that kind |
| GameModel.FirstOfKindAt | src/chess/Game.java:316-319 | a match at i with no match from j before it is the search's result from j |
| GameModel.PieceOfTypeSearch | src/chess/Game.java:313-322 | getPieceOfType is the search from the roster's start |
| GameModel.PieceOfType | src/chess/Game.java:313-322 | the first roster entry of that kind: an id of that kind at some roster position, with every earlier entry of another kind; none exactly when the roster has no piece of that kind |
| GameModel.FirstOfKind | src/chess/Game.java:316-319 | the first id of that kind at or after position j: a roster id of that kind, with every entry from j before it of another kind; none exactly when there is none |
| Games.Game.GetPlayerColor | src/chess/Game.java:330-335 | the colour of player[index] |
| GameModel.PlayerColorAt | src/chess/Game.java:330-335 | none exactly outside the two indices; otherwise the colour whose player is that index |
| Games.Game.AddToTeam | src/chess/Game.java:257-261 | only the board's rosters change, as GameModel.AddToTeam says |
| GameModel.AddToTeam | src/chess/Game.java:257-261 | only the rosters change |
| Games.Game.RemoveFromTeam | src/chess/Game.java:269-273 | only the board's rosters change, as GameModel.RemoveFromTeam says |
| GameModel.RemoveFromTeam | src/chess/Game.java:269-273 | only the rosters change |
| Games.Game.SetCapturedPiece | src/chess/Game.java:245-249 | the owner's getCaptured, the piece left alive |
| GameModel.GameCaptured | src/chess/Game.java:245-249 | only rosters and graveyards change, the pieces untouched |
| Games.Game.IsInCheck | src/chess/Game.java:119-142 | the game, answer and fault are GameModel.IsInCheck's |
| Games.Game.ScanRoster | src/chess/Game.java:122-138 | one player's pass of the loop, tied to GameModel.CheckScan |
| Games.Game.Examine | src/chess/Game.java:126-135 | one enemy examined, as GameModel.Examine |
| GameModel.CheckScan | src/chess/Game.java:122-141 | only move lists and inCheck change; at the end inCheck equals the answer |
| GameModel.Examine | src/chess/Game.java:126-135 | only move lists change, and inCheck is set on a hit |
| GameModel.IsInCheck | src/chess/Game.java:119-142 | only move lists and inCheck change; without a fault inCheck equals the answer |
| GameModelProps.UpdateSees | src/chess/Game.java:127-132 | the enemy's rebuilt list holds the King's cell exactly when it sees it on the board the scan began with |
| GameModelProps.ExamineAgrees | src/chess/Game.java:126-135 | examining an enemy keeps only enemy lists changed and answers whether it sees the King |
| GameModelProps.CheckScanExact | src/chess/Game.java:122-141 | the scan answers whether some enemy roster entry from that point on sees the King |
| GameModelProps.ThreatAttacked | src/chess/Game.java:122-124 | from the start, the scan looks at exactly the other player's roster |
| GameModelProps.IsInCheckExact | src/chess/Game.java:119-142 | without a King: a null dereference and nothing changes; otherwise, without a fault, true exactly when a piece of the other roster, its list rebuilt, lists the King's cell; only enemy lists change |
| Games.Game.CheckCheckmate | src/chess/Game.java:68-93 | the game, answer and fault are GameModel.CheckCheckmate's |
| Games.Game.ProbeAll | src/chess/Game.java:70-89 | the outer probe loop yields GameModel.Probe |
| Games.Game.TryMoves | src/chess/Game.java:74-85 | the inner probe loop yields GameModel.Try |
| Games.Game.ProbeMove | src/chess/Game.java:77-84 | one probe as GameModel.ProbeMove |
| Games.Game.ProbeBack | src/chess/Game.java:78-84 | the rest of a probe as GameModel.ProbeBack |
| GameModel.Probe | src/chess/Game.java:70-89 | piece count kept; a true answer never comes with a fault |
| GameModel.Try | src/chess/Game.java:74-85 | piece count kept; a true answer never comes with a fault |
| GameModel.ProbeMove | src/chess/Game.java:77-84 | piece count kept; rosters never grow |
| GameModel.ProbeBack | src/chess/Game.java:78-84 | piece count kept; rosters never grow |
| GameModel.CheckCheckmate | src/chess/Game.java:68-93 | piece count kept; a true answer never comes with a fault |
| GameModelProps.CheckmateNeedsCheck | src/chess/Game.java:68-69 | checkmate is true only for a side isInCheck finds in check; out of check it is false after just the isInCheck |
| GameModelProps.ProbeKings | src/chess/Game.java:72 | the probe loop skips Kings, so a roster of Kings alone finds no escape |
| GameModelProps.KingsOnlyCheckmate | src/chess/Game.java:68-93 | with Kings alone, checkmate holds exactly when isInCheck answers true without a fault |
| Games.Game.CheckStalemate | src/chess/Game.java:100-110 | the read-only scan yields GameModel.CheckStalemate |
| GameModelProps.NoMovesExact | src/chess/Game.java:101-107 | the scan from any point finds no move exactly when every later roster entry has an empty list |
| GameModel.NoMoves | src/chess/Game.java:101-107 | no contract of its own: the nested scan (see GameModelProps.NoMovesExact) |
| GameModel.CheckStalemate | src/chess/Game.java:100-110 | no contract of its own: the scan from the start (see GameModelProps.CheckStalemateExact) |
| GameModelProps.CheckStalemateExact | src/chess/Game.java:100-110 | stalemate exactly when every roster piece of both players has an empty list |
| GameModelProps.EmptyRostersStalemate | src/chess/Game.java:100-110 | empty rosters are a stalemate |
| Games.Game.NewCommand | src/chess/Game.java:418-437 | the memento is GameModel.NewCommand |
| GameModel.NewCommand | src/chess/Game.java:418-437 | records the destination occupant, both prior coordinates, the turn and the pawn's first-move flag (false for other kinds) |
| GameModel.NextTurn | src/chess/Game.java:445 | (turn + 1) % 2 is the other player |
| Games.Game.Execute | src/chess/Game.java:444-447 | the game and fault are GameModel.Execute's |
| GameModel.Execute | src/chess/Game.java:444-447 | the turn passes to the other player; piece count kept; true exactly without a fault |
| Games.Game.PlayerMove | src/chess/Game.java:174-180 | the game, answer and fault are GameModel.PlayerMove's |
| GameModel.PlayerMove | src/chess/Game.java:174-180 | a true answer never comes with a fault; a valid recorded command stays valid |
| GameModelProps.PlayerMoveExact | src/chess/Game.java:174-180 | refused, the game untouched, unless the piece is the turn player's colour and lists the cell; otherwise the turn passes, the board is movePiece's and the command is recorded; true exactly when accepted without a fault |
| Games.Game.Restore | src/chess/Game.java:460-462 | as GameModel.Restore |
| GameModel.Restore | src/chess/Game.java:460-462 | only the board changes; false exactly on a fault |
| GameModelProps.RestoreExact | src/chess/Game.java:460-462 | the piece returns to an on-board coordinate, no other piece moves, rosters and graveyards stay, and the rebuilt grid is honest |
| GameModelProps.Relocated | src/chess/pieces/Piece.java:56-59 | only the coordinate changes, and only to an on-board target |
| GameModelProps.Reflagged | src/chess/pieces/Pawn.java:125-127 | only a pawn's first-move flag changes |
| Games.Game.UndoSource | src/chess/Game.java:454-462 | as GameModel.UndoSource |
| GameModel.UndoSource | src/chess/Game.java:454-462 | only the board changes |
| GameModelProps.UndoSourceExact | src/chess/Game.java:454-462 | the source piece gets back its pawn flag and coordinate, nothing else moves, rosters and graveyards stay |
| Games.Game.RestoreCaptured | src/chess/Game.java:465-471 | as GameModel.RestoreCaptured |
| GameModel.RestoreCaptured | src/chess/Game.java:465-471 | only the board changes |
| GameModelProps.RestoreCapturedExact | src/chess/Game.java:465-471 | the captured piece lives again, is appended to its player's roster, returns to its coordinate, and stays in the graveyard |
| Games.Game.UndoCommand | src/chess/Game.java:453-472 | the game and fault are GameModel.UndoCommand's |
| GameModel.UndoCommand | src/chess/Game.java:453-472 | the recorded command is kept and the piece count too |
| GameModelProps.UndoCommandExact | src/chess/Game.java:453-472 | the turn comes back; the source gets its flag and coordinate; a recorded captured piece lives again on its roster and cell; graveyards stay; every other piece, storm victims included, is unchanged but for its list |
| GameModelProps.MoveUndo | src/chess/Game.java:174-180 | an accepted move from an on-board square records an undoable command, and its undo gives back the mover's turn, the piece's cell and pawn flag, and revives a captured piece on its roster and cell |
| GameModelProps.UndoRestores | src/chess/Game.java:453-472 | the same undo from any later game that recorded that command and followed the first one (colours and kinds kept, nobody revived, rosters only losing and graveyards only gaining entries) |
| Games.Game.CanUndo | src/chess/Game.java:186-188 | true exactly when a command is recorded |
| Games.Game.Undo | src/chess/Game.java:193-195 | the game and fault are GameModel.Undo's |
| Games.Game.ResetGame | src/chess/Game.java:156-162 | the game and fault are GameModel.ResetGame's |
| Games.Game.ResetBoard | src/chess/Game.java:158-160 | the board becomes GameModel.ResetBoard of the old one |
| GameModel.ResetGame | src/chess/Game.java:156-162 | the game stays well formed and a valid recorded command stays valid; true exactly without a fault |
| GameModel.ResetBoard | src/chess/Game.java:158-160 | dimensions kept; the table only grows |
| GameModelProps.ResetGameExact | src/chess/Game.java:156-162 | never faults; the standard array on fresh pieces on their players' rosters; player 1 to move, tie and inCheck cleared, win flags and history kept |
| Games.Game.Player1Forfeit | src/chess/Game.java:200-202 | player 2 wins; nothing else changes |
| Games.Game.Player2Forfeit | src/chess/Game.java:207-209 | player 1 wins; nothing else changes |
| Games.Game.ForceTie | src/chess/Game.java:214-216 | tie set; nothing else changes |
| Games.Game.GetPlayer1Win | src/chess/Game.java:357-364 | as GameModel.GetPlayer1Win |
| GameModel.GetPlayer1Win | src/chess/Game.java:357-364 | returns the flag and clears it; nothing else changes |
| Games.Game.GetPlayer2Win | src/chess/Game.java:370-377 | as GameModel.GetPlayer2Win |
| GameModel.GetPlayer2Win | src/chess/Game.java:370-377 | returns the flag and clears it; nothing else changes |
| Games.Game.SetPlayer1Win | src/chess/Game.java:383-385 | only the flag changes |
| Games.Game.SetPlayer2Win | src/chess/Game.java:391-393 | only the flag changes |

## Left out

- The Swing user interface (`ui/View.java`, `ui/Controller.java`) is presentation only.
- The spin-waits of `Game.gameLoop` wait for another thread to change `turn`. That is concurrency, so only the loop's closing assignments are modelled, as `resetGame` reaches them (its `tie` flag skips the body).
- The `Command` interface has no behaviour. `MoveCommand` is a datatype memento.
- The debug `System.out.println` calls in `MoveCommand.undo` are left out.
- `java.awt.Point` is an integer pair with value equality.
- Java's 32-bit `int` is not modelled. Coordinates stay within a few cells of the board. Only a High Templar's `energy` could overflow, after about 2^31 moves.
- A `NullPointerException` is the `threw` outcome, with the state at the throw. Other exceptions are excluded by preconditions:
  - `Board.reset` on a board wider or taller than 8 would index past its new array, so `Engine.Reset` requires both sides to be at most 8;
  - `Board.setUpGame` on an array smaller than 8 x 8 would index out of bounds, so it requires an 8 x 8 array.

  A `Game` always has its 8 x 8 default board.
- Engine.Reset: the cells of the new 8 x 8 array outside width x height are empty in the model, where Java leaves them `null` (`populateWithEmptySpaces` fills only the area). So `setUpGame` after `reset` on a board smaller than 8 x 8 would throw a `NullPointerException` in Java, at its first `addPiece` outside the area, but succeeds in the model. A `Game` only ever has the 8 x 8 board, where no cell is left `null`.
- Boards.Board.Reset: tied to Engine.Reset, so the same limit applies.
- Null pieces are not modelled. `Player.addToRoster(null)` and `Game.addToTeam(color, null)` are never reached from the core with a null piece, so ids are plain `nat`.
- `Game.findPlayer` always finds one of the two players, so its `null` result, the `-1` of `getRosterSize` and the `null` of `getPieceFromRoster` for a missing player do not arise.
- `Game.getInCheck`, `getTurn`, `getNumPlayers` and the piece getters are plain field reads of the modelled state.
- Undo requires the recorded command's ids to name pieces of the table (`LastFits`, `HistoryFits`). This always holds, because ids are never withdrawn.
- `Board.setUpGame`'s helpers are a data-driven list of the 32 placements in the code's order, not three separate loops. Each placement is one `addPiece` of a new piece.
- GameModel.CheckCheckmate: states only that a true answer comes without a fault; the "true exactly when every probe stays in check" reading with non-King allies holds through `GameModel.Probe` and `GameModel.Try`, which follow the Java loops step by step, but has no closed-form lemma of its own, because each probe changes the board through `movePiece` and its revert. It is proved outright for the cases in GameModelProps.CheckmateNeedsCheck and GameModelProps.KingsOnlyCheckmate.
- Games.Game.CheckCheckmate: tied to GameModel.CheckCheckmate, so the same limit applies.
