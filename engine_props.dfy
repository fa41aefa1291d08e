/**
 * What the engine transitions promise: the cell operations, rebuilding a move
 * list, the per-kind moves with their capture marks, the roster and graveyard
 * bookkeeping, the grid after updateBoard, movePiece, and the opening position.
 */
module EngineProps {
  import opened Model
  import opened MoveGen
  import opened MoveGenProps
  import opened Engine

  // ------------------------------------------------------------ the grid

  /** Board.addPiece puts the piece on its own in-area square and changes no other cell; off the area it does nothing. */
  lemma AddPieceExact(w: World, id: nat)
    requires WF(w) && id < |w.pieces|
    ensures var pos := w.pieces[id].pos;
      if 0 <= pos.x < w.width && 0 <= pos.y < w.height then
        && GetPiece(AddPiece(w, id), pos.x, pos.y) == Some(id)
        && forall a, b | (a, b) != (pos.x, pos.y) :: GetPiece(AddPiece(w, id), a, b) == GetPiece(w, a, b)
      else AddPiece(w, id) == w
  {
  }

  /** Board.removePiece empties an in-area cell and changes no other; off the area it does nothing. */
  lemma RemovePieceExact(w: World, x: int, y: int)
    requires WF(w)
    ensures if 0 <= x < w.width && 0 <= y < w.height then
        && Vacant(RemovePiece(w, x, y), x, y)
        && forall a, b | (a, b) != (x, y) :: GetPiece(RemovePiece(w, x, y), a, b) == GetPiece(w, a, b)
      else RemovePiece(w, x, y) == w
  {
  }

  /** After Board.clearBoard every cell reads as empty. */
  lemma ClearBoardEmpty(w: World)
    requires WF(w)
    ensures forall x, y :: Vacant(ClearBoard(w), x, y)
  {
  }

  /** After Board.reset every cell reads as empty and the array is 8 x 8. */
  lemma ResetEmpty(w: World)
    requires WF(w) && w.width <= SIDE && w.height <= SIDE
    ensures forall x, y :: Vacant(Reset(w), x, y)
    ensures |Reset(w).cells| == SIDE && forall x | 0 <= x < SIDE :: |Reset(w).cells[x]| == SIDE
  {
  }

  // -------------------------------------------------------------- pieces

  /**
   * Piece.updateMoveList clears the list before refilling it: whatever the
   * piece's list held before, the rebuild comes out the same.
   */
  lemma UpdateMoveListForgets(w: World, id: nat, l: seq<Point>)
    requires WF(w) && id < |w.pieces| && |l| <= MAX_MOVES
    ensures WF(WithList(w, id, l))
    ensures UpdateMoveList(WithList(w, id, l), id) == UpdateMoveList(w, id)
    ensures UpdateMoveList(w, id).w.pieces[id].moveList == Generate(w, w.pieces[id]).moves
  {
    var a := WithList(w, id, l);
    assert WF(a) by {
      assert forall k | 0 <= k < |a.pieces| :: a.pieces[k].color == w.pieces[k].color;
    }
    var p := w.pieces[id];
    forall pt ensures IntoCheck(a, p.color, pt) == IntoCheck(w, p.color, pt) {
      IntoCheckExact(a, p.color, pt);
      IntoCheckExact(w, p.color, pt);
      var e := PlayerOf(Other(p.color));
      assert forall k | k in w.rosters[e] :: k != id && a.pieces[k] == w.pieces[k] by {
        forall k | k in w.rosters[e] ensures k != id && a.pieces[k] == w.pieces[k] {
          assert w.pieces[k].color == PlayerColor(e);
        }
      }
    }
    GenerateFrame(a, w, a.pieces[id], p);
    var g := Generate(w, p);
    assert a.pieces[id := a.pieces[id].(moveList := g.moves)] == w.pieces[id := p.(moveList := g.moves)];
  }

  /**
   * Piece.setLocation: an on-board target moves the piece and rebuilds its list
   * on the moved board; otherwise nothing happens.
   */
  lemma SetLocationExact(w: World, id: nat, x: int, y: int)
    requires WF(w) && id < |w.pieces|
    ensures var r := SetLocation(w, id, x, y);
      if OnBoard(x, y) then
        && r.w.pieces[id].pos == Point(x, y)
        && r.w.pieces[id].(pos := w.pieces[id].pos, moveList := w.pieces[id].moveList) == w.pieces[id]
        && r.w.pieces[id].moveList == Generate(SetPieceAt(w, id, w.pieces[id].(pos := Point(x, y))), w.pieces[id].(pos := Point(x, y))).moves
      else r == Run(w, true, false)
  {
  }

  /** The kind-specific part of move cannot touch the list just rebuilt. */
  lemma MoveRecomputes(w: World, id: nat, x: int, y: int)
    requires WF(w) && id < |w.pieces|
    ensures var g := Generate(w, w.pieces[id]);
      && (g.fault ==> Move(w, id, x, y) == Run(UpdateMoveList(w, id).w, false, true))
      && (!g.fault ==> Move(w, id, x, y).w.pieces[id].moveList == g.moves)
  {
    var u := UpdateMoveList(w, id);
    if !u.threw && w.pieces[id].kind == HighTemplar {
      TemplarKeepsList(u.w, id, x, y);
    }
  }

  /** A storm may mark the Templar itself dead, but no part of move rewrites its list. */
  lemma TemplarKeepsList(w: World, id: nat, x: int, y: int)
    requires WF(w) && id < |w.pieces|
    ensures TemplarMove(w, id, x, y).w.pieces[id].moveList == w.pieces[id].moveList
  {
    hide Storm, Listed, HoldsEnemy, StormReady;
    var w1 := SetPieceAt(w, id, w.pieces[id].(energy := w.pieces[id].energy + 1));
    var p := w1.pieces[id];
    if Listed(p, x, y) && HoldsEnemy(w1, p.color, x, y) && StormReady(p, x, y) {
      StormPieces(SetPieceAt(w1, id, p.(energy := 0)), x, y);
    }
  }

  /**
   * Piece.move and its overrides: a destination missing from the rebuilt list
   * is refused; the piece stays where it was and no other piece changes (the
   * High Templar still gains its energy point).
   */
  lemma MoveRefused(w: World, id: nat, x: int, y: int)
    requires WF(w) && id < |w.pieces|
    requires var g := Generate(w, w.pieces[id]); !g.fault && Point(x, y) !in g.moves
    ensures var r := Move(w, id, x, y);
      && !r.value && !r.threw
      && r.w.pieces[id].pos == w.pieces[id].pos && r.w.pieces[id].alive == w.pieces[id].alive
      && r.w.pieces[id].firstMove == w.pieces[id].firstMove
      && r.w.pieces[id].energy == w.pieces[id].energy + (if w.pieces[id].kind == HighTemplar then 1 else 0)
      && forall k | 0 <= k < |w.pieces| && k != id :: r.w.pieces[k] == w.pieces[k]
  {
  }

  /**
   * Piece.move (Knight, Bishop, Rook, Queen, King) to a listed cell: the piece
   * moves there, an enemy occupant is marked dead, and nothing else changes;
   * an ally occupant is never marked.
   */
  lemma BaseMoveTakes(w: World, id: nat, x: int, y: int)
    requires WF(w) && id < |w.pieces| && Listed(w.pieces[id], x, y)
    ensures var r := BaseMove(w, id, x, y);
      var victim := GetPiece(w, x, y);
      && r.value
      && r.w.pieces[id] == w.pieces[id].(pos := Point(x, y))
      && forall k | 0 <= k < |w.pieces| && k != id ::
           r.w.pieces[k] == if HoldsEnemy(w, w.pieces[id].color, x, y) && victim == Some(k)
                            then w.pieces[k].(alive := false) else w.pieces[k]
  {
  }

  /** Pawn.move to a listed cell: the first move is spent, the pawn moves, and no piece is marked. */
  lemma PawnMoveTakes(w: World, id: nat, x: int, y: int)
    requires WF(w) && id < |w.pieces| && Listed(w.pieces[id], x, y)
    ensures var r := PawnMove(w, id, x, y);
      && r.value
      && r.w.pieces[id] == w.pieces[id].(firstMove := false, pos := Point(x, y))
      && forall k | 0 <= k < |w.pieces| && k != id :: r.w.pieces[k] == w.pieces[k]
  {
  }

  /** The cells a storm on (x, y) marks: (x, y + 1) and (x, y - 1), each behind its bound test. */
  predicate StormHit(w: World, k: nat, x: int, y: int)
    requires Shape(w)
  {
    (y + 1 < SIDE && GetPiece(w, x, y + 1) == Some(k)) || (y - 1 < SIDE && GetPiece(w, x, y - 1) == Some(k))
  }

  /**
   * HighTemplar.move: energy rises by one on every call; an unlisted cell is
   * refused; a storm spends the energy, marks the two cells beside the target
   * dead whatever their colour and leaves the Templar in place; any other
   * listed cell moves the Templar and marks nobody.
   */
  lemma TemplarMoveExact(w: World, id: nat, x: int, y: int)
    requires WF(w) && id < |w.pieces|
    ensures var r := TemplarMove(w, id, x, y);
      var p := w.pieces[id].(energy := w.pieces[id].energy + 1);
      && (!Listed(p, x, y) ==>
            !r.value && r.w.pieces[id] == p
            && forall k | 0 <= k < |w.pieces| && k != id :: r.w.pieces[k] == w.pieces[k])
      && (Listed(p, x, y) && HoldsEnemy(w, p.color, x, y) && StormReady(p, x, y) ==>
            && r.value && r.w.pieces[id].pos == p.pos && r.w.pieces[id].energy == 0
            && forall k | 0 <= k < |w.pieces| && k != id ::
                 r.w.pieces[k] == if StormHit(w, k, x, y) then w.pieces[k].(alive := false) else w.pieces[k])
      && (Listed(p, x, y) && !(HoldsEnemy(w, p.color, x, y) && StormReady(p, x, y)) ==>
            && r.value && r.w.pieces[id] == p.(pos := Point(x, y))
            && forall k | 0 <= k < |w.pieces| && k != id :: r.w.pieces[k] == w.pieces[k])
  {
    hide Storm;
    var p := w.pieces[id].(energy := w.pieces[id].energy + 1);
    StormPieces(SetPieceAt(SetPieceAt(w, id, p), id, p.(energy := 0)), x, y);
  }

  /** The storm marks dead exactly the pieces StormHit names. */
  lemma StormPieces(w: World, x: int, y: int)
    requires WF(w)
    ensures forall k | 0 <= k < |w.pieces| ::
              Storm(w, x, y).pieces[k] == if StormHit(w, k, x, y) then w.pieces[k].(alive := false) else w.pieces[k]
  {
  }

  /**
   * Ghost.move: an unlisted cell is refused; a listed cell two or more away in
   * either axis is sniped (its occupant marked dead, an empty one a null
   * dereference) without moving the Ghost; a listed neighbour is stepped onto,
   * marking an enemy occupant dead.
   */
  lemma GhostMoveExact(w: World, id: nat, x: int, y: int)
    requires WF(w) && id < |w.pieces|
    ensures var r := GhostMove(w, id, x, y);
      var p := w.pieces[id];
      var victim := GetPiece(w, x, y);
      var snipe := SnipeRange(Abs(x - p.pos.x), Abs(y - p.pos.y));
      && (!Listed(p, x, y) ==> r == Run(w, false, false))
      && (Listed(p, x, y) && snipe && victim.None? ==> r == Run(w, false, true))
      && (Listed(p, x, y) && snipe && victim.Some? ==>
            r.value && r.w == Kill(w, victim.value))
      && (Listed(p, x, y) && !snipe ==>
            && r.value && r.w.pieces[id] == p.(pos := Point(x, y))
            && forall k | 0 <= k < |w.pieces| && k != id ::
                 r.w.pieces[k] == if HoldsEnemy(w, p.color, x, y) && victim == Some(k)
                                  then w.pieces[k].(alive := false) else w.pieces[k])
  {
  }

  // ------------------------------------------------------------- players

  /** Player.addToRoster appends a piece of the player's colour and ignores any other. */
  lemma AddToRosterExact(w: World, i: nat, id: nat)
    requires WF(w) && i < 2 && id < |w.pieces|
    ensures if w.pieces[id].color == PlayerColor(i) then
        AddToRoster(w, i, id).rosters == w.rosters[i := w.rosters[i] + [id]]
      else AddToRoster(w, i, id) == w
  {
  }

  /** The index of the first occurrence of x in s. */
  function FirstIndex(s: seq<nat>, x: nat): (j: nat)
    requires x in s
    ensures j < |s| && s[j] == x && forall m | 0 <= m < j :: s[m] != x
  {
    if s[0] == x then 0 else 1 + FirstIndex(s[1..], x)
  }

  /** ArrayList.remove(Object) drops exactly the first occurrence. */
  lemma {:induction false} RemoveFirstExact(s: seq<nat>, x: nat)
    requires x in s
    ensures RemoveFirst(s, x) == s[..FirstIndex(s, x)] + s[FirstIndex(s, x) + 1..]
    decreases |s|
  {
    if s[0] != x {
      var t := s[1..];
      var j := FirstIndex(t, x);
      RemoveFirstExact(t, x);
      assert s[..j + 1] == [s[0]] + t[..j];
      assert s[j + 2..] == t[j + 1..];
    }
  }

  /** As a multiset, ArrayList.remove(Object) takes away one copy of x. */
  lemma {:induction false} RemoveFirstMultiset(s: seq<nat>, x: nat)
    ensures multiset(RemoveFirst(s, x)) == multiset(s) - multiset{x}
    decreases |s|
  {
    if s != [] {
      assert s == [s[0]] + s[1..];
      if s[0] != x {
        RemoveFirstMultiset(s[1..], x);
      }
    }
  }

  /** Player.getCaptured's loop adds one graveyard entry per roster occurrence. */
  lemma {:induction false} MatchesCount(s: seq<nat>, x: nat)
    ensures |Matches(s, x)| == multiset(s)[x]
    decreases |s|
  {
    if s != [] {
      MatchesCount(s[..|s| - 1], x);
      assert s == s[..|s| - 1] + [s[|s| - 1]];
    }
  }

  /**
   * Player.getCaptured: a piece the roster holds once goes to the graveyard
   * and leaves the roster; on a non-member both lists stay as they were.
   */
  lemma GetCapturedExact(w: World, i: nat, id: nat)
    requires WF(w) && i < 2 && id < |w.pieces|
    ensures var r := GetCaptured(w, i, id);
      && (id !in w.rosters[i] ==> r == w)
      && (multiset(w.rosters[i])[id] == 1 ==>
            && r.graves == w.graves[i := w.graves[i] + [id]]
            && r.rosters == w.rosters[i := RemoveFirst(w.rosters[i], id)]
            && id !in r.rosters[i])
  {
    var s := w.rosters[i];
    if id !in s {
      assert Matches(s, id) == [] && w.graves[i] + [] == w.graves[i];
      assert w.graves[i := w.graves[i]] == w.graves;
      assert w.rosters[i := s] == w.rosters;
    }
    if multiset(s)[id] == 1 {
      MatchesOnce(s, id);
    }
  }

  /** An id held once is matched once and is gone after its first occurrence is removed. */
  lemma MatchesOnce(s: seq<nat>, id: nat)
    requires multiset(s)[id] == 1
    ensures Matches(s, id) == [id] && id !in RemoveFirst(s, id)
  {
    RemoveFirstMultiset(s, id);
    MatchesCount(s, id);
    var m := Matches(s, id);
    assert |m| == 1 && m[0] in m;
    assert multiset(RemoveFirst(s, id))[id] == 0;
  }

  /**
   * Board.setCapturedPiece: the owner's getCaptured, then the piece is marked
   * dead; no other piece and no other player's lists change.
   */
  lemma SetCapturedExact(w: World, id: nat)
    requires WF(w) && id < |w.pieces|
    ensures var r := SetCaptured(w, id);
      var i := PlayerOf(w.pieces[id].color);
      && r.pieces == w.pieces[id := w.pieces[id].(alive := false)]
      && r.rosters == w.rosters[i := RemoveFirst(w.rosters[i], id)]
      && r.graves == w.graves[i := w.graves[i] + Matches(w.rosters[i], id)]
  {
  }

  // ---------------------------------------------------------- updateBoard

  predicate InArea(w: World, pt: Point)
  {
    0 <= pt.x < w.width && 0 <= pt.y < w.height
  }

  /** Every occupied cell of the area holds a roster piece whose coordinate is that cell. */
  ghost predicate GridHonest(w: World)
    requires Shape(w)
  {
    forall x, y | 0 <= x < w.width && 0 <= y < w.height && GetPiece(w, x, y).Some? ::
      && (GetPiece(w, x, y).value in w.rosters[0] || GetPiece(w, x, y).value in w.rosters[1])
      && w.pieces[GetPiece(w, x, y).value].pos == Point(x, y)
  }

  /** Every piece of ids whose coordinate lies in the area finds its cell occupied. */
  ghost predicate Covered(w: World, ids: seq<nat>)
    requires Shape(w)
  {
    forall id | id in ids && id < |w.pieces| && InArea(w, w.pieces[id].pos) ::
      GetPiece(w, w.pieces[id].pos.x, w.pieces[id].pos.y).Some?
  }

  /** The roster entries the loop of Board.updateBoard has placed before (i, j). */
  function Done(rs: seq<seq<nat>>, i: nat, j: nat): seq<nat>
    requires |rs| == 2 && i <= 2 && (i < 2 ==> j <= |rs[i]|)
  {
    if i == 0 then rs[0][..j] else if i == 1 then rs[0] + rs[1][..j] else rs[0] + rs[1]
  }

  /** Only move lists change: every piece keeps its colour, kind, square and flags. */
  ghost predicate ListsOnly(a: seq<Piece>, b: seq<Piece>)
  {
    |a| == |b| && forall k | 0 <= k < |a| :: b[k].(moveList := a[k].moveList) == a[k]
  }

  lemma ListsOnlySelf(a: seq<Piece>)
    ensures ListsOnly(a, a)
  {
  }

  lemma ListsOnlyTrans(a: seq<Piece>, b: seq<Piece>, c: seq<Piece>)
    requires ListsOnly(a, b) && ListsOnly(b, c)
    ensures ListsOnly(a, c)
  {
    forall k | 0 <= k < |a|
      ensures c[k].(moveList := a[k].moveList) == a[k]
    {
      assert b[k].(moveList := a[k].moveList) == a[k];
      assert c[k].(moveList := b[k].moveList) == b[k];
    }
  }

  /** Recomputing move lists, with the grid and rosters fixed, keeps both grid predicates. */
  lemma GridFrame(a: World, b: World, ids: seq<nat>)
    requires Shape(a) && Shape(b) && a.cells == b.cells && a.rosters == b.rosters
    requires a.width == b.width && a.height == b.height && ListsOnly(a.pieces, b.pieces)
    requires GridHonest(a) && Covered(a, ids)
    ensures GridHonest(b) && Covered(b, ids)
  {
    assert forall x, y :: GetPiece(b, x, y) == GetPiece(a, x, y);
    forall k | 0 <= k < |a.pieces|
      ensures b.pieces[k].pos == a.pieces[k].pos
    {
      assert b.pieces[k].(moveList := a.pieces[k].moveList) == a.pieces[k];
    }
  }

  /** One step of the loop: the piece is placed on its own cell and its list recomputed. */
  lemma RebuildStep(w: World, id: nat, prev: seq<nat>)
    requires WF(w) && id < |w.pieces| && (id in w.rosters[0] || id in w.rosters[1])
    requires GridHonest(w) && Covered(w, prev)
    ensures ListsOnly(w.pieces, UpdateMoveList(AddPiece(w, id), id).w.pieces)
    ensures GridHonest(UpdateMoveList(AddPiece(w, id), id).w)
    ensures Covered(UpdateMoveList(AddPiece(w, id), id).w, prev + [id])
  {
    var a := AddPiece(w, id);
    AddPieceExact(w, id);
    assert GridHonest(a) && Covered(a, prev + [id]);
    var u := UpdateMoveList(a, id);
    assert ListsOnly(a.pieces, u.w.pieces);
    GridFrame(a, u.w, prev + [id]);
  }

  /** What the rebuild loop leaves behind, started from w. */
  ghost predicate Rebuilt(w: World, r: Run)
    requires WF(w) && WF(r.w)
  {
    && ListsOnly(w.pieces, r.w.pieces)
    && (!r.threw ==> GridHonest(r.w) && Covered(r.w, w.rosters[0] + w.rosters[1]))
  }

  lemma DoneNext(rs: seq<seq<nat>>, i: nat, j: nat)
    requires |rs| == 2 && i < 2 && j < |rs[i]|
    ensures Done(rs, i, j + 1) == Done(rs, i, j) + [rs[i][j]]
  {
    assert rs[i][..j + 1] == rs[i][..j] + [rs[i][j]];
  }

  lemma DoneRoll(rs: seq<seq<nat>>, i: nat)
    requires |rs| == 2 && i < 2
    ensures Done(rs, i + 1, 0) == Done(rs, i, |rs[i]|)
  {
    assert rs[i][..|rs[i]|] == rs[i];
    assert rs[1][..0] == [];
  }

  /** A rebuild from a state whose pieces differ from w's only in move lists counts as one from w. */
  lemma RebuiltFrom(w: World, v: World, r: Run)
    requires WF(w) && WF(v) && WF(r.w) && v.rosters == w.rosters
    requires ListsOnly(w.pieces, v.pieces) && Rebuilt(v, r)
    ensures Rebuilt(w, r)
  {
    ListsOnlyTrans(w.pieces, v.pieces, r.w.pieces);
  }

  lemma {:induction false} RebuildGrid(w: World, i: nat, j: nat)
    requires WF(w) && i <= 2 && (i < 2 ==> j <= |w.rosters[i]|)
    requires GridHonest(w) && Covered(w, Done(w.rosters, i, j))
    ensures Rebuilt(w, Rebuild(w, i, j))
    decreases 2 - i, if i < 2 then |w.rosters[i]| - j else 0
  {
    if i == 2 {
      assert ListsOnly(w.pieces, w.pieces);
    } else if j >= |w.rosters[i]| {
      DoneRoll(w.rosters, i);
      RebuildGrid(w, i + 1, 0);
    } else {
      var id := w.rosters[i][j];
      assert id in w.rosters[i];
      RebuildStep(w, id, Done(w.rosters, i, j));
      DoneNext(w.rosters, i, j);
      var u := UpdateMoveList(AddPiece(w, id), id);
      if !u.threw {
        RebuildGrid(u.w, i, j + 1);
        RebuiltFrom(w, u.w, Rebuild(u.w, i, j + 1));
      }
    }
  }

  /**
   * Board.updateBoard: afterwards the area holds exactly the roster pieces
   * whose coordinates lie in it, each on its own cell, and no piece changed
   * anything but its move list.
   */
  lemma UpdateBoardExact(w: World)
    requires WF(w)
    ensures ListsOnly(w.pieces, UpdateBoard(w).w.pieces)
    ensures !UpdateBoard(w).threw ==> GridHonest(UpdateBoard(w).w) && Covered(UpdateBoard(w).w, w.rosters[0] + w.rosters[1])
  {
    var c := ClearBoard(w);
    ClearBoardEmpty(w);
    assert Done(c.rosters, 0, 0) == [];
    RebuildGrid(c, 0, 0);
  }

  // ------------------------------------------- the lists updateBoard rebuilds

  /** The roster entries in the order the loop of Board.updateBoard visits them. */
  function Entries(w: World): seq<nat>
    requires |w.rosters| == 2
  {
    w.rosters[0] + w.rosters[1]
  }

  lemma EntriesIds(w: World)
    requires Shape(w)
    ensures IdsIn(Entries(w), |w.pieces|)
    ensures forall k | k in Entries(w) :: k in w.rosters[0] || k in w.rosters[1]
  {
  }

  lemma PrefixIds(ids: seq<nat>, m: nat, n: nat)
    requires IdsIn(ids, n) && m <= |ids|
    ensures IdsIn(ids[..m], n)
  {
    forall k | k in ids[..m]
      ensures k < n
    {
      var i :| 0 <= i < m && ids[..m][i] == k;
      assert ids[i] in ids;
    }
  }

  /** Entry n is the last visit of its piece in ids. */
  predicate LastVisit(ids: seq<nat>, n: nat)
  {
    n < |ids| && forall k | n < k < |ids| :: ids[k] != ids[n]
  }

  /** Board.addPiece of each of ids in turn, a later piece overwriting an earlier one on a shared cell. */
  function PlaceAll(w: World, ids: seq<nat>): (r: World)
    requires WF(w) && IdsIn(ids, |w.pieces|)
    ensures WF(r) && r.pieces == w.pieces && r.rosters == w.rosters && r.graves == w.graves
    ensures r.width == w.width && r.height == w.height
    decreases |ids|
  {
    if ids == [] then w
    else
      var last := ids[|ids| - 1];
      assert last in ids;
      PrefixIds(ids, |ids| - 1, |w.pieces|);
      AddPiece(PlaceAll(w, ids[..|ids| - 1]), last)
  }

  lemma PlaceNone(w: World)
    requires WF(w)
    ensures PlaceAll(w, []) == w
  {
  }

  /** On a board with an empty area, the placed cells hold pieces of ids only. */
  lemma {:induction false} PlaceAllHolds(w: World, ids: seq<nat>)
    requires WF(w) && IdsIn(ids, |w.pieces|)
    requires forall x, y :: GetPiece(w, x, y).None?
    ensures forall x, y | GetPiece(PlaceAll(w, ids), x, y).Some? :: GetPiece(PlaceAll(w, ids), x, y).value in ids
    decreases |ids|
  {
    if ids != [] {
      var init := ids[..|ids| - 1];
      assert forall k | k in init :: k in ids;
      assert ids[|ids| - 1] in ids;
      PrefixIds(ids, |ids| - 1, |w.pieces|);
      PlaceAllHolds(w, init);
      AddPieceExact(PlaceAll(w, init), ids[|ids| - 1]);
    }
  }

  /** The board the loop of Board.updateBoard reaches, started from w, before it visits entry n. */
  function Stage(w: World, n: nat): (r: World)
    requires WF(w) && n <= |Entries(w)|
    ensures WF(r) && r.rosters == w.rosters && r.graves == w.graves
    ensures r.width == w.width && r.height == w.height && |r.pieces| == |w.pieces|
    decreases n
  {
    if n == 0 then w
    else
      var s := Stage(w, n - 1);
      var id := Entries(w)[n - 1];
      assert id in w.rosters[0] || id in w.rosters[1];
      UpdateMoveList(AddPiece(s, id), id).w
  }

  /** The loop's visit of entry n: the piece is placed, then its list recomputed. */
  function Visit(w: World, n: nat): (r: Run)
    requires WF(w) && n < |Entries(w)|
    ensures r.w == Stage(w, n + 1)
  {
    var id := Entries(w)[n];
    assert id in w.rosters[0] || id in w.rosters[1];
    UpdateMoveList(AddPiece(Stage(w, n), id), id)
  }

  /** What a visit changes: the visited piece's list and nothing else of the pieces. */
  lemma VisitFrame(w: World, n: nat)
    requires WF(w) && n < |Entries(w)|
    ensures var id := Entries(w)[n]; var s := Stage(w, n); var v := Visit(w, n).w;
      && id < |s.pieces|
      && v.pieces[id].moveList == Generate(AddPiece(s, id), s.pieces[id]).moves
      && ListsOnly(s.pieces, v.pieces)
      && (forall k | 0 <= k < |s.pieces| && k != id :: v.pieces[k] == s.pieces[k])
      && v.cells == AddPiece(s, id).cells
  {
    hide Generate;
    assert Entries(w)[n] in w.rosters[0] || Entries(w)[n] in w.rosters[1];
  }

  /** The rest of the loop from entry n, as Rebuild counts positions. */
  function RebuildAt(w: World, n: nat): Run
    requires WF(w) && n <= |Entries(w)|
  {
    if n < |w.rosters[0]| then Rebuild(Stage(w, n), 0, n) else Rebuild(Stage(w, n), 1, n - |w.rosters[0]|)
  }

  /** Entry 0 on the starting board, in Rebuild's roster positions. */
  lemma RebuildAtZero(w: World)
    requires WF(w)
    ensures RebuildAt(w, 0) == if 0 < |w.rosters[0]| then Rebuild(w, 0, 0) else Rebuild(w, 1, 0)
  {
    hide Generate, UpdateMoveList, AddPiece, Stage, Visit, Rebuild;
    StageStart(w);
  }

  /** An empty first roster hands the loop straight to the second. */
  lemma RebuildSkip(w: World)
    requires WF(w) && |w.rosters[0]| == 0
    ensures Rebuild(w, 0, 0) == Rebuild(w, 1, 0)
  {
    hide Generate, UpdateMoveList, AddPiece, Stage, Visit;
  }

  /** The loop from the start is the loop from entry 0. */
  lemma RebuildAtStart(w: World)
    requires WF(w)
    ensures Rebuild(w, 0, 0) == RebuildAt(w, 0)
  {
    hide Generate, UpdateMoveList, AddPiece, Stage, Visit, Rebuild, RebuildAt;
    RebuildAtZero(w);
    if |w.rosters[0]| == 0 {
      RebuildSkip(w);
    }
  }

  /** A visit hands the loop on to the next entry, or ends it with its throw. */
  lemma RebuildAtNext(w: World, n: nat)
    requires WF(w) && n < |Entries(w)|
    ensures !Visit(w, n).threw ==> RebuildAt(w, n) == RebuildAt(w, n + 1)
    ensures Visit(w, n).threw ==> RebuildAt(w, n) == Visit(w, n)
  {
    hide Generate, UpdateMoveList, AddPiece;
    var r0 := |w.rosters[0]|;
    var s := Stage(w, n);
    var s1 := Stage(w, n + 1);
    if n < r0 {
      assert Rebuild(s, 0, n) == if Visit(w, n).threw then Visit(w, n) else Rebuild(s1, 0, n + 1);
      if n + 1 == r0 {
        assert Rebuild(s1, 0, n + 1) == Rebuild(s1, 1, 0);
      }
    } else {
      assert Rebuild(s, 1, n - r0) == if Visit(w, n).threw then Visit(w, n) else Rebuild(s1, 1, n + 1 - r0);
    }
  }

  /** While no visit has thrown, the loop from the start is the loop from entry n. */
  lemma {:induction false} RebuildStage(w: World, n: nat)
    requires WF(w) && n <= |Entries(w)|
    requires forall k | 0 <= k < n :: !Visit(w, k).threw
    ensures Rebuild(w, 0, 0) == RebuildAt(w, n)
    decreases n
  {
    hide *;
    if n == 0 {
      RebuildAtStart(w);
    } else {
      RebuildStage(w, n - 1);
      RebuildAtNext(w, n - 1);
    }
  }

  /** A loop that does not throw throws at no visit. */
  lemma {:induction false} VisitsClean(w: World, n: nat)
    requires WF(w) && n <= |Entries(w)| && !Rebuild(w, 0, 0).threw
    ensures forall k | 0 <= k < n :: !Visit(w, k).threw
    decreases n
  {
    hide *;
    if n > 0 {
      VisitsClean(w, n - 1);
      RebuildStage(w, n - 1);
      RebuildAtNext(w, n - 1);
    }
  }

  /** A loop that does not throw ends on the last stage. */
  lemma RebuildEnds(w: World)
    requires WF(w) && !Rebuild(w, 0, 0).threw
    ensures Rebuild(w, 0, 0).w == Stage(w, |Entries(w)|)
  {
    hide Generate, UpdateMoveList, AddPiece, Stage, Visit, Rebuild, RebuildAt;
    var e := |Entries(w)|;
    VisitsClean(w, e);
    RebuildStage(w, e);
    RebuildAtEnd(w);
  }

  /** Past the last entry the loop stops on the board it has. */
  lemma RebuildAtEnd(w: World)
    requires WF(w)
    ensures RebuildAt(w, |Entries(w)|) == Run(Stage(w, |Entries(w)|), true, false)
  {
    hide Generate, UpdateMoveList, AddPiece, Stage, Visit;
    var s := Stage(w, |Entries(w)|);
    assert Rebuild(s, 1, |w.rosters[1]|) == Rebuild(s, 2, 0);
  }

  lemma StageStart(w: World)
    requires WF(w)
    ensures Stage(w, 0) == w
  {
  }

  /** A piece the loop does not visit between entries a and m keeps its record. */
  lemma {:induction false} StageKeeps(w: World, a: nat, m: nat, k: nat)
    requires WF(w) && a <= m <= |Entries(w)| && k < |w.pieces|
    requires forall j | a <= j < m :: Entries(w)[j] != k
    ensures Stage(w, m).pieces[k] == Stage(w, a).pieces[k]
    decreases m
  {
    hide *;
    if m > a {
      StageKeeps(w, a, m - 1, k);
      VisitFrame(w, m - 1);
    }
  }

  /** Each stage differs from the start only in move lists. */
  lemma {:induction false} StageListsOnly(w: World, n: nat)
    requires WF(w) && n <= |Entries(w)|
    ensures ListsOnly(w.pieces, Stage(w, n).pieces)
    decreases n
  {
    hide *;
    if n == 0 {
      StageStart(w);
      ListsOnlySelf(w.pieces);
    } else {
      StageListsOnly(w, n - 1);
      VisitFrame(w, n - 1);
      ListsOnlyTrans(w.pieces, Stage(w, n - 1).pieces, Stage(w, n).pieces);
    }
  }

  /** addPiece reads only the grid, the area and the piece's square. */
  lemma AddPieceCells(a: World, b: World, id: nat)
    requires WF(a) && WF(b) && id < |a.pieces| && id < |b.pieces| && a.cells == b.cells
    requires a.width == b.width && a.height == b.height && a.pieces[id].pos == b.pieces[id].pos
    ensures AddPiece(a, id).cells == AddPiece(b, id).cells
  {
  }

  /** The grid of Stage(w, n) with entry n placed is PlaceAll of the entries up to n. */
  lemma PlaceNextCells(w: World, n: nat)
    requires WF(w) && n < |Entries(w)|
    requires IdsIn(Entries(w)[..n], |w.pieces|)
    requires Stage(w, n).cells == PlaceAll(w, Entries(w)[..n]).cells
    ensures Entries(w)[n] < |w.pieces| && IdsIn(Entries(w)[..n + 1], |w.pieces|)
    ensures AddPiece(Stage(w, n), Entries(w)[n]).cells == PlaceAll(w, Entries(w)[..n + 1]).cells
  {
    hide Generate, UpdateMoveList, Stage;
    var e := Entries(w);
    EntriesIds(w);
    assert e[n] in e;
    PrefixIds(e, n + 1, |w.pieces|);
    StageListsOnly(w, n);
    var s := Stage(w, n);
    var id := e[n];
    assert id in e;
    assert e[..n + 1][..n] == e[..n];
    assert PlaceAll(w, e[..n + 1]) == AddPiece(PlaceAll(w, e[..n]), id);
    assert s.pieces[id].(moveList := w.pieces[id].moveList) == w.pieces[id];
    AddPieceCells(s, PlaceAll(w, e[..n]), id);
  }

  /** The grid at stage n holds the entries before n placed in visit order. */
  lemma {:induction false} StageCells(w: World, n: nat)
    requires WF(w) && n <= |Entries(w)|
    ensures IdsIn(Entries(w)[..n], |w.pieces|)
    ensures Stage(w, n).cells == PlaceAll(w, Entries(w)[..n]).cells
    decreases n
  {
    hide Generate, UpdateMoveList, Stage, PlaceAll, AddPiece, Visit;
    if n == 0 {
      StageStart(w);
      PlaceNone(w);
      assert Entries(w)[..0] == [];
    } else {
      StageCells(w, n - 1);
      PlaceNextCells(w, n - 1);
      VisitFrame(w, n - 1);
    }
  }

  /** Rosters hold pieces of their own colour, so an entry of one roster is no entry of the other. */
  lemma RostersApart(w: World, k: nat, j: nat)
    requires WF(w) && k in w.rosters[0] && j < |w.rosters[1]|
    ensures w.rosters[1][j] != k
  {
    assert w.rosters[1][j] in w.rosters[1];
    assert w.pieces[k].color == PlayerColor(0);
    assert w.pieces[w.rosters[1][j]].color == PlayerColor(1);
  }

  /** The stored lists a King consults are those of the other player's roster. */
  lemma IntoCheckSame(a: World, b: World, c: Color)
    requires Shape(a) && Shape(b) && a.rosters == b.rosters && |a.pieces| == |b.pieces|
    requires forall k | k in a.rosters[1 - PlayerOf(c)] :: a.pieces[k].moveList == b.pieces[k].moveList
    ensures forall pt :: IntoCheck(a, c, pt) == IntoCheck(b, c, pt)
  {
    forall pt
      ensures IntoCheck(a, c, pt) == IntoCheck(b, c, pt)
    {
      var o := 1 - PlayerOf(c);
      assert PlayerOf(PlayerColor(o)) == o;
      assert IntoCheck(a, c, pt) == ListedBy(a, PlayerColor(o), pt);
      assert IntoCheck(b, c, pt) == ListedBy(b, PlayerColor(o), pt);
    }
  }

  /**
   * The list entry n of the visit order ends with, on the board v the loop
   * started from and the board r it left: what the piece's generator gives on
   * the cleared grid holding just the entries up to n.  The other pieces'
   * lists count only for a King: a King of player[0] reads the enemy lists as
   * v held them, a King of player[1] reads them as r holds them.
   */
  ghost predicate ListRebuilt(v: World, r: World, n: nat)
    requires WF(v) && WF(r) && |r.pieces| == |v.pieces| && LastVisit(Entries(v), n)
  {
    var e := Entries(v);
    var id := e[n];
    EntriesIds(v);
    PrefixIds(e, n + 1, |v.pieces|);
    var grid := PlaceAll(ClearBoard(v), e[..n + 1]);
    if v.pieces[id].kind == King && n < |v.rosters[0]| then
      r.pieces[id].moveList == Generate(grid, r.pieces[id]).moves
    else
      r.pieces[id].moveList == Generate(grid.(pieces := r.pieces), r.pieces[id]).moves
  }

  /** Every roster piece, at its last visit, ends with the list ListRebuilt describes. */
  ghost predicate ListsRebuilt(v: World, r: World)
    requires WF(v) && WF(r) && |r.pieces| == |v.pieces|
  {
    forall n | LastVisit(Entries(v), n) :: ListRebuilt(v, r, n)
  }

  /** The last visit's list is the one the loop leaves; the grid it was built on is PlaceAll's. */
  lemma FinalList(c: World, n: nat)
    requires WF(c) && LastVisit(Entries(c), n)
    ensures var e := Entries(c); var id := e[n]; var s := Stage(c, n);
      && id < |c.pieces| && IdsIn(e[..n + 1], |c.pieces|)
      && Stage(c, |e|).pieces[id].moveList == Generate(AddPiece(s, id), s.pieces[id]).moves
      && AddPiece(s, id).cells == PlaceAll(c, e[..n + 1]).cells
      && ListsOnly(c.pieces, s.pieces) && ListsOnly(c.pieces, Stage(c, |e|).pieces)
  {
    hide Generate, UpdateMoveList, Stage, PlaceAll, AddPiece;
    var e := Entries(c);
    EntriesIds(c);
    assert e[n] in e;
    StageKeeps(c, n + 1, |e|, e[n]);
    VisitFrame(c, n);
    StageCells(c, n);
    PlaceNextCells(c, n);
    StageListsOnly(c, n);
    StageListsOnly(c, |e|);
  }

  /** The two boards ListAt compares agree on everything but the stored lists. */
  lemma SameBoardAt(c: World, n: nat, pieces: seq<Piece>)
    requires WF(c) && LastVisit(Entries(c), n)
    requires ListsOnly(c.pieces, pieces) && ListsOnly(c.pieces, Stage(c, n).pieces)
    ensures var e := Entries(c);
      IdsIn(e[..n + 1], |c.pieces|) && e[n] < |c.pieces| &&
      AddPiece(Stage(c, n), e[n]).cells == PlaceAll(c, e[..n + 1]).cells ==>
      SameBoard(AddPiece(Stage(c, n), e[n]), PlaceAll(c, e[..n + 1]).(pieces := pieces))
  {
    hide Generate, UpdateMoveList, Stage;
    var s := Stage(c, n);
    forall k | 0 <= k < |s.pieces|
      ensures s.pieces[k].color == pieces[k].color && s.pieces[k].kind == pieces[k].kind
    {
      assert s.pieces[k].(moveList := c.pieces[k].moveList) == c.pieces[k];
      assert pieces[k].(moveList := c.pieces[k].moveList) == c.pieces[k];
    }
  }

  /** One entry of UpdateBoardLists. */
  lemma ListAt(w: World, n: nat)
    requires WF(w) && LastVisit(Entries(w), n)
    ensures var c := ClearBoard(w);
      ListRebuilt(w, Stage(c, |Entries(c)|), n)
  {
    hide Generate, UpdateMoveList, Stage, PlaceAll, AddPiece;
    var c := ClearBoard(w);
    var e := Entries(c);
    assert e == Entries(w);
    var r0 := |w.rosters[0]|;
    var id := e[n];
    FinalList(c, n);
    var s := Stage(c, n);
    var a := AddPiece(s, id);
    var fin := Stage(c, |e|);
    var grid := PlaceAll(c, e[..n + 1]);
    assert fin.pieces[id].(moveList := c.pieces[id].moveList) == c.pieces[id];
    assert s.pieces[id].(moveList := c.pieces[id].moveList) == c.pieces[id];
    assert SamePiece(a.pieces[id], fin.pieces[id]);
    EntriesIds(c);
    assert id in e;
    assert id in w.rosters[0] || id in w.rosters[1];
    if w.pieces[id].kind == King && n < r0 {
      SameBoardAt(c, n, c.pieces);
      assert grid.(pieces := c.pieces) == grid;
      assert id in w.rosters[0];
      forall k | k in a.rosters[1 - PlayerOf(a.pieces[id].color)]
        ensures a.pieces[k].moveList == grid.pieces[k].moveList
      {
        forall j | 0 <= j < n
          ensures e[j] != k
        {
          assert e[j] == w.rosters[0][j] && e[j] in w.rosters[0];
          var jj :| 0 <= jj < |w.rosters[1]| && w.rosters[1][jj] == k;
          RostersApart(w, e[j], jj);
        }
        StageKeeps(c, 0, n, k);
        StageStart(c);
      }
      IntoCheckSame(a, grid, a.pieces[id].color);
      GenerateFrame(a, grid, a.pieces[id], fin.pieces[id]);
    } else {
      var g2 := grid.(pieces := fin.pieces);
      SameBoardAt(c, n, fin.pieces);
      if w.pieces[id].kind == King {
        assert id in w.rosters[1];
        forall k | k in a.rosters[1 - PlayerOf(a.pieces[id].color)]
          ensures a.pieces[k].moveList == g2.pieces[k].moveList
        {
          assert k in w.rosters[0];
          forall j | n <= j < |e|
            ensures e[j] != k
          {
            assert e[j] == w.rosters[1][j - r0];
            RostersApart(w, k, j - r0);
          }
          StageKeeps(c, n, |e|, k);
        }
        IntoCheckSame(a, g2, a.pieces[id].color);
      }
      GenerateFrame(a, g2, a.pieces[id], fin.pieces[id]);
    }
  }

  /**
   * While updateBoard rebuilds player[0]'s roster, no piece of player[1] has
   * been placed yet: cells of the grid ListRebuilt names for such an entry
   * hold pieces of player[0]'s roster only.
   */
  lemma FirstPassGrid(w: World, n: nat)
    requires WF(w) && n < |w.rosters[0]|
    ensures IdsIn(Entries(w)[..n + 1], |w.pieces|)
    ensures var g := PlaceAll(ClearBoard(w), Entries(w)[..n + 1]);
      forall x, y | GetPiece(g, x, y).Some? :: GetPiece(g, x, y).value in w.rosters[0]
  {
    hide Generate, UpdateMoveList, AddPiece, PlaceAll;
    var c := ClearBoard(w);
    var e := Entries(w);
    EntriesIds(w);
    PrefixIds(e, n + 1, |w.pieces|);
    assert forall x, y :: GetPiece(c, x, y).None?;
    PlaceAllHolds(c, e[..n + 1]);
    forall k | k in e[..n + 1]
      ensures k in w.rosters[0]
    {
      var i :| 0 <= i < n + 1 && e[..n + 1][i] == k;
      assert e[i] == w.rosters[0][i];
    }
  }

  /**
   * Board.updateBoard, the lists: without a fault every roster piece ends with
   * the list its generator gives on the cleared grid holding just the roster
   * entries up to its own last visit, placed in roster order (ListRebuilt).
   * Every piece of player[0] is rebuilt before any piece of player[1] is placed.
   */
  lemma UpdateBoardLists(w: World)
    requires WF(w)
    ensures !UpdateBoard(w).threw ==> ListsRebuilt(w, UpdateBoard(w).w)
  {
    var c := ClearBoard(w);
    if !UpdateBoard(w).threw {
      RebuildEnds(c);
      forall n | LastVisit(Entries(w), n)
        ensures ListRebuilt(w, UpdateBoard(w).w, n)
      {
        ListAt(w, n);
      }
    }
  }

  // ----------------------------------------------------------- movePiece

  /**
   * b follows a in one game: every piece keeps its colour and kind and no dead
   * piece comes back, rosters only lose entries and graveyards only gain them.
   */
  ghost predicate Decays(a: World, b: World)
    requires WF(a) && WF(b)
  {
    && |b.pieces| == |a.pieces|
    && (forall k | 0 <= k < |a.pieces| ::
          && b.pieces[k].color == a.pieces[k].color && b.pieces[k].kind == a.pieces[k].kind
          && (!a.pieces[k].alive ==> !b.pieces[k].alive))
    && (forall i, id | 0 <= i < 2 && id in b.rosters[i] :: id in a.rosters[i])
    && (forall i, id | 0 <= i < 2 && id in a.graves[i] :: id in b.graves[i])
  }

  lemma DecaysTrans(a: World, b: World, c: World)
    requires WF(a) && WF(b) && WF(c) && Decays(a, b) && Decays(b, c)
    ensures Decays(a, c)
  {
  }

  /** An edit of one piece that keeps its colour and kind and revives nothing. */
  lemma PieceEdit(w: World, k: nat, p: Piece)
    requires WF(w) && k < |w.pieces|
    requires p.color == w.pieces[k].color && p.kind == w.pieces[k].kind
    requires !w.pieces[k].alive ==> !p.alive
    requires |p.moveList| <= MAX_MOVES
    ensures WF(SetPieceAt(w, k, p)) && Decays(w, SetPieceAt(w, k, p))
  {
  }

  lemma KillDecays(w: World, k: nat)
    requires WF(w) && k < |w.pieces|
    ensures Decays(w, Kill(w, k))
  {
  }

  lemma KillAtDecays(w: World, x: int, y: int)
    requires WF(w)
    ensures Decays(w, KillAt(w, x, y))
  {
  }

  lemma UpdateMoveListDecays(w: World, id: nat)
    requires WF(w) && id < |w.pieces|
    ensures Decays(w, UpdateMoveList(w, id).w)
  {
    var u := UpdateMoveList(w, id);
    assert u.w.pieces[id].(moveList := w.pieces[id].moveList) == w.pieces[id];
    assert u.w.pieces[id].color == w.pieces[id].color;
  }

  lemma BaseMoveDecays(w: World, id: nat, x: int, y: int)
    requires WF(w) && id < |w.pieces|
    ensures Decays(w, BaseMove(w, id, x, y).w)
  {
    var p := w.pieces[id];
    if Listed(p, x, y) {
      var w1 := if HoldsEnemy(w, p.color, x, y) then Kill(w, GetPiece(w, x, y).value) else w;
      if HoldsEnemy(w, p.color, x, y) {
        KillDecays(w, GetPiece(w, x, y).value);
      }
      PieceEdit(w1, id, w1.pieces[id].(pos := Point(x, y)));
      DecaysTrans(w, w1, Relocate(w1, id, x, y));
    }
  }

  lemma PawnMoveDecays(w: World, id: nat, x: int, y: int)
    requires WF(w) && id < |w.pieces|
    ensures Decays(w, PawnMove(w, id, x, y).w)
  {
    var p := w.pieces[id];
    if Listed(p, x, y) {
      PieceEdit(w, id, p.(firstMove := false, pos := Point(x, y)));
    }
  }

  /** The two storm kills of HighTemplar.move. */
  lemma StormDecays(w: World, x: int, y: int)
    requires WF(w)
    ensures Decays(w, Storm(w, x, y))
  {
    hide KillAt;
    var w3 := if y + 1 < SIDE then KillAt(w, x, y + 1) else w;
    KillAtDecays(w, x, y + 1);
    KillAtDecays(w3, x, y - 1);
    if y + 1 >= SIDE {
      DecaysRefl(w);
    }
    DecaysTrans(w, w3, KillAt(w3, x, y - 1));
  }

  lemma DecaysRefl(w: World)
    requires WF(w)
    ensures Decays(w, w)
  {
  }

  lemma TemplarMoveDecays(w: World, id: nat, x: int, y: int)
    requires WF(w) && id < |w.pieces|
    ensures Decays(w, TemplarMove(w, id, x, y).w)
  {
    hide Decays, Storm, Listed, HoldsEnemy, StormReady;
    var p := w.pieces[id];
    var w1 := SetPieceAt(w, id, p.(energy := p.energy + 1));
    PieceEdit(w, id, p.(energy := p.energy + 1));
    var q := w1.pieces[id];
    if Listed(q, x, y) && HoldsEnemy(w1, q.color, x, y) && StormReady(q, x, y) {
      var w2 := SetPieceAt(w1, id, q.(energy := 0));
      PieceEdit(w1, id, q.(energy := 0));
      StormDecays(w2, x, y);
      DecaysTrans(w, w1, w2);
      DecaysTrans(w, w2, TemplarMove(w, id, x, y).w);
    } else if Listed(q, x, y) {
      PieceEdit(w1, id, q.(pos := Point(x, y)));
      DecaysTrans(w, w1, Relocate(w1, id, x, y));
    }
  }

  lemma GhostMoveDecays(w: World, id: nat, x: int, y: int)
    requires WF(w) && id < |w.pieces|
    ensures Decays(w, GhostMove(w, id, x, y).w)
  {
    var p := w.pieces[id];
    var adx, ady := Abs(x - p.pos.x), Abs(y - p.pos.y);
    if Listed(p, x, y) && !Vacant(w, x, y) {
      KillDecays(w, GetPiece(w, x, y).value);
    }
    if Listed(p, x, y) && !SnipeRange(adx, ady) {
      var w1 := if adx < 2 && ady < 2 && adx + ady < 3 && HoldsEnemy(w, p.color, x, y)
                then Kill(w, GetPiece(w, x, y).value) else w;
      PieceEdit(w1, id, w1.pieces[id].(pos := Point(x, y)));
      DecaysTrans(w, w1, Relocate(w1, id, x, y));
    }
  }

  lemma MoveDecays(w: World, id: nat, x: int, y: int)
    requires WF(w) && id < |w.pieces|
    ensures Decays(w, Move(w, id, x, y).w)
  {
    var u := UpdateMoveList(w, id);
    UpdateMoveListDecays(w, id);
    if !u.threw {
      match w.pieces[id].kind
      case Pawn => PawnMoveDecays(u.w, id, x, y);
      case HighTemplar => TemplarMoveDecays(u.w, id, x, y);
      case Ghost => GhostMoveDecays(u.w, id, x, y);
      case _ => BaseMoveDecays(u.w, id, x, y);
    }
  }

  lemma CaptureIfDecays(w: World, occupant: Option<nat>)
    requires WF(w) && (occupant.Some? ==> occupant.value < |w.pieces|)
    ensures Decays(w, CaptureIf(w, occupant))
  {
    if occupant.Some? {
      var id := occupant.value;
      var i := PlayerOf(w.pieces[id].color);
      var g := GetCaptured(w, i, id);
      assert Decays(w, g);
      KillDecays(g, id);
    }
  }

  lemma UpdateBoardDecays(w: World)
    requires WF(w)
    ensures Decays(w, UpdateBoard(w).w)
  {
    UpdateBoardExact(w);
    var r := UpdateBoard(w);
    forall k | 0 <= k < |w.pieces|
      ensures r.w.pieces[k].color == w.pieces[k].color && r.w.pieces[k].kind == w.pieces[k].kind
      ensures r.w.pieces[k].alive == w.pieces[k].alive
    {
      assert r.w.pieces[k].(moveList := w.pieces[k].moveList) == w.pieces[k];
    }
  }

  /** The whole of Board.movePiece follows the game forward in the sense of Decays. */
  lemma MovePieceDecays(w: World, piece: Option<nat>, x: int, y: int)
    requires WF(w) && (piece.Some? ==> piece.value < |w.pieces|)
    ensures Decays(w, MovePiece(w, piece, x, y).w)
  {
    hide Move, CaptureIf, UpdateBoard, Decays;
    if piece.Some? {
      var id := piece.value;
      var destination := GetPiece(w, x, y);
      var m := Move(w, id, x, y);
      MoveDecays(w, id, x, y);
      if !m.threw && m.value {
        var p := m.w.pieces[id];
        var w1 := CaptureIf(m.w, destination);
        CaptureIfDecays(m.w, destination);
        DecaysTrans(w, m.w, w1);
        if p.kind == HighTemplar && StormRow(p, y) {
          var w2 := CaptureIf(w1, GetPiece(w1, x, y + 1));
          var w3 := CaptureIf(w2, GetPiece(w1, x, y - 1));
          CaptureIfDecays(w1, GetPiece(w1, x, y + 1));
          CaptureIfDecays(w2, GetPiece(w1, x, y - 1));
          UpdateBoardDecays(w3);
          DecaysTrans(w, w1, w2);
          DecaysTrans(w, w2, w3);
          DecaysTrans(w, w3, UpdateBoard(w3).w);
        } else {
          UpdateBoardDecays(w1);
          DecaysTrans(w, w1, UpdateBoard(w1).w);
        }
      }
    } else {
      DecaysRefl(w);
    }
  }

  /**
   * Board.movePiece without a piece, or to a cell the rebuilt list lacks:
   * false, and the grid, rosters and graveyards are as they were.
   */
  lemma MovePieceRefused(w: World, piece: Option<nat>, x: int, y: int)
    requires WF(w) && (piece.Some? ==> piece.value < |w.pieces|)
    requires piece.Some? ==> var g := Generate(w, w.pieces[piece.value]); !g.fault && Point(x, y) !in g.moves
    ensures var r := MovePiece(w, piece, x, y);
      && !r.value && !r.threw
      && r.w.cells == w.cells && r.w.rosters == w.rosters && r.w.graves == w.graves
      && (piece.None? ==> r.w == w)
      && (piece.Some? ==> r.w.pieces[piece.value].pos == w.pieces[piece.value].pos)
  {
    if piece.Some? {
      MoveRefused(w, piece.value, x, y);
    }
  }

  lemma MatchesHas(s: seq<nat>, x: nat)
    requires x in s
    ensures x in Matches(s, x)
  {
    assert Matches(s, x) != [];
    assert Matches(s, x)[0] in Matches(s, x);
  }

  /**
   * Board.movePiece, success: the piece read from the destination before the
   * move is marked dead, has gone to its owner's graveyard if the roster held
   * it, and has left a roster that held it once.
   */
  lemma MovePieceCaptures(w: World, id: nat, x: int, y: int, d: nat)
    requires WF(w) && id < |w.pieces| && GetPiece(w, x, y) == Some(d)
    ensures var r := MovePiece(w, Some(id), x, y);
      var o := PlayerOf(w.pieces[d].color);
      r.value ==>
        && !r.w.pieces[d].alive
        && (d in w.rosters[o] ==> d in r.w.graves[o])
        && (multiset(w.rosters[o])[d] == 1 ==> d !in r.w.rosters[o])
  {
    var r := MovePiece(w, Some(id), x, y);
    var o := PlayerOf(w.pieces[d].color);
    var m := Move(w, id, x, y);
    MoveDecays(w, id, x, y);
    if r.value {
      assert !m.threw && m.value;
      var w1 := CaptureIf(m.w, Some(d));
      SetCapturedExact(m.w, d);
      assert !w1.pieces[d].alive;
      if d in w.rosters[o] {
        MatchesHas(w.rosters[o], d);
      }
      if multiset(w.rosters[o])[d] == 1 {
        RemoveFirstMultiset(w.rosters[o], d);
        assert d !in w1.rosters[o];
      }
      var p := m.w.pieces[id];
      var v := if p.kind == HighTemplar && StormRow(p, y) then
                 CaptureIf(CaptureIf(w1, GetPiece(w1, x, y + 1)), GetPiece(w1, x, y - 1))
               else w1;
      CaptureTail(w1, p.kind == HighTemplar && StormRow(p, y), x, y);
      UpdateBoardDecays(v);
      DecaysTrans(w1, v, UpdateBoard(v).w);
      assert r.w == UpdateBoard(v).w;
    }
  }

  /** The storm captures after the first one, as Decays. */
  lemma CaptureTail(w1: World, storm: bool, x: int, y: int)
    requires WF(w1)
    ensures Decays(w1, if storm then CaptureIf(CaptureIf(w1, GetPiece(w1, x, y + 1)), GetPiece(w1, x, y - 1)) else w1)
  {
    if storm {
      var w2 := CaptureIf(w1, GetPiece(w1, x, y + 1));
      CaptureIfDecays(w1, GetPiece(w1, x, y + 1));
      CaptureIfDecays(w2, GetPiece(w1, x, y - 1));
      DecaysTrans(w1, w2, CaptureIf(w2, GetPiece(w1, x, y - 1)));
    }
  }

  /**
   * Board.movePiece, success: the rebuilt grid holds exactly the remaining
   * roster pieces that lie on the area, each on its own cell, and every
   * remaining roster piece carries the list updateBoard's loop recomputed for
   * it on the board after the captures (ListRebuilt).
   */
  lemma MovePieceRebuilds(w: World, id: nat, x: int, y: int)
    requires WF(w) && id < |w.pieces|
    ensures var r := MovePiece(w, Some(id), x, y);
      r.value ==> GridHonest(r.w) && Covered(r.w, r.w.rosters[0] + r.w.rosters[1])
    ensures var m := Move(w, id, x, y); var r := MovePiece(w, Some(id), x, y);
      r.value ==> ListsRebuilt(Captures(m.w, m.w.pieces[id], GetPiece(w, x, y), x, y), r.w)
  {
    var m := Move(w, id, x, y);
    if !m.threw && m.value {
      UpdateBoardLists(Captures(m.w, m.w.pieces[id], GetPiece(w, x, y), x, y));
      var p := m.w.pieces[id];
      var w1 := CaptureIf(m.w, GetPiece(w, x, y));
      if p.kind == HighTemplar && StormRow(p, y) {
        var w2 := CaptureIf(w1, GetPiece(w1, x, y + 1));
        UpdateBoardExact(CaptureIf(w2, GetPiece(w1, x, y - 1)));
      } else {
        UpdateBoardExact(w1);
      }
    }
  }

  /**
   * What one setCapturedPiece does to a piece b in roster o: b stays held
   * (rostered or buried), its roster copies never increase, and a capture of
   * b itself buries it and takes one roster copy away.
   */
  lemma CaptureTracks(u: World, occupant: Option<nat>, b: nat, o: nat)
    requires WF(u) && (occupant.Some? ==> occupant.value < |u.pieces|) && b < |u.pieces| && o < 2
    ensures var r := CaptureIf(u, occupant);
      && ((b in u.rosters[o] || b in u.graves[o]) ==> (b in r.rosters[o] || b in r.graves[o]))
      && (b in u.graves[o] ==> b in r.graves[o])
      && multiset(r.rosters[o])[b] <= multiset(u.rosters[o])[b]
      && (occupant == Some(b) && o == PlayerOf(u.pieces[b].color) ==>
            && ((b in u.rosters[o] || b in u.graves[o]) ==> b in r.graves[o])
            && (multiset(u.rosters[o])[b] <= 1 ==> b !in r.rosters[o]))
  {
    if occupant.Some? {
      var d := occupant.value;
      var i := PlayerOf(u.pieces[d].color);
      SetCapturedExact(u, d);
      var r := CaptureIf(u, occupant);
      if i == o {
        RemoveFirstMultiset(u.rosters[o], d);
        assert multiset(r.rosters[o]) == multiset(u.rosters[o]) - multiset{d};
        if b in u.rosters[o] && b != d {
          assert multiset(u.rosters[o])[b] > 0;
          assert multiset(r.rosters[o])[b] > 0;
        }
        if d == b && b in u.rosters[o] {
          MatchesHas(u.rosters[o], b);
        }
        if d == b && multiset(u.rosters[o])[b] <= 1 {
          assert multiset(r.rosters[o])[b] == 0;
        }
      }
    }
  }

  /**
   * Board.movePiece, a storm: the pieces above and below the target on the
   * grid before the move are marked dead as well, and setCapturedPiece has
   * moved each to its owner's graveyard if the roster held it, and out of a
   * roster that held it once.
   */
  lemma MovePieceStorm(w: World, id: nat, x: int, y: int, b: nat)
    requires WF(w) && id < |w.pieces|
    requires GetPiece(w, x, y + 1) == Some(b) || GetPiece(w, x, y - 1) == Some(b)
    ensures var r := MovePiece(w, Some(id), x, y);
      var p := Move(w, id, x, y).w.pieces[id];
      r.value && p.kind == HighTemplar && StormRow(p, y) ==> !r.w.pieces[b].alive
    ensures var r := MovePiece(w, Some(id), x, y);
      var p := Move(w, id, x, y).w.pieces[id];
      var o := PlayerOf(w.pieces[b].color);
      r.value && p.kind == HighTemplar && StormRow(p, y) ==>
        && (b in w.rosters[o] ==> b in r.w.graves[o])
        && (multiset(w.rosters[o])[b] == 1 ==> b !in r.w.rosters[o])
  {
    var m := Move(w, id, x, y);
    var p := m.w.pieces[id];
    if !m.threw && m.value && p.kind == HighTemplar && StormRow(p, y) {
      hide Generate, UpdateMoveList, Rebuild, UpdateBoard, Move;
      var o := PlayerOf(w.pieces[b].color);
      var w1 := CaptureIf(m.w, GetPiece(w, x, y));
      assert GetPiece(w1, x, y + 1) == GetPiece(w, x, y + 1);
      assert GetPiece(w1, x, y - 1) == GetPiece(w, x, y - 1);
      StormKills(w1, x, y, b);
      MoveDecays(w, id, x, y);
      CaptureIfDecays(m.w, GetPiece(w, x, y));
      CaptureTracks(m.w, GetPiece(w, x, y), b, o);
      StormBuries(w1, x, y, b);
    }
  }

  /** The storm captures and the rebuild bury a side casualty and take its last roster copy. */
  lemma StormBuries(w1: World, x: int, y: int, b: nat)
    requires WF(w1)
    requires GetPiece(w1, x, y + 1) == Some(b) || GetPiece(w1, x, y - 1) == Some(b)
    ensures var o := PlayerOf(w1.pieces[b].color);
      var r := UpdateBoard(CaptureIf(CaptureIf(w1, GetPiece(w1, x, y + 1)), GetPiece(w1, x, y - 1))).w;
      && ((b in w1.rosters[o] || b in w1.graves[o]) ==> b in r.graves[o])
      && (multiset(w1.rosters[o])[b] <= 1 ==> b !in r.rosters[o])
  {
    hide Generate, UpdateMoveList, Rebuild;
    var o := PlayerOf(w1.pieces[b].color);
    var behind := GetPiece(w1, x, y + 1);
    var ahead := GetPiece(w1, x, y - 1);
    var w2 := CaptureIf(w1, behind);
    CaptureIfDecays(w1, behind);
    assert w2.pieces[b].color == w1.pieces[b].color;
    CaptureTracks(w1, behind, b, o);
    CaptureTracks(w2, ahead, b, o);
  }

  /** The two storm captures of Board.movePiece, followed by the rebuild. */
  lemma StormKills(w1: World, x: int, y: int, b: nat)
    requires WF(w1)
    requires GetPiece(w1, x, y + 1) == Some(b) || GetPiece(w1, x, y - 1) == Some(b)
    ensures !UpdateBoard(CaptureIf(CaptureIf(w1, GetPiece(w1, x, y + 1)), GetPiece(w1, x, y - 1))).w.pieces[b].alive
  {
    var w2 := CaptureIf(w1, GetPiece(w1, x, y + 1));
    var w3 := CaptureIf(w2, GetPiece(w1, x, y - 1));
    CaptureIfDecays(w2, GetPiece(w1, x, y - 1));
    UpdateBoardDecays(w3);
    if GetPiece(w1, x, y + 1) == Some(b) {
      SetCapturedExact(w1, b);
      assert !w2.pieces[b].alive;
    } else {
      SetCapturedExact(w2, b);
    }
    assert !w3.pieces[b].alive;
  }

  // ------------------------------------------------------------ setUpGame

  /** Some placement of plan from index k on targets the cell (a, b). */
  predicate PlanHit(plan: seq<Placement>, k: nat, a: int, b: int)
  {
    exists m | k <= m < |plan| :: plan[m].x == a && plan[m].y == b
  }

  /** No two placements of plan from index k on target the same cell. */
  predicate PlanDistinct(plan: seq<Placement>, k: nat)
  {
    forall m1, m2 | k <= m1 < |plan| && k <= m2 < |plan| && plan[m1].x == plan[m2].x && plan[m1].y == plan[m2].y ::
      m1 == m2
  }

  /** Placing the pieces leaves alone every cell no placement from index k on names. */
  lemma {:induction false} PlaceCells(w: World, plan: seq<Placement>, k: nat)
    requires WF(w) && Covers(w.cells, SIDE, SIDE) && PlanOnBoard(plan) && k <= |plan|
    requires w.width == SIDE && w.height == SIDE && PlanDistinct(plan, k)
    ensures forall a, b | !PlanHit(plan, k, a, b) :: GetPiece(Place(w, plan, k), a, b) == GetPiece(w, a, b)
    decreases |plan| - k
  {
    hide Put;
    if k < |plan| {
      var p := plan[k];
      var w2 := Put(w, p);
      PlaceCells(w2, plan, k + 1);
      var r := Place(w2, plan, k + 1);
      forall a, b | !PlanHit(plan, k, a, b)
        ensures GetPiece(r, a, b) == GetPiece(w, a, b)
      {
        assert !PlanHit(plan, k + 1, a, b);
        assert (a, b) != (p.x, p.y);
      }
    }
  }

  /** One placement, then the rest. */
  lemma PlaceStep(w: World, plan: seq<Placement>, k: nat)
    requires WF(w) && Covers(w.cells, SIDE, SIDE) && PlanOnBoard(plan) && k < |plan|
    ensures Place(w, plan, k) == Place(Put(w, plan[k]), plan, k + 1)
  {
  }

  /** Placing the pieces puts piece |w.pieces| + m - k on the cell of placement m. */
  lemma {:induction false} PlaceCell(w: World, plan: seq<Placement>, k: nat, m: nat)
    requires WF(w) && Covers(w.cells, SIDE, SIDE) && PlanOnBoard(plan) && k <= m < |plan|
    requires w.width == SIDE && w.height == SIDE && PlanDistinct(plan, k)
    ensures GetPiece(Place(w, plan, k), plan[m].x, plan[m].y) == Some(|w.pieces| + m - k)
    decreases |plan| - k
  {
    hide Put, Place;
    PlaceStep(w, plan, k);
    var w2 := Put(w, plan[k]);
    if m == k {
      assert !PlanHit(plan, k + 1, plan[k].x, plan[k].y);
      PlaceCells(w2, plan, k + 1);
    } else {
      PlaceCell(w2, plan, k + 1, m);
    }
  }

  /** The kind on column x of a back row in the standard array. */
  function BackRank(x: int): Kind
    requires 0 <= x < SIDE
  {
    [Rook, Knight, Bishop, Queen, King, Bishop, Knight, Rook][x]
  }

  /**
   * The standard starting array, as an independent reference: black on rows 0
   * and 1, white on rows 6 and 7, pawns on the inner rows, rows 2-5 empty.
   */
  function Layout(x: int, y: int): Option<(Color, Kind)>
    requires 0 <= x < SIDE && 0 <= y < SIDE
  {
    if y == 1 then Some((Black, Pawn))
    else if y == 6 then Some((White, Pawn))
    else if y == 0 then Some((Black, BackRank(x)))
    else if y == 7 then Some((White, BackRank(x)))
    else None
  }

  /** Where in SetupPlan the placement for an occupied starting cell sits. */
  function Slot(x: int, y: int): nat
    requires 0 <= x < SIDE && 0 <= y < SIDE
  {
    var back := [0, 1, 2, 6, 7, 3, 4, 5][x];
    if y == 1 then x else if y == 6 then 8 + x else if y == 0 then 16 + back else 24 + back
  }

  lemma BackRowSlots(c: Color, row: int, m: nat)
    requires row == 0 || row == 7
    requires m < 8
    ensures var pl := BackRowPlan(c, row)[m];
      && 0 <= pl.x < SIDE && pl.y == row && pl.color == c && pl.kind == BackRank(pl.x)
      && [0, 1, 2, 6, 7, 3, 4, 5][pl.x] == m
  {
  }

  /** Each placement of SetupPlan sits at its cell's slot and agrees with Layout. */
  lemma SetupSlots(m: nat)
    requires m < 32
    ensures var pl := SetupPlan()[m];
      && 0 <= pl.x < SIDE && 0 <= pl.y < SIDE
      && Slot(pl.x, pl.y) == m && Layout(pl.x, pl.y) == Some((pl.color, pl.kind))
  {
    var a, b := PawnPlan(Black, 1), PawnPlan(White, 6);
    var c, d := BackRowPlan(Black, 0), BackRowPlan(White, 7);
    assert SetupPlan() == a + b + c + d;
    if m < 8 {
      assert SetupPlan()[m] == a[m];
    } else if m < 16 {
      assert SetupPlan()[m] == b[m - 8];
    } else if m < 24 {
      assert SetupPlan()[m] == c[m - 16];
      BackRowSlots(Black, 0, m - 16);
    } else {
      assert SetupPlan()[m] == d[m - 24];
      BackRowSlots(White, 7, m - 24);
    }
  }

  /** The cells SetupPlan targets are exactly the occupied cells of Layout, each once. */
  lemma SetupCells()
    ensures PlanDistinct(SetupPlan(), 0)
    ensures forall x, y | 0 <= x < SIDE && 0 <= y < SIDE ::
              PlanHit(SetupPlan(), 0, x, y) <==> Layout(x, y).Some?
    ensures forall x, y | 0 <= x < SIDE && 0 <= y < SIDE && Layout(x, y).Some? ::
              Slot(x, y) < 32 && SetupPlan()[Slot(x, y)].x == x && SetupPlan()[Slot(x, y)].y == y
  {
    var plan := SetupPlan();
    forall m | 0 <= m < 32 ensures Slot(plan[m].x, plan[m].y) == m && Layout(plan[m].x, plan[m].y).Some? {
      SetupSlots(m);
    }
    forall x, y | 0 <= x < SIDE && 0 <= y < SIDE && Layout(x, y).Some?
      ensures Slot(x, y) < 32 && plan[Slot(x, y)].x == x && plan[Slot(x, y)].y == y
    {
      var m := Slot(x, y);
      SetupSlots(m);
      assert m < 32;
      var pl := plan[m];
      // Slot is one-to-one on the occupied rows.
      assert pl.x == x && pl.y == y;
    }
  }

  /** (a, b) comes at or after (col, row) in the column-by-column scan. */
  predicate Ahead(col: int, row: int, a: int, b: int)
  {
    a > col || (a == col && b >= row)
  }

  /** The occupant of (a, b) has joined the roster its row and colour call for. */
  ghost predicate Joined(v: World, a: int, b: int)
    requires Shape(v) && GetPiece(v, a, b).Some?
  {
    var id := GetPiece(v, a, b).value;
    && ((b == 0 || b == 1) && v.pieces[id].color == Black ==> id in v.rosters[PLAYER2])
    && ((b == 6 || b == 7) && v.pieces[id].color == White ==> id in v.rosters[PLAYER1])
  }

  /** No Ghost stands on a cell the scan has still to visit. */
  ghost predicate NoGhostAhead(w: World, col: int, row: int)
    requires Shape(w)
  {
    forall a, b | Ahead(col, row, a, b) && GetPiece(w, a, b).Some? :: w.pieces[GetPiece(w, a, b).value].kind != Ghost
  }

  /** What the scan from (col, row) leaves behind, started from w. */
  ghost predicate Scanned(w: World, col: int, row: int, r: Run)
    requires WF(w) && WF(r.w)
  {
    && r.w.cells == w.cells && r.w.width == w.width && r.w.height == w.height
    && ListsOnly(w.pieces, r.w.pieces)
    && (forall i, id | 0 <= i < 2 && id in w.rosters[i] :: id in r.w.rosters[i])
    && (NoGhostAhead(w, col, row) ==> !r.threw)
    && (!r.threw ==> forall a, b | Ahead(col, row, a, b) && GetPiece(r.w, a, b).Some? :: Joined(r.w, a, b))
  }

  /** A scan from a state one visit further on counts as one from w. */
  lemma ScannedFrom(w: World, v: World, col: int, row: int, r: Run)
    requires WF(w) && WF(v) && WF(r.w) && v.cells == w.cells && v.width == w.width && v.height == w.height
    requires ListsOnly(w.pieces, v.pieces)
    requires forall i, id | 0 <= i < 2 && id in w.rosters[i] :: id in v.rosters[i]
    requires Scanned(v, col, row + 1, r)
    requires GetPiece(w, col, row).Some? ==> Joined(v, col, row)
    requires NoGhostAhead(w, col, row) ==> NoGhostAhead(v, col, row + 1)
    ensures Scanned(w, col, row, r)
  {
    ListsOnlyTrans(w.pieces, v.pieces, r.w.pieces);
    assert forall a, b :: GetPiece(r.w, a, b) == GetPiece(w, a, b) && GetPiece(v, a, b) == GetPiece(w, a, b);
    forall k | 0 <= k < |w.pieces|
      ensures r.w.pieces[k].color == v.pieces[k].color
    {
      assert r.w.pieces[k].(moveList := v.pieces[k].moveList) == v.pieces[k];
    }
  }

  /** The roster choice keeps every member and files the piece as Joined demands. */
  lemma JoinTeamExact(w: World, col: int, row: int, id: nat)
    requires WF(w) && 0 <= col < w.width && 0 <= row < w.height && w.cells[col][row] == Some(id)
    ensures forall i, x | 0 <= i < 2 && x in w.rosters[i] :: x in JoinTeam(w, row, id).rosters[i]
    ensures Joined(JoinTeam(w, row, id), col, row)
  {
    AddToRosterExact(w, PLAYER2, id);
    AddToRosterExact(w, PLAYER1, id);
  }

  /** One visit of the scan, on an occupied cell. */
  lemma ScanVisit(w: World, col: int, row: int, id: nat)
    requires WF(w) && 0 <= col < w.width && 0 <= row < w.height && w.cells[col][row] == Some(id)
    ensures var u := UpdateMoveList(JoinTeam(w, row, id), id);
      && ListsOnly(w.pieces, u.w.pieces)
      && (forall i, x | 0 <= i < 2 && x in w.rosters[i] :: x in u.w.rosters[i])
      && Joined(u.w, col, row)
      && (w.pieces[id].kind != Ghost ==> !u.threw)
      && (NoGhostAhead(w, col, row) ==> NoGhostAhead(u.w, col, row + 1))
  {
    var w1 := JoinTeam(w, row, id);
    JoinTeamExact(w, col, row, id);
    var u := UpdateMoveList(w1, id);
    assert ListsOnly(w.pieces, u.w.pieces);
    assert u.w.pieces[id].(moveList := w.pieces[id].moveList) == w.pieces[id];
    assert GetPiece(u.w, col, row) == GetPiece(w1, col, row);
    assert forall a, b :: GetPiece(u.w, a, b) == GetPiece(w, a, b);
  }

  lemma ScanEnd(w: World, col: int, row: int)
    requires WF(w) && col >= w.width
    ensures Scanned(w, col, row, Run(w, true, false))
  {
    assert ListsOnly(w.pieces, w.pieces);
  }

  lemma ScanRoll(w: World, col: int, row: int, r: Run)
    requires WF(w) && WF(r.w) && row >= w.height && Scanned(w, col + 1, 0, r)
    ensures Scanned(w, col, row, r)
  {
    assert forall a, b :: GetPiece(r.w, a, b) == GetPiece(w, a, b);
  }

  lemma ScanThrown(w: World, col: int, row: int, id: nat, u: Run)
    requires WF(w) && WF(u.w) && 0 <= col < w.width && 0 <= row < w.height && w.cells[col][row] == Some(id)
    requires u.threw && u.w.cells == w.cells && u.w.width == w.width && u.w.height == w.height
    requires ListsOnly(w.pieces, u.w.pieces) && (forall i, x | 0 <= i < 2 && x in w.rosters[i] :: x in u.w.rosters[i])
    requires w.pieces[id].kind != Ghost ==> !u.threw
    ensures Scanned(w, col, row, u)
  {
    assert GetPiece(w, col, row) == Some(id) && Ahead(col, row, col, row);
  }

  /** An empty cell: the scan moves on to the next row. */
  lemma ScanSkip(w: World, col: int, row: int)
    requires WF(w) && 0 <= col < w.width && 0 <= row < w.height && w.cells[col][row].None?
    requires Scanned(w, col, row + 1, TeamLists(w, col, row + 1))
    ensures Scanned(w, col, row, TeamLists(w, col, row))
  {
    assert ListsOnly(w.pieces, w.pieces);
    ScannedFrom(w, w, col, row, TeamLists(w, col, row + 1));
  }

  /** An occupied cell: the piece joins its roster, its list is recomputed, and the scan moves on. */
  lemma ScanOccupied(w: World, col: int, row: int, id: nat)
    requires WF(w) && 0 <= col < w.width && 0 <= row < w.height && w.cells[col][row] == Some(id)
    requires var u := UpdateMoveList(JoinTeam(w, row, id), id);
      !u.threw ==> Scanned(u.w, col, row + 1, TeamLists(u.w, col, row + 1))
    ensures Scanned(w, col, row, TeamLists(w, col, row))
  {
    ScanVisit(w, col, row, id);
    var u := UpdateMoveList(JoinTeam(w, row, id), id);
    if !u.threw {
      ScannedFrom(w, u.w, col, row, TeamLists(u.w, col, row + 1));
    } else {
      ScanThrown(w, col, row, id, u);
    }
  }

  lemma {:induction false} TeamListsExact(w: World, col: nat, row: nat)
    requires WF(w)
    ensures Scanned(w, col, row, TeamLists(w, col, row))
    decreases w.width - col, w.height - row
  {
    hide UpdateMoveList, JoinTeam, Scanned;
    if col >= w.width {
      ScanEnd(w, col, row);
    } else if row >= w.height {
      TeamListsExact(w, col + 1, 0);
      ScanRoll(w, col, row, TeamLists(w, col + 1, 0));
    } else {
      match w.cells[col][row]
      case None =>
        TeamListsExact(w, col, row + 1);
        ScanSkip(w, col, row);
      case Some(id) =>
        var u := UpdateMoveList(JoinTeam(w, row, id), id);
        if !u.threw {
          TeamListsExact(u.w, col, row + 1);
        }
        ScanOccupied(w, col, row, id);
    }
  }

  /** Cell (x, y) after setUpGame holds what Layout says, as a fresh piece on its player's roster. */
  ghost predicate StartCell(w0: World, v: World, x: int, y: int)
    requires Shape(v) && 0 <= x < SIDE && 0 <= y < SIDE
  {
    match Layout(x, y)
    case None => Vacant(v, x, y)
    case Some((c, k)) =>
      && GetPiece(v, x, y).Some?
      && var id := GetPiece(v, x, y).value;
         var p := v.pieces[id];
         && |w0.pieces| <= id
         && p.color == c && p.kind == k && p.pos == Point(x, y)
         && p.alive && p.firstMove == (k == Pawn) && p.energy == 0
         && id in v.rosters[PlayerOf(c)]
  }

  /** A plan laid out as Layout says, one placement per occupied cell, indexed by Slot. */
  ghost predicate LaysOut(plan: seq<Placement>)
  {
    && |plan| == 32 && PlanOnBoard(plan) && PlanDistinct(plan, 0)
    && (forall m | 0 <= m < 32 ::
          && 0 <= plan[m].x < SIDE && 0 <= plan[m].y < SIDE
          && Layout(plan[m].x, plan[m].y) == Some((plan[m].color, plan[m].kind)))
    && (forall x, y | 0 <= x < SIDE && 0 <= y < SIDE ::
          PlanHit(plan, 0, x, y) <==> Layout(x, y).Some?)
    && (forall x, y | 0 <= x < SIDE && 0 <= y < SIDE && Layout(x, y).Some? ::
          Slot(x, y) < 32 && plan[Slot(x, y)].x == x && plan[Slot(x, y)].y == y)
  }

  lemma SetupLaysOut()
    ensures LaysOut(SetupPlan())
  {
    SetupCells();
    forall m | 0 <= m < 32
      ensures Layout(SetupPlan()[m].x, SetupPlan()[m].y) == Some((SetupPlan()[m].color, SetupPlan()[m].kind))
    {
      SetupSlots(m);
    }
  }

  lemma PlacedMiss(w: World, plan: seq<Placement>, x: int, y: int)
    requires WF(w) && w.width == SIDE && w.height == SIDE && Covers(w.cells, SIDE, SIDE)
    requires PlanOnBoard(plan) && PlanDistinct(plan, 0) && !PlanHit(plan, 0, x, y)
    ensures GetPiece(Place(w, plan, 0), x, y) == GetPiece(w, x, y)
  {
    hide Place;
    PlaceCells(w, plan, 0);
  }

  /** An occupied cell of Layout holds, after the placements, the fresh piece its slot made. */
  lemma PlacedSome(w: World, plan: seq<Placement>, x: int, y: int)
    requires WF(w) && w.width == SIDE && w.height == SIDE && Covers(w.cells, SIDE, SIDE)
    requires LaysOut(plan) && 0 <= x < SIDE && 0 <= y < SIDE && Layout(x, y).Some?
    ensures GetPiece(Place(w, plan, 0), x, y) == Some(|w.pieces| + Slot(x, y))
    ensures Place(w, plan, 0).pieces[|w.pieces| + Slot(x, y)] == NewPiece(Layout(x, y).value.0, Layout(x, y).value.1, x, y)
  {
    hide Place;
    var m := Slot(x, y);
    assert m < 32 && plan[m].x == x && plan[m].y == y;
    assert Layout(plan[m].x, plan[m].y) == Some((plan[m].color, plan[m].kind));
    PlaceCell(w, plan, 0, m);
    var v := Place(w, plan, 0);
    assert v.pieces[|w.pieces| + m - 0] == Created(plan[m]);
  }

  /** An empty cell of Layout stays empty through the placements. */
  lemma PlacedNone(w: World, plan: seq<Placement>, x: int, y: int)
    requires WF(w) && w.width == SIDE && w.height == SIDE && Covers(w.cells, SIDE, SIDE)
    requires LaysOut(plan) && 0 <= x < SIDE && 0 <= y < SIDE && Layout(x, y).None? && Vacant(w, x, y)
    ensures Vacant(Place(w, plan, 0), x, y)
  {
    assert !PlanHit(plan, 0, x, y);
    PlacedMiss(w, plan, x, y);
  }

  /** v is w with the pieces of Layout placed: fresh ids on the occupied cells, the rest empty. */
  ghost predicate PlacedAs(w: World, v: World)
    requires Shape(v)
  {
    && (forall a, b | 0 <= a < SIDE && 0 <= b < SIDE && Layout(a, b).Some? ::
          && GetPiece(v, a, b) == Some(|w.pieces| + Slot(a, b))
          && v.pieces[|w.pieces| + Slot(a, b)] == NewPiece(Layout(a, b).value.0, Layout(a, b).value.1, a, b))
    && (forall a, b | 0 <= a < SIDE && 0 <= b < SIDE && Layout(a, b).None? :: Vacant(v, a, b))
  }

  lemma SetupPlaced(w: World, plan: seq<Placement>)
    requires WF(w) && w.width == SIDE && w.height == SIDE && Covers(w.cells, SIDE, SIDE)
    requires forall x, y | 0 <= x < SIDE && 0 <= y < SIDE :: Vacant(w, x, y)
    requires LaysOut(plan)
    ensures PlacedAs(w, Place(w, plan, 0)) && NoGhostAhead(Place(w, plan, 0), 0, 0)
  {
    hide Place;
    var v := Place(w, plan, 0);
    forall a, b | 0 <= a < SIDE && 0 <= b < SIDE && Layout(a, b).Some?
      ensures GetPiece(v, a, b) == Some(|w.pieces| + Slot(a, b))
      ensures v.pieces[|w.pieces| + Slot(a, b)] == NewPiece(Layout(a, b).value.0, Layout(a, b).value.1, a, b)
    {
      PlacedSome(w, plan, a, b);
    }
    forall a, b | 0 <= a < SIDE && 0 <= b < SIDE && Layout(a, b).None?
      ensures Vacant(v, a, b)
    {
      PlacedNone(w, plan, a, b);
    }
    PlacedNoGhost(w, v);
  }

  /** Layout places no Ghost, so neither does a board laid out by it. */
  lemma PlacedNoGhost(w: World, v: World)
    requires Shape(v) && v.width == SIDE && v.height == SIDE && PlacedAs(w, v)
    ensures NoGhostAhead(v, 0, 0)
  {
    hide Layout;
    forall a, b | Ahead(0, 0, a, b) && GetPiece(v, a, b).Some?
      ensures v.pieces[GetPiece(v, a, b).value].kind != Ghost
    {
      LayoutKinds(a, b);
    }
  }

  lemma LayoutKinds(a: int, b: int)
    requires 0 <= a < SIDE && 0 <= b < SIDE
    ensures Layout(a, b).Some? ==> Layout(a, b).value.1 != Ghost
  {
  }

  lemma ScannedStart(w: World, v: World, r: Run, x: int, y: int)
    requires WF(v) && WF(r.w) && PlacedAs(w, v) && Scanned(v, 0, 0, r) && !r.threw
    requires 0 <= x < SIDE && 0 <= y < SIDE
    ensures StartCell(w, r.w, x, y)
  {
    assert GetPiece(r.w, x, y) == GetPiece(v, x, y);
    if Layout(x, y).Some? {
      var id := |w.pieces| + Slot(x, y);
      assert r.w.pieces[id].(moveList := v.pieces[id].moveList) == v.pieces[id];
      assert Ahead(0, 0, x, y) && Joined(r.w, x, y);
    }
  }

  /**
   * Board.setUpGame on a cleared 8 x 8 board: the standard array is laid out,
   * every piece on its owner's roster, and no list computation fails.
   */
  lemma SetUpGameLayout(w: World)
    requires WF(w) && w.width == SIDE && w.height == SIDE && Covers(w.cells, SIDE, SIDE)
    requires forall x, y | 0 <= x < SIDE && 0 <= y < SIDE :: Vacant(w, x, y)
    ensures var r := SetUpGame(w);
      && !r.threw
      && forall x, y | 0 <= x < SIDE && 0 <= y < SIDE :: StartCell(w, r.w, x, y)
  {
    var v := Place(w, SetupPlan(), 0);
    SetupLaysOut();
    SetupPlaced(w, SetupPlan());
    TeamListsExact(v, 0, 0);
    var r := TeamLists(v, 0, 0);
    forall x, y | 0 <= x < SIDE && 0 <= y < SIDE
      ensures StartCell(w, r.w, x, y)
    {
      ScannedStart(w, v, r, x, y);
    }
  }
}
