/**
 * Shared vocabulary of the chess engine: colours, piece kinds, board points, the
 * piece record and the value of a whole board (grid, piece table, rosters and
 * graveyards) that the engine functions transform.
 *
 * Pieces are shared references in the Java program: the same object sits in a
 * board cell, in a roster or graveyard and in the undo memento.  Here every piece
 * lives in one table and is named by its index (its id); a cell holds an
 * `Option<nat>` id and a roster a `seq<nat>` of ids, so reference identity is id
 * equality.
 */
module Model {

  datatype Option<T> = None | Some(value: T)

  datatype Color = White | Black

  datatype Kind = Pawn | Knight | Bishop | Rook | Queen | King | HighTemplar | Ghost

  /** java.awt.Point reduced to an integer pair with value equality. */
  datatype Point = Point(x: int, y: int)

  /** Board.GLOBAL_BOARD_SIDE_LENGTH: every move generator bounds-checks against it. */
  const SIDE: int := 8
  /** Board.MIN_SIDE_LENGTH: the sized board constructor never goes below it. */
  const MIN_SIDE: int := 4
  /** Ghost.MAX_RANGE: a snipe scan looks at distances 1 .. MAX_RANGE - 1. */
  const MAX_RANGE: int := 5
  /** No generator lists more cells than this (eight rays of at most eight cells). */
  const MAX_MOVES: int := 64
  /** Game.PLAYER1 and Game.PLAYER2, the indices of the two players. */
  const PLAYER1: int := 0
  const PLAYER2: int := 1

  /** Math.abs, without the overflow of Integer.MIN_VALUE. */
  function Abs(n: int): nat
  {
    if n < 0 then -n else n
  }

  predicate OnBoard(x: int, y: int)
  {
    0 <= x < SIDE && 0 <= y < SIDE
  }

  /**
   * The state of one piece.  `firstMove` is the Pawn field and `energy` the High
   * Templar field; pieces of the other kinds carry them untouched.
   */
  datatype Piece = Piece(color: Color, kind: Kind, pos: Point, alive: bool,
                         moveList: seq<Point>, firstMove: bool, energy: int)

  /** The constructors of Piece and of its subclasses. */
  function NewPiece(color: Color, kind: Kind, x: int, y: int): (p: Piece)
    ensures p.color == color && p.kind == kind && p.pos == Point(x, y)
    ensures p.alive && p.moveList == []
    ensures kind == Pawn ==> p.firstMove
    ensures kind == HighTemplar ==> p.energy == 0
  {
    Piece(color, kind, Point(x, y), true, [], kind == Pawn, 0)
  }

  /** Piece.isEnemy. */
  predicate IsEnemy(me: Piece, other: Piece)
  {
    other.color != me.color
  }

  lemma EnemyRelation(a: Piece, b: Piece)
    ensures !IsEnemy(a, a)
    ensures IsEnemy(a, b) == IsEnemy(b, a)
    ensures IsEnemy(a, b) <==> a.color != b.color
  {
  }

  /** Piece.isInMoveList: the point (x, y) is an entry of the stored move list. */
  predicate Listed(p: Piece, x: int, y: int)
  {
    Point(x, y) in p.moveList
  }

  /** Piece.getMove: the entry at `index`, or none (Java null) outside the list. */
  function GetMove(p: Piece, index: int): (r: Option<Point>)
    ensures r.Some? <==> 0 <= index < |p.moveList|
    ensures r.Some? ==> r.value == p.moveList[index]
  {
    if 0 <= index < |p.moveList| then Some(p.moveList[index]) else None
  }

  /** The colour of player i: the Game constructor makes player[0] white and player[1] black. */
  function PlayerColor(i: int): Color
    requires 0 <= i < 2
  {
    if i == PLAYER1 then White else Black
  }

  /** Index of the player of colour c; Game.findPlayer always finds it. */
  function PlayerOf(c: Color): (i: nat)
    ensures i < 2 && PlayerColor(i) == c
  {
    match c
    case White => PLAYER1
    case Black => PLAYER2
  }

  /**
   * A whole board.  `cells[x][y]` is the Space array entry for column x, row y;
   * Board.width and Board.height bound the area every Board query reads, and the
   * array covers at least that area (after Board.reset it is 8 x 8 whatever the
   * two fields say).  `rosters[i]` and `graves[i]` are the teamRoster and
   * graveyard of player i.
   */
  datatype World = World(width: int, height: int, cells: seq<seq<Option<nat>>>,
                         pieces: seq<Piece>, rosters: seq<seq<nat>>, graves: seq<seq<nat>>)

  predicate IdsIn(s: seq<nat>, n: nat)
  {
    forall id | id in s :: id < n
  }

  /** The grid has at least n columns of at least m cells each. */
  ghost predicate Covers(cells: seq<seq<Option<nat>>>, n: int, m: int)
  {
    n <= |cells| && forall x | 0 <= x < |cells| :: m <= |cells[x]|
  }

  /** Two grids with the same array dimensions. */
  predicate SameDims(a: seq<seq<Option<nat>>>, b: seq<seq<Option<nat>>>)
  {
    |a| == |b| && forall x | 0 <= x < |a| :: |a[x]| == |b[x]|
  }

  lemma SameDimsTrans(a: seq<seq<Option<nat>>>, b: seq<seq<Option<nat>>>, c: seq<seq<Option<nat>>>)
    requires SameDims(a, b) && SameDims(b, c)
    ensures SameDims(a, c)
  {
  }

  lemma CoversSameDims(a: seq<seq<Option<nat>>>, b: seq<seq<Option<nat>>>, n: int, m: int)
    requires SameDims(a, b) && Covers(a, n, m)
    ensures Covers(b, n, m)
  {
  }

  /**
   * Every id in `w` names a piece of the table, and the grid covers the
   * width x height area that Board.getPiece reads.
   */
  ghost predicate Shape(w: World)
  {
    && 0 <= w.width && 0 <= w.height
    && Covers(w.cells, w.width, w.height)
    && (forall x, y | 0 <= x < |w.cells| && 0 <= y < |w.cells[x]| ::
          w.cells[x][y].Some? ==> w.cells[x][y].value < |w.pieces|)
    && |w.rosters| == 2 && |w.graves| == 2
    && IdsIn(w.rosters[0], |w.pieces|) && IdsIn(w.rosters[1], |w.pieces|)
    && IdsIn(w.graves[0], |w.pieces|) && IdsIn(w.graves[1], |w.pieces|)
  }

  predicate ListsBounded(pieces: seq<Piece>)
  {
    forall k | 0 <= k < |pieces| :: |pieces[k].moveList| <= MAX_MOVES
  }

  /** Player.addToRoster admits only pieces of the player's own colour. */
  ghost predicate RostersColored(w: World)
    requires Shape(w)
  {
    forall i, id | 0 <= i < 2 && id in w.rosters[i] :: w.pieces[id].color == PlayerColor(i)
  }

  /** The invariant every engine operation keeps. */
  ghost predicate WF(w: World)
  {
    Shape(w) && ListsBounded(w.pieces) && RostersColored(w)
  }

  /** Board.getPiece: the occupant id, or none off the width x height area. */
  function GetPiece(w: World, x: int, y: int): (r: Option<nat>)
    requires Shape(w)
    ensures r.Some? ==> 0 <= x < w.width && 0 <= y < w.height && r.value < |w.pieces|
  {
    if x < 0 || y < 0 || x >= w.width || y >= w.height then None else w.cells[x][y]
  }

  predicate Vacant(w: World, x: int, y: int)
    requires Shape(w)
  {
    GetPiece(w, x, y).None?
  }

  /** The cell holds a piece whose colour is not c (Piece.isEnemy of an occupant). */
  predicate HoldsEnemy(w: World, c: Color, x: int, y: int)
    requires Shape(w)
  {
    GetPiece(w, x, y).Some? && w.pieces[GetPiece(w, x, y).value].color != c
  }

  predicate HoldsAlly(w: World, c: Color, x: int, y: int)
    requires Shape(w)
  {
    GetPiece(w, x, y).Some? && w.pieces[GetPiece(w, x, y).value].color == c
  }

  lemma CellCases(w: World, c: Color, x: int, y: int)
    requires Shape(w)
    ensures Vacant(w, x, y) || HoldsEnemy(w, c, x, y) || HoldsAlly(w, c, x, y)
    ensures !(Vacant(w, x, y) && HoldsEnemy(w, c, x, y))
    ensures !(Vacant(w, x, y) && HoldsAlly(w, c, x, y))
    ensures !(HoldsEnemy(w, c, x, y) && HoldsAlly(w, c, x, y))
  {
  }

  /** The grid with one array entry replaced. */
  function SetCell(w: World, x: int, y: int, v: Option<nat>): (r: World)
    requires Shape(w) && 0 <= x < |w.cells| && 0 <= y < |w.cells[x]|
    requires v.Some? ==> v.value < |w.pieces|
    ensures Shape(r) && r.pieces == w.pieces && r.rosters == w.rosters && r.graves == w.graves
    ensures r.width == w.width && r.height == w.height
    ensures SameDims(r.cells, w.cells)
    ensures r.cells[x][y] == v
    ensures 0 <= x < w.width && 0 <= y < w.height ==> GetPiece(r, x, y) == v
    ensures forall a, b | (a, b) != (x, y) :: GetPiece(r, a, b) == GetPiece(w, a, b)
  {
    w.(cells := w.cells[x := w.cells[x][y := v]])
  }

  /** The piece table with piece `id` replaced. */
  function SetPieceAt(w: World, id: nat, p: Piece): (r: World)
    requires Shape(w) && id < |w.pieces|
    ensures Shape(r) && |r.pieces| == |w.pieces| && r.pieces[id] == p
    ensures forall k | 0 <= k < |w.pieces| && k != id :: r.pieces[k] == w.pieces[k]
    ensures r.cells == w.cells && r.rosters == w.rosters && r.graves == w.graves
    ensures r.width == w.width && r.height == w.height
  {
    w.(pieces := w.pieces[id := p])
  }

  /** ArrayList.remove(Object): drop the first occurrence of x, if any. */
  function RemoveFirst(s: seq<nat>, x: nat): (r: seq<nat>)
    ensures x !in s ==> r == s
    ensures x in s ==> |r| == |s| - 1
    ensures forall y :: y in r ==> y in s
    decreases |s|
  {
    if s == [] then []
    else if s[0] == x then s[1..]
    else [s[0]] + RemoveFirst(s[1..], x)
  }

  /** One copy of x for every occurrence of x in s, as Player.getCaptured's loop adds them. */
  function Matches(s: seq<nat>, x: nat): (r: seq<nat>)
    ensures forall y :: y in r ==> y == x
    ensures |r| <= |s|
    ensures x !in s <==> r == []
    decreases |s|
  {
    if s == [] then []
    else Matches(s[..|s| - 1], x) + (if s[|s| - 1] == x then [x] else [])
  }

  /** One more entry scanned: Matches grows by that entry if it is x. */
  lemma MatchesNext(s: seq<nat>, i: nat, x: nat)
    requires i < |s|
    ensures Matches(s[..i + 1], x) == Matches(s[..i], x) + (if s[i] == x then [x] else [])
  {
    assert s[..i + 1][..i] == s[..i];
  }

  /**
   * The outcome of an engine operation: the board afterwards, the Java return
   * value, and whether the Java code would have thrown a NullPointerException.
   * When `threw` holds, `w` is the board as it stood at the throw (every change
   * made before it persists) and `value` is false.
   */
  datatype Run = Run(w: World, value: bool, threw: bool)

  /** Concatenation regroups freely. */
  lemma ConcatAssoc<T>(a: seq<T>, b: seq<T>, c: seq<T>)
    ensures a + b + c == a + (b + c)
  {
  }
}
