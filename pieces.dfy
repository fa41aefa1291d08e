/** The read-only queries of Piece that walk its move list. */
module Pieces {
  import opened Model

  /** Piece.canMoveTo: a linear search of the move list for (x, y). */
  method CanMoveTo(p: Piece, x: int, y: int) returns (b: bool)
    ensures b <==> exists i | 0 <= i < |p.moveList| :: p.moveList[i] == Point(x, y)
    ensures b == Listed(p, x, y)
  {
    var i := 0;
    while i < |p.moveList|
      invariant 0 <= i <= |p.moveList|
      invariant forall k | 0 <= k < i :: p.moveList[k] != Point(x, y)
    {
      var possible := p.moveList[i];
      if possible.x == x && possible.y == y {
        return true;
      }
      i := i + 1;
    }
    return false;
  }
}
