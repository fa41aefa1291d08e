/**
 * One cell of the board: the reference to the piece on it, if any.  Pieces are
 * named by their index in the board's piece table.
 */
module Spaces {
  import opened Model

  class Space {
    var piece: Option<nat>

    /** Space(piece): the cell holds exactly the piece given, possibly none. */
    constructor (p: Option<nat>)
      ensures piece == p
    {
      piece := p;
    }

    /** Space.addPiece: a piece replaces any occupant; none leaves the cell as it was. */
    method AddPiece(p: Option<nat>)
      modifies this
      ensures piece == if p.Some? then p else old(piece)
    {
      if p.Some? {
        piece := p;
      }
    }

    /** Space.removePiece: the cell is empty afterwards. */
    method RemovePiece()
      modifies this
      ensures piece.None?
    {
      piece := None;
    }

    /** Space.getPiece: the occupant, with nothing changed. */
    method GetPiece() returns (r: Option<nat>)
      ensures r == piece
    {
      r := piece;
    }
  }
}
