/**
 * A player: a fixed colour, the roster of live pieces and the graveyard, both
 * lists of piece ids that the methods change in place.
 */
module Players {
  import opened Model

  class Player {
    const color: Color
    var roster: seq<nat>
    var graveyard: seq<nat>

    /** Player(color): both lists start empty. */
    constructor (c: Color)
      ensures color == c && roster == [] && graveyard == []
    {
      color := c;
      roster := [];
      graveyard := [];
    }

    /**
     * Player.addToRoster: a piece of the player's own colour is appended; a
     * piece of the other colour is ignored.  `pieceColor` is the colour of
     * piece `id`.
     */
    method AddToRoster(id: nat, pieceColor: Color)
      modifies this
      ensures roster == if pieceColor == color then old(roster) + [id] else old(roster)
      ensures graveyard == old(graveyard)
    {
      if pieceColor == color {
        roster := roster + [id];
      }
    }

    /** Position of the first occurrence of id in the roster, |roster| if there is none. */
    method IndexOf(id: nat) returns (k: nat)
      ensures k <= |roster|
      ensures forall m | 0 <= m < k :: roster[m] != id
      ensures k < |roster| ==> roster[k] == id
    {
      k := 0;
      while k < |roster| && roster[k] != id
        invariant k <= |roster|
        invariant forall m | 0 <= m < k :: roster[m] != id
      {
        k := k + 1;
      }
    }

    /** Player.removeFromTeam, ArrayList.remove(Object): the first occurrence goes, if there is one. */
    method RemoveFromTeam(id: nat)
      modifies this
      ensures roster == RemoveFirst(old(roster), id)
      ensures graveyard == old(graveyard)
    {
      var k := IndexOf(id);
      ghost var s := roster;
      SplitAtFirst(s, id, k);
      if k < |roster| {
        roster := roster[..k] + roster[k + 1..];
      }
    }

    /**
     * Player.getCaptured: the loop adds id to the graveyard once for each time
     * the roster holds it, then the first occurrence leaves the roster.
     */
    method GetCaptured(id: nat)
      modifies this
      ensures graveyard == old(graveyard) + Matches(old(roster), id)
      ensures roster == RemoveFirst(old(roster), id)
    {
      var i := 0;
      while i < |roster|
        invariant i <= |roster| && roster == old(roster)
        invariant graveyard == old(graveyard) + Matches(roster[..i], id)
      {
        MatchesNext(roster, i, id);
        if id == roster[i] {
          ConcatAssoc(old(graveyard), Matches(roster[..i], id), [id]);
          graveyard := graveyard + [id];
        }
        i := i + 1;
      }
      assert roster[..i] == roster;
      RemoveFromTeam(id);
    }

    /** Player.clearTeam: the roster empties, the graveyard stays. */
    method ClearTeam()
      modifies this
      ensures roster == [] && graveyard == old(graveyard)
    {
      roster := [];
    }

    /** Player.getFromRoster: none outside 0..size-1, the index-th id otherwise. */
    method GetFromRoster(index: int) returns (r: Option<nat>)
      ensures r.Some? <==> 0 <= index < |roster|
      ensures r.Some? ==> r.value == roster[index]
    {
      if index >= |roster| || index < 0 {
        r := None;
      } else {
        r := Some(roster[index]);
      }
    }

    /** Player.getRosterSize. */
    method GetRosterSize() returns (n: nat)
      ensures n == |roster|
    {
      n := |roster|;
    }
  }

  /** Cutting a sequence around the first occurrence of x is RemoveFirst. */
  lemma {:induction false} SplitAtFirst(s: seq<nat>, x: nat, k: nat)
    requires k <= |s| && (forall m | 0 <= m < k :: s[m] != x) && (k < |s| ==> s[k] == x)
    ensures RemoveFirst(s, x) == if k < |s| then s[..k] + s[k + 1..] else s
    decreases k
  {
    if k == 0 {
      if k < |s| {
        assert s[..0] + s[1..] == s[1..];
      }
    } else {
      assert s[0] != x;
      SplitAtFirst(s[1..], x, k - 1);
      if k < |s| {
        assert s[..k] + s[k + 1..] == [s[0]] + (s[1..][..k - 1] + s[1..][k..]);
      } else {
        assert x !in s by {
          forall m | 0 <= m < |s| ensures s[m] != x { }
        }
      }
    }
  }
}
