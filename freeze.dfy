/** The freeze list: the players who may not move, and whether everyone was frozen at once. */
module Freezing {
  import opened Participants

  /** The set of identifiers of the given players. */
  function UuidsOf(players: seq<Uuid>): (r: set<Uuid>)
    ensures forall u :: u in r <==> exists i :: 0 <= i < |players| && players[i] == u
  {
    set i | 0 <= i < |players| :: players[i]
  }

  class FreezeManager {
    var allFrozen: bool
    var frozen: set<Uuid>

    constructor ()
      ensures !allFrozen && frozen == {}
    {
      allFrozen := false;
      frozen := {};
    }

    /** Freezes every online player and records that everyone is frozen. */
    method FreezeAll(online: seq<Uuid>)
      modifies this
      ensures frozen == old(frozen) + UuidsOf(online)
      ensures allFrozen
    {
      var i := 0;
      while i < |online|
        invariant 0 <= i <= |online|
        invariant frozen == old(frozen) + UuidsOf(online[..i])
      {
        assert UuidsOf(online[..i + 1]) == UuidsOf(online[..i]) + {online[i]} by {
          assert online[..i + 1] == online[..i] + [online[i]];
        }
        frozen := frozen + {online[i]};
        i := i + 1;
      }
      assert online[..i] == online;
      allFrozen := true;
    }

    /** Unfreezes everyone. */
    method UnfreezeAll()
      modifies this
      ensures frozen == {} && !allFrozen
    {
      frozen := {};
      allFrozen := false;
    }

    /** Freezes the player; true iff the player was not frozen before. */
    method Freeze(player: Uuid) returns (r: bool)
      modifies this
      ensures r <==> player !in old(frozen)
      ensures frozen == old(frozen) + {player} && allFrozen == old(allFrozen)
      ensures IsFrozen(player)
    {
      r := player !in frozen;
      frozen := frozen + {player};
    }

    /** Unfreezes the player; true iff the player was frozen before. */
    method Unfreeze(player: Uuid) returns (r: bool)
      modifies this
      ensures r <==> old(IsFrozen(player))
      ensures frozen == old(frozen) - {player} && allFrozen == old(allFrozen)
      ensures !IsFrozen(player)
    {
      r := player in frozen;
      frozen := frozen - {player};
    }

    function IsAllFrozen(): (r: bool)
      reads this
      ensures r == allFrozen
    {
      allFrozen
    }

    /** Whether the player is frozen. */
    function IsFrozen(player: Uuid): (r: bool)
      reads this
      ensures r <==> player in frozen
    {
      player in frozen
    }
  }
}
