/**
 * The freeze feature's list: like the plain freeze list, but staff players cannot be frozen,
 * and unfreezing everyone first unfreezes each online player before emptying the list.
 */
module FeatureFreezing {
  import opened Participants

  /** An online player: its identifier and whether it holds the staff permission. */
  datatype Player = Player(uuid: Uuid, isStaff: bool)

  /** The identifiers of the given players that are not staff. */
  function NonStaffUuids(players: seq<Player>): (r: set<Uuid>)
    ensures forall u :: u in r <==> exists i :: 0 <= i < |players| && !players[i].isStaff && players[i].uuid == u
  {
    set i | 0 <= i < |players| && !players[i].isStaff :: players[i].uuid
  }

  /** The identifiers of the given players. */
  function AllUuids(players: seq<Player>): (r: set<Uuid>)
    ensures forall u :: u in r <==> exists i :: 0 <= i < |players| && players[i].uuid == u
  {
    set i | 0 <= i < |players| :: players[i].uuid
  }

  class FreezeManager {
    var allFrozen: bool
    var frozen: set<Uuid>

    constructor ()
      ensures !allFrozen && frozen == {}
    {
      allFrozen := false;
      frozen := {};
    }

    /** Freezes a player: staff are refused and nothing changes; otherwise true iff newly frozen. */
    method Freeze(player: Player) returns (r: bool)
      modifies this
      ensures player.isStaff ==> !r && frozen == old(frozen)
      ensures !player.isStaff ==> (r <==> player.uuid !in old(frozen)) && frozen == old(frozen) + {player.uuid}
      ensures allFrozen == old(allFrozen)
    {
      if player.isStaff {
        return false;
      }
      r := player.uuid !in frozen;
      frozen := frozen + {player.uuid};
    }

    /** Unfreezes a player; true iff the player was frozen. */
    method Unfreeze(player: Player) returns (r: bool)
      modifies this
      ensures r <==> player.uuid in old(frozen)
      ensures frozen == old(frozen) - {player.uuid} && allFrozen == old(allFrozen)
    {
      r := player.uuid in frozen;
      frozen := frozen - {player.uuid};
    }

    /** Freezes every online player that is not staff, then records that everyone is frozen. */
    method FreezeAll(online: seq<Player>)
      modifies this
      ensures frozen == old(frozen) + NonStaffUuids(online)
      ensures forall i :: 0 <= i < |online| && !online[i].isStaff ==> IsFrozen(online[i].uuid)
      ensures allFrozen
    {
      var i := 0;
      while i < |online|
        invariant 0 <= i <= |online|
        invariant frozen == old(frozen) + NonStaffUuids(online[..i])
      {
        assert online[..i + 1] == online[..i] + [online[i]];
        assert NonStaffUuids(online[..i + 1]) ==
               NonStaffUuids(online[..i]) + (if online[i].isStaff then {} else {online[i].uuid});
        var _ := Freeze(online[i]);
        i := i + 1;
      }
      assert online[..i] == online;
      allFrozen := true;
    }

    /** Unfreezes each online player in turn, then empties the list and clears the flag. */
    method UnfreezeAll(online: seq<Player>)
      modifies this
      ensures frozen == {} && !allFrozen
    {
      var i := 0;
      while i < |online|
        invariant 0 <= i <= |online|
        invariant frozen == old(frozen) - AllUuids(online[..i])
      {
        assert online[..i + 1] == online[..i] + [online[i]];
        assert AllUuids(online[..i + 1]) == AllUuids(online[..i]) + {online[i].uuid};
        var _ := Unfreeze(online[i]);
        i := i + 1;
      }
      frozen := {};
      allFrozen := false;
    }

    function IsAllFrozen(): (r: bool)
      reads this
      ensures r == allFrozen
    {
      allFrozen
    }

    /** Whether the player is frozen. */
    function IsFrozen(uuid: Uuid): (r: bool)
      reads this
      ensures r <==> uuid in frozen
    {
      uuid in frozen
    }
  }
}
