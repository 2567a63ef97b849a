/**
 * The feature menu: a chest inventory of 1 to 6 rows of 9 slots, every slot holding an item, and
 * the standard menu built for a player.
 */
module Menus {
  import opened Wrappers
  import opened Errors
  import opened Participants

  /** A menu item: its material, its display text and whether it glows. Actions are not modelled. */
  datatype Item = Item(material: string, description: string, glowing: bool)

  /** The filler shown where an item is disabled or the teleport row has no player. */
  const PLACEHOLDER: Item := Item("GRAY_STAINED_GLASS_PANE", " ", false)
  /** The filler every slot starts with. */
  const EMPTY: Item := Item("WHITE_STAINED_GLASS_PANE", " ", false)

  const SLOTS_PER_ROW: int := 9
  const MAX_ROWS: int := 6
  /** The slot number that stands for a click outside the inventory. */
  const OUTSIDE_SLOT: int := -999
  /** The first slot of the teleport rows and how many slots they have. */
  const TELEPORT_FIRST_SLOT: int := 27
  const TELEPORT_SLOTS: int := 27

  /** The players other than the one the menu is for, in order. */
  function Others(online: seq<Uuid>, player: Uuid): (r: seq<Uuid>)
    ensures |r| <= |online|
    ensures forall i :: 0 <= i < |r| ==> r[i] != player && r[i] in online
    ensures forall u :: u in online && u != player ==> u in r
  {
    if online == [] then []
    else (if online[0] == player then [] else [online[0]]) + Others(online[1..], player)
  }

  /** At most the first `n` elements. */
  function Limit(xs: seq<Item>, n: nat): (r: seq<Item>)
    ensures |r| == if |xs| <= n then |xs| else n
    ensures forall i :: 0 <= i < |r| ==> r[i] == xs[i]
  {
    if |xs| <= n then xs else xs[..n]
  }

  /**
   * The layout of the standard menu: home, spawn and accept items at slots 11, 13 and 15; the
   * teleport items from slot 27 on, in order; placeholders after them to the end of the sixth
   * row; every other slot empty.
   */
  function EasyLayout(home: Item, spawn: Item, accept: Item, teleports: seq<Item>): (r: seq<Item>)
    requires |teleports| <= TELEPORT_SLOTS
    ensures |r| == MAX_ROWS * SLOTS_PER_ROW
  {
    seq(MAX_ROWS * SLOTS_PER_ROW, i requires 0 <= i < MAX_ROWS * SLOTS_PER_ROW =>
      if i == 11 then home
      else if i == 13 then spawn
      else if i == 15 then accept
      else if TELEPORT_FIRST_SLOT <= i < TELEPORT_FIRST_SLOT + |teleports| then teleports[i - TELEPORT_FIRST_SLOT]
      else if TELEPORT_FIRST_SLOT + |teleports| <= i then PLACEHOLDER
      else EMPTY)
  }

  /** The bottom three rows of the standard menu hold the teleport items in order, then placeholders only. */
  lemma EasyLayoutBottom(home: Item, spawn: Item, accept: Item, teleports: seq<Item>)
    requires |teleports| <= TELEPORT_SLOTS
    ensures var layout := EasyLayout(home, spawn, accept, teleports);
            && layout[TELEPORT_FIRST_SLOT..TELEPORT_FIRST_SLOT + |teleports|] == teleports
            && forall i :: TELEPORT_FIRST_SLOT + |teleports| <= i < |layout| ==> layout[i] == PLACEHOLDER
  {
    var layout := EasyLayout(home, spawn, accept, teleports);
    assert forall k :: 0 <= k < |teleports| ==> layout[TELEPORT_FIRST_SLOT + k] == teleports[k];
  }

  class InventoryMenu {
    const items: array<Item>
    const title: string

    /** A menu of `rows` rows, every slot empty. */
    constructor (title: string, rows: int)
      requires 1 <= rows <= MAX_ROWS
      ensures fresh(items) && this.title == title
      ensures items.Length == rows * SLOTS_PER_ROW
      ensures forall i :: 0 <= i < items.Length ==> items[i] == EMPTY
    {
      this.title := title;
      items := new Item[rows * SLOTS_PER_ROW](_ => EMPTY);
    }

    /** The constructor as the code calls it: a row count outside 1 to 6 is an index error. */
    static method Create(title: string, rows: int) returns (r: Result<InventoryMenu, Error>)
      ensures r.Failure? <==> rows < 1 || rows > MAX_ROWS
      ensures r.Failure? ==> r.error == IndexOutOfRange
      ensures r.Success? ==> fresh(r.value) && fresh(r.value.items) && r.value.title == title
                             && r.value.items[..] == seq(rows * SLOTS_PER_ROW, _ => EMPTY)
    {
      if rows < 1 || rows > MAX_ROWS {
        return Failure(IndexOutOfRange);
      }
      var m := new InventoryMenu(title, rows);
      return Success(m);
    }

    /** Puts the item in the slot and answers the menu itself; a slot outside the menu is an index error. */
    method PutItem(item: Item, slot: int) returns (r: Result<InventoryMenu, Error>)
      modifies items
      ensures r.Failure? <==> slot < 0 || slot >= items.Length
      ensures r.Failure? ==> r.error == IndexOutOfRange && items[..] == old(items[..])
      ensures r.Success? ==> r.value == this && items[..] == old(items[..])[slot := item]
    {
      if slot < 0 || slot >= items.Length {
        return Failure(IndexOutOfRange);
      }
      items[slot] := item;
      return Success(this);
    }

    /** The item in a slot: nothing for a click outside, an index error for any other slot outside the menu. */
    function GetItem(slot: int): (r: Result<Option<Item>, Error>)
      reads items
      ensures slot == OUTSIDE_SLOT ==> r == Success(None)
      ensures slot != OUTSIDE_SLOT ==> (r.Failure? <==> slot < 0 || slot >= items.Length)
      ensures r.Failure? ==> r.error == IndexOutOfRange
      ensures 0 <= slot < items.Length ==> r == Success(Some(items[slot]))
    {
      if slot == OUTSIDE_SLOT then Success(None)
      else if slot < 0 || slot >= items.Length then Failure(IndexOutOfRange)
      else Success(Some(items[slot]))
    }
  }

  /**
   * The standard menu for a player: six rows, the three fixed items, one teleport item for each
   * of the first 27 other online players (the item for each is given), placeholders after them.
   */
  method EasyMenu(player: Uuid, home: Item, spawn: Item, accept: Item, online: seq<Uuid>, teleportItem: Uuid -> Item)
    returns (m: InventoryMenu)
    ensures fresh(m) && fresh(m.items)
    ensures var others := Others(online, player);
            var teleports := Limit(seq(|others|, i requires 0 <= i < |others| => teleportItem(others[i])), TELEPORT_SLOTS);
            m.items[..] == EasyLayout(home, spawn, accept, teleports)
  {
    var others := Others(online, player);
    var teleports := Limit(seq(|others|, i requires 0 <= i < |others| => teleportItem(others[i])), TELEPORT_SLOTS);
    m := new InventoryMenu("Workshop Menu", MAX_ROWS);
    FillEasy(m, home, spawn, accept, teleports);
  }

  /** Fills a fresh six-row menu with the standard layout for the given teleport items. */
  method FillEasy(m: InventoryMenu, home: Item, spawn: Item, accept: Item, teleports: seq<Item>)
    requires |teleports| <= TELEPORT_SLOTS && m.items.Length == MAX_ROWS * SLOTS_PER_ROW
    requires forall k :: 0 <= k < m.items.Length ==> m.items[k] == EMPTY
    modifies m.items
    ensures m.items[..] == EasyLayout(home, spawn, accept, teleports)
  {
    ghost var layout := EasyLayout(home, spawn, accept, teleports);
    var put := m.PutItem(home, 11);
    put := m.PutItem(spawn, 13);
    put := m.PutItem(accept, 15);
    var i := 0;
    while i < |teleports|
      invariant 0 <= i <= |teleports| && m.items.Length == |layout|
      invariant forall k :: 0 <= k < TELEPORT_FIRST_SLOT + i ==> m.items[k] == layout[k]
      invariant forall k :: TELEPORT_FIRST_SLOT + i <= k < m.items.Length ==> m.items[k] == EMPTY
    {
      put := m.PutItem(teleports[i], TELEPORT_FIRST_SLOT + i);
      i := i + 1;
    }
    while i < TELEPORT_SLOTS
      invariant |teleports| <= i <= TELEPORT_SLOTS && m.items.Length == |layout|
      invariant forall k :: 0 <= k < TELEPORT_FIRST_SLOT + i ==> m.items[k] == layout[k]
    {
      put := m.PutItem(PLACEHOLDER, TELEPORT_FIRST_SLOT + i);
      i := i + 1;
    }
    assert m.items[..] == layout;
  }
}
