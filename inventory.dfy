/** The student menu: a single-chest inventory of 27 slots, each holding an item or nothing. */
module Inventories {
  import opened Wrappers
  import opened Errors

  /** A menu item: its material and display text. Actions are not modelled. */
  datatype Item = Item(material: string, description: string)

  const SIZE: int := 27

  class InventoryMenu {
    const items: array<Option<Item>>

    /** A menu of 27 slots, all unset. */
    constructor ()
      ensures fresh(items) && items.Length == SIZE
      ensures forall i :: 0 <= i < SIZE ==> items[i] == None
    {
      items := new Option<Item>[SIZE](_ => None);
    }

    /** Puts the item in the slot and answers the menu itself; a slot outside 0 to 26 is an index error. */
    method PutItem(item: Item, slot: int) returns (r: Result<InventoryMenu, Error>)
      requires items.Length == SIZE
      modifies items
      ensures r.Failure? <==> slot < 0 || slot >= SIZE
      ensures r.Failure? ==> r.error == IndexOutOfRange && items[..] == old(items[..])
      ensures r.Success? ==> r.value == this && items[..] == old(items[..])[slot := Some(item)]
    {
      if slot < 0 || slot >= SIZE {
        return Failure(IndexOutOfRange);
      }
      items[slot] := Some(item);
      return Success(this);
    }

    /** The item in a slot, if any; a slot outside 0 to 26 is an index error. */
    function GetItem(slot: int): (r: Result<Option<Item>, Error>)
      requires items.Length == SIZE
      reads items
      ensures r.Failure? <==> slot < 0 || slot >= SIZE
      ensures r.Failure? ==> r.error == IndexOutOfRange
      ensures 0 <= slot < SIZE ==> r == Success(items[slot])
    {
      if slot < 0 || slot >= SIZE then Failure(IndexOutOfRange) else Success(items[slot])
    }
  }

  /** The student menu: the home item at slot 12, the spawn item at slot 14, nothing elsewhere. */
  method StudentMenu(home: Item, spawn: Item) returns (m: InventoryMenu)
    ensures fresh(m) && fresh(m.items) && m.items.Length == SIZE
    ensures forall i :: 0 <= i < SIZE ==>
              m.GetItem(i) == Success(if i == 12 then Some(home) else if i == 14 then Some(spawn) else None)
  {
    m := new InventoryMenu();
    var r := m.PutItem(home, 12);
    r := m.PutItem(spawn, 14);
  }
}
