/** The PickupObjects holder: the same held-item list as ItemManager, without
    any notion of an active item. */
module PickupRegistry {
  import opened Common
  import opened ListOps

  class PickupObjects {
    /** Which game objects carry which pickup behaviours. */
    const components: Components
    /** The holder's own game object, handed to SetOwner. */
    const holder: HolderRef
    /** The items held, in pickup order. */
    var itemsHeld: seq<ItemId>

    /** Start: the held list begins empty. */
    constructor (components: Components, holder: HolderRef)
      ensures this.components == components && this.holder == holder
      ensures itemsHeld == []
    {
      this.components := components;
      this.holder := holder;
      itemsHeld := [];
    }

    /** IPickup.HasItem: identity membership through SingleOrDefault. */
    function HasItem(item: ItemId): (r: Result<bool>)
      reads this
      ensures r.Ok? <==> multiset(itemsHeld)[item] <= 1
      ensures r.Ok? ==> (r.value <==> item in itemsHeld)
    {
      FindSingle(itemsHeld, item)
    }

    /** Appends the item and hands it this owner; throws when the object has
      no pickupable behaviour (after the append). No enabled state is kept. */
    method Pickup(item: ItemId) returns (r: Outcome)
      modifies this`itemsHeld
      ensures itemsHeld == old(itemsHeld) + [item]
      ensures r == if components.Pickupable(item) then Pass else Fail(NoPickupableComponent)
    {
      itemsHeld := itemsHeld + [item];
      r := if components.Pickupable(item) then Pass else Fail(NoPickupableComponent);
    }

    /** Removes the first occurrence of the item; an item not held is a
      logic error. */
    method Drop(item: ItemId) returns (r: Outcome)
      modifies this`itemsHeld
      ensures itemsHeld == Remove(old(itemsHeld), item)
      ensures r == if item in old(itemsHeld) then Pass else Fail(RemoveFailed)
    {
      var found := item in itemsHeld;
      itemsHeld := Remove(itemsHeld, item);
      r := if found then Pass else Fail(RemoveFailed);
    }
  }

  /** Pickup of an item not held, then Drop of it: in between HasItem finds
      it, and afterwards the held list is back to what it was. */
  method PickupThenDrop(p: PickupObjects, item: ItemId) returns (heldBetween: Result<bool>, r: Outcome)
    requires item !in p.itemsHeld
    modifies p
    ensures heldBetween == Ok(true)
    ensures r == Pass && p.itemsHeld == old(p.itemsHeld)
  {
    var _ := p.Pickup(item);
    AppendThenFind(old(p.itemsHeld), item);
    heldBetween := p.HasItem(item);
    r := p.Drop(item);
    RemoveAfterAppend(old(p.itemsHeld), item);
  }
}
