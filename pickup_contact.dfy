/** IPickup as the collision bridge sees it: the other party of a contact
    carries an ItemManager, a PickupObjects, or no pickup behaviour at all. */
module PickupContact {
  import opened Common
  import ItemManagement
  import PickupRegistry

  datatype Contact =
    | NoPickup
    | Manager(m: ItemManagement.ItemManager)
    | Objects(p: PickupRegistry.PickupObjects)

  /** The holder object a contact may change. */
  function Footprint(c: Contact): set<object>
  {
    match c
    case NoPickup => {}
    case Manager(m) => {m}
    case Objects(p) => {p}
  }

  function HolderOf(c: Contact): HolderRef
    requires !c.NoPickup?
  {
    if c.Manager? then c.m.holder else c.p.holder
  }

  function ComponentsOf(c: Contact): Components
    requires !c.NoPickup?
  {
    if c.Manager? then c.m.components else c.p.components
  }

  /** The held list behind the contact. */
  function Held(c: Contact): seq<ItemId>
    reads Footprint(c)
  {
    match c
    case NoPickup => []
    case Manager(m) => m.itemsHeld
    case Objects(p) => p.itemsHeld
  }

  /** IPickup.HasItem, dispatched to the holder's behaviour. */
  function HasItem(c: Contact, x: ItemId): (r: Result<bool>)
    requires !c.NoPickup?
    reads Footprint(c)
    ensures r.Ok? <==> multiset(Held(c))[x] <= 1
    ensures r.Ok? ==> (r.value <==> x in Held(c))
  {
    if c.Manager? then c.m.HasItem(x) else c.p.HasItem(x)
  }
}
