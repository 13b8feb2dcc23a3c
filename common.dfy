/** Identities, error kinds and small value types shared by every component.
    Game objects are abstracted as identities; the components an object carries
    are declared up front instead of probed with GetComponent. */
module Common {

  /** Identity of a pickupable game object (reference equality in the game). */
  type ItemId = nat
  /** Identity of a game object that can hold items. */
  type HolderId = nat

  /** The holder's game object as seen by SetOwner: its identity and whether it
      carries a Rigidbody (the recoil target). */
  datatype HolderRef = HolderRef(id: HolderId, hasRigidbody: bool)

  /** The exceptions the modelled code can raise. */
  datatype Error =
    | RemoveFailed            // "Invalid program logic" after List.Remove returned false
    | NoPickupableComponent   // Enumerable.First found no IPickupable behaviour
    | MissingItemComponent    // "Bad data": a held object without an Item component
    | MultipleMatches         // Enumerable.SingleOrDefault saw the item twice
    | NullReference           // a member access on a missing Rigidbody or Renderer
    | MissingRenderer         // MissingReferenceException thrown by Start
    | DivideByZero            // integer remainder by a zero count

  datatype Option<T> = None | Some(value: T)

  datatype Result<T> = Ok(value: T) | Err(error: Error)

  datatype Outcome = Pass | Fail(error: Error)

  datatype Vec3 = Vec3(x: real, y: real, z: real)

  /** A local pose: a position and the Euler angles given to Quaternion.Euler. */
  datatype Pose = Pose(position: Vec3, euler: Vec3)

  /** Which game objects carry an Item behaviour and which carry a
      PhysicsWeapon behaviour; both implement IPickupable. */
  datatype Components = Components(items: set<ItemId>, physicsWeapons: set<ItemId>)
  {
    predicate Pickupable(x: ItemId) {
      x in items || x in physicsWeapons
    }
  }
}
