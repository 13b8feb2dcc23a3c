/** The PhysicsWeapon behaviour: a pickupable weapon without a clip that
    becomes active as soon as it is picked up and shows itself through one
    renderer. One resumption of its fire coroutine is one step; a shot is
    counted as the projectile and recoil impulse it creates. */
module PhysicsWeapons {
  import opened Common
  import opened ListOps
  import opened PickupContact
  import ItemManagement
  import PickupRegistry

  /** Where Start found the weapon's renderer. */
  datatype RendererSource = NotFound | OnSelf | InChildren

  /** Start's renderer search: the object's own renderer first, then one in
      its children; finding none is a missing-reference error. */
  function FindRenderer(ownRenderer: bool, childRenderer: bool): (r: Result<RendererSource>)
    ensures r.Err? <==> !ownRenderer && !childRenderer
    ensures r.Err? ==> r.error == MissingRenderer
    ensures ownRenderer ==> r == Ok(OnSelf)
    ensures !ownRenderer && childRenderer ==> r == Ok(InChildren)
  {
    if ownRenderer then Ok(OnSelf)
    else if childRenderer then Ok(InChildren)
    else Err(MissingRenderer)
  }

  class PhysicsWeapon {
    const id: ItemId
    /** weaponPosOffset and weaponRotOffset. */
    const weaponOffset: Pose

    /** Whether the weapon reacts to the fire button. */
    var isActiveWeapon: bool
    /** TimedShotCoroutine is scheduled (Start schedules it; an exception ends it). */
    var shotLoopRunning: bool
    /** Rigidbody.isKinematic. */
    var isKinematic: bool
    /** isTrigger of the first collider found on the object or its children. */
    var isTrigger: bool
    /** ownerRbody, by the identity of the owner's game object. */
    var owner: Option<HolderId>
    /** itemRenderer: unset until Start finds one. */
    var itemRenderer: RendererSource
    /** itemRenderer.enabled. */
    var rendererEnabled: bool
    var localPose: Pose

    /** The weapon as placed in the scene, before Start. */
    constructor (id: ItemId, weaponOffset: Pose, pose: Pose)
      ensures this.id == id && this.weaponOffset == weaponOffset
      ensures !isActiveWeapon && !shotLoopRunning && !isKinematic && !isTrigger
      ensures owner == None && itemRenderer == NotFound && rendererEnabled && localPose == pose
    {
      this.id := id;
      this.weaponOffset := weaponOffset;
      isActiveWeapon := false;
      shotLoopRunning := false;
      isKinematic := false;
      isTrigger := false;
      owner := None;
      itemRenderer := NotFound;
      rendererEnabled := true;
      localPose := pose;
    }

    /** Start: schedules the fire loop, then looks for the renderer and
      throws when there is none (the loop stays scheduled). */
    method Start(ownRenderer: bool, childRenderer: bool) returns (r: Outcome)
      requires itemRenderer == NotFound
      modifies this`shotLoopRunning, this`itemRenderer
      ensures shotLoopRunning
      ensures var found := FindRenderer(ownRenderer, childRenderer);
              && (found.Ok? ==> r == Pass && itemRenderer == found.value)
              && (found.Err? ==> r == Fail(MissingRenderer) && itemRenderer == NotFound)
    {
      shotLoopRunning := true;
      var found := FindRenderer(ownRenderer, childRenderer);
      if found.Err? {
        return Fail(found.error);
      }
      itemRenderer := found.value;
      r := Pass;
    }

    /** ShootWeapon: one projectile, then a recoil impulse on the owner; with
      no owner Rigidbody the impulse throws after the projectile exists. */
    method ShootWeapon() returns (projectiles: nat, recoils: nat, r: Outcome)
      ensures projectiles == 1
      ensures owner.Some? <==> r == Pass
      ensures recoils == if owner.Some? then 1 else 0
      ensures owner.None? ==> r == Fail(NullReference)
    {
      projectiles := 1;
      if owner.None? {
        return projectiles, 0, Fail(NullReference);
      }
      recoils := 1;
      r := Pass;
    }

    /** One resumption of TimedShotCoroutine: a shot when the fire button is
      held and the weapon is active; a throwing shot ends the coroutine. */
    method ShotStep(fireHeld: bool) returns (fired: bool, projectiles: nat, recoils: nat)
      modifies this`shotLoopRunning
      ensures fired <==> old(shotLoopRunning) && fireHeld && isActiveWeapon
      ensures !fired ==> projectiles == recoils == 0 && shotLoopRunning == old(shotLoopRunning)
      ensures fired ==> projectiles == 1 && recoils == (if owner.Some? then 1 else 0)
      ensures fired ==> shotLoopRunning == owner.Some?
    {
      fired, projectiles, recoils := false, 0, 0;
      if shotLoopRunning && fireHeld && isActiveWeapon {
        fired := true;
        var r;
        projectiles, recoils, r := ShootWeapon();
        if r.Fail? {
          shotLoopRunning := false;
        }
      }
    }

    method ChangePhysics(removePhysics: bool)
      modifies this`isKinematic, this`isTrigger
      ensures isKinematic == removePhysics && isTrigger == removePhysics
    {
      isKinematic := removePhysics;
      isTrigger := removePhysics;
    }

    method AlignPositionOnPickup()
      modifies this`localPose
      ensures localPose == weaponOffset
    {
      localPose := weaponOffset;
    }

    /** On pickup physics goes off, the weapon becomes active at once and
      snaps to its offsets. The renderer is not touched. */
    method GetPickedPickup()
      modifies this`isKinematic, this`isTrigger, this`isActiveWeapon, this`localPose
      ensures isKinematic && isTrigger && isActiveWeapon && localPose == weaponOffset
    {
      ChangePhysics(true);
      isActiveWeapon := true;
      AlignPositionOnPickup();
    }

    /** On drop the weapon goes inactive, physics comes back and the owner
      is forgotten. */
    method GetDropped()
      modifies this`isKinematic, this`isTrigger, this`isActiveWeapon, this`owner
      ensures !isActiveWeapon && !isKinematic && !isTrigger && owner == None
    {
      isActiveWeapon := false;
      ChangePhysics(false);
      owner := None;
    }

    /** Sets the fire flag and then the renderer's flag; without a renderer
      the second assignment throws after the first took effect. */
    method SetActive(active: bool) returns (r: Outcome)
      modifies this`isActiveWeapon, this`rendererEnabled
      ensures isActiveWeapon == active
      ensures itemRenderer != NotFound ==> r == Pass && rendererEnabled == active
      ensures itemRenderer == NotFound ==> r == Fail(NullReference) && rendererEnabled == old(rendererEnabled)
    {
      isActiveWeapon := active;
      if itemRenderer == NotFound {
        return Fail(NullReference);
      }
      rendererEnabled := active;
      r := Pass;
    }

    /** The owner changes only to a game object that has a Rigidbody. */
    method SetOwner(h: HolderRef)
      modifies this`owner
      ensures owner == if h.hasRigidbody then Some(h.id) else old(owner)
    {
      if h.hasRigidbody {
        owner := Some(h.id);
      }
    }

    /** The pickup branch of the collision bridge against an ItemManager:
      the weapon picks itself up, the manager appends it and calls SetOwner
      (replayed here), then its SetActiveItem throws at the latest on this
      weapon, which carries no Item behaviour. */
    method PickedUpByManager(m: ItemManagement.ItemManager) returns (r: Outcome)
      requires id in m.components.physicsWeapons && id !in m.components.items
      requires id !in m.itemsHeld
      modifies this, m
      ensures m.itemsHeld == old(m.itemsHeld) + [id]
      ensures isKinematic && isTrigger && isActiveWeapon && localPose == weaponOffset
      ensures owner == if m.holder.hasRigidbody then Some(m.holder.id) else old(owner)
      ensures r == Fail(MissingItemComponent)
      ensures m.enabled == ItemManagement.ActivateWalk(m.itemsHeld, old(m.enabled), id, m.components.items).enabled
      ensures NoDup(old(m.itemsHeld)) ==> NoDup(m.itemsHeld)
      ensures shotLoopRunning == old(shotLoopRunning) && rendererEnabled == old(rendererEnabled)
      ensures itemRenderer == old(itemRenderer)
    {
      ghost var held0, enabled0 := m.itemsHeld, m.enabled;
      ItemManagement.AppendNonItemFails(held0, id, enabled0, id, m.components.items);
      if NoDup(held0) {
        AppendAbsentKeepsNoDup(held0, id);
      }
      GetPickedPickup();
      r := m.Pickup(id);
      SetOwner(m.holder);
    }

    /** The pickup branch of the collision bridge against a PickupObjects:
      the weapon picks itself up (active at once), the holder records it and
      calls SetOwner, replayed here. */
    method PickedUpByObjects(p: PickupRegistry.PickupObjects) returns (r: Outcome)
      requires id in p.components.physicsWeapons
      requires id !in p.itemsHeld
      modifies this, p
      ensures p.itemsHeld == old(p.itemsHeld) + [id]
      ensures isKinematic && isTrigger && isActiveWeapon && localPose == weaponOffset
      ensures owner == if p.holder.hasRigidbody then Some(p.holder.id) else old(owner)
      ensures r == Pass
      ensures NoDup(old(p.itemsHeld)) ==> NoDup(p.itemsHeld)
      ensures shotLoopRunning == old(shotLoopRunning) && rendererEnabled == old(rendererEnabled)
      ensures itemRenderer == old(itemRenderer)
    {
      ghost var held0 := p.itemsHeld;
      GetPickedPickup();
      r := p.Pickup(id);
      SetOwner(p.holder);
      if NoDup(held0) {
        AppendAbsentKeepsNoDup(held0, id);
      }
    }

    /** IPickupable.OnCollisionEnter: pick the weapon up when the other party
      can hold items and does not hold it yet; otherwise nothing changes. */
    method OnCollisionEnter(other: Contact) returns (r: Outcome)
      requires !other.NoPickup? ==> id in ComponentsOf(other).physicsWeapons && id !in ComponentsOf(other).items
      modifies this, Footprint(other)
      ensures other.NoPickup? ==> r == Pass && unchanged(this)
      ensures !other.NoPickup? && old(HasItem(other, id)).Err? ==>
                r == Fail(MultipleMatches) && unchanged(this) && unchanged(Footprint(other))
      ensures !other.NoPickup? && old(HasItem(other, id)) == Ok(true) ==>
                r == Pass && unchanged(this) && unchanged(Footprint(other))
      ensures !other.NoPickup? && old(HasItem(other, id)) == Ok(false) ==>
                && Held(other) == old(Held(other)) + [id]
                && isKinematic && isTrigger && isActiveWeapon && localPose == weaponOffset
                && owner == (if HolderOf(other).hasRigidbody then Some(HolderOf(other).id) else old(owner))
                && r == (if other.Objects? then Pass else Fail(MissingItemComponent))
                && shotLoopRunning == old(shotLoopRunning) && rendererEnabled == old(rendererEnabled)
                && itemRenderer == old(itemRenderer)
      ensures other.Manager? && old(HasItem(other, id)) == Ok(false) ==>
                other.m.enabled
                  == ItemManagement.ActivateWalk(other.m.itemsHeld, old(other.m.enabled), id, other.m.components.items).enabled
      ensures NoDup(old(Held(other))) ==> NoDup(Held(other))
    {
      if other.NoPickup? {
        return Pass;
      }
      var q := HasItem(other, id);
      if q.Err? {
        return Fail(MultipleMatches);
      }
      if q.value {
        return Pass;
      }
      if other.Manager? {
        r := PickedUpByManager(other.m);
      } else {
        r := PickedUpByObjects(other.p);
      }
    }
  }
}
