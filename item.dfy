/** The Item behaviour: a pickupable weapon with a clip, a reload and a fire
    coroutine, whose renderers, colliders and child objects follow its active
    flag. Timing, audio, particles and vector maths are abstracted away: one
    resumption of the coroutine is one step, and a shot is counted as the
    projectiles and recoil impulses it creates. */
module Items {
  import opened Common
  import opened ListOps
  import opened GameObjectUtil
  import opened PickupContact
  import ItemManagement
  import PickupRegistry

  /** The inspector settings the fire loop reads. bulletsPerShot is the
      number of iterations of ShootWeapon's loop. */
  datatype ShotConfig = ShotConfig(hasClipSize: bool, ammoClipSize: int, bulletsPerShot: nat)

  /** What one resumption of TimedShotCoroutine does. */
  datatype StepKind =
    | InactivePoll   // the item is not the active weapon: only wait
    | NoTrigger      // active, but the fire button is not held
    | Fired          // one shot
    | Reloaded       // the clip was spent: the counter is reset, nothing fired
    | Stopped        // an earlier exception ended the coroutine: nothing happens

  datatype Transition = Transition(kind: StepKind, shots: int)

  /** One pass of the coroutine's loop over currentBulletsShot. */
  function ShotTransition(cfg: ShotConfig, shots: int, active: bool, fireHeld: bool): (t: Transition)
    ensures t.kind == InactivePoll <==> !active
    ensures t.kind == Fired ==> t.shots == shots + 1
    ensures t.kind == Reloaded ==> t.shots == 0 && cfg.hasClipSize
  {
    if !active then Transition(InactivePoll, shots)
    else if !fireHeld then Transition(NoTrigger, shots)
    else if cfg.hasClipSize && shots > cfg.ammoClipSize then Transition(Reloaded, 0)
    else Transition(Fired, shots + 1)
  }

  /** The flags sampled at one resumption: the item's active flag and the
      fire button. */
  datatype Input = Input(active: bool, fireHeld: bool)

  datatype Run = Run(kinds: seq<StepKind>, shots: int)

  /** Consecutive resumptions of the coroutine. */
  function Resume(cfg: ShotConfig, shots: int, inputs: seq<Input>): (r: Run)
    ensures |r.kinds| == |inputs|
    ensures forall i :: 0 <= i < |inputs| ==> (r.kinds[i] == InactivePoll <==> !inputs[i].active)
    decreases |inputs|
  {
    if inputs == [] then Run([], shots)
    else
      var t := ShotTransition(cfg, shots, inputs[0].active, inputs[0].fireHeld);
      var rest := Resume(cfg, t.shots, inputs[1..]);
      Run([t.kind] + rest.kinds, rest.shots)
  }

  /** A single step fires exactly when the item is active, the trigger is held
      and the clip is not spent; a firing step raises the counter by one, a
      reload resets it, any other step leaves it alone. */
  lemma ShotTransitionCases(cfg: ShotConfig, shots: int, active: bool, fireHeld: bool)
    ensures var t := ShotTransition(cfg, shots, active, fireHeld);
            && (t.kind == Fired <==> active && fireHeld && !(cfg.hasClipSize && shots > cfg.ammoClipSize))
            && (t.kind == Reloaded <==> active && fireHeld && cfg.hasClipSize && shots > cfg.ammoClipSize)
            && (t.kind == Fired ==> t.shots == shots + 1)
            && (t.kind == Reloaded ==> t.shots == 0)
            && (t.kind != Fired && t.kind != Reloaded ==> t.shots == shots)
  {
  }

  /** While the item stays inactive nothing ever fires and the counter is
      untouched. */
  lemma {:induction false} InactiveNeverFires(cfg: ShotConfig, shots: int, inputs: seq<Input>)
    requires forall i :: 0 <= i < |inputs| ==> !inputs[i].active
    ensures Resume(cfg, shots, inputs) == Run(seq(|inputs|, _ => InactivePoll), shots)
  {
    if inputs != [] {
      InactiveNeverFires(cfg, shots, inputs[1..]);
      assert seq(|inputs|, _ => InactivePoll) == [InactivePoll] + seq(|inputs| - 1, _ => InactivePoll);
    }
  }

  /** With a clip, the counter stays within 0 .. ammoClipSize + 1 whatever
      the inputs. */
  lemma {:induction false} CounterStaysInClip(cfg: ShotConfig, shots: int, inputs: seq<Input>)
    requires cfg.hasClipSize && cfg.ammoClipSize >= 0
    requires 0 <= shots <= cfg.ammoClipSize + 1
    ensures 0 <= Resume(cfg, shots, inputs).shots <= cfg.ammoClipSize + 1
    decreases |inputs|
  {
    if inputs != [] {
      var t := ShotTransition(cfg, shots, inputs[0].active, inputs[0].fireHeld);
      CounterStaysInClip(cfg, t.shots, inputs[1..]);
    }
  }

  /** Holding the trigger with a counter of k fires ammoClipSize + 1 - k
      shots, then reloads back to zero. */
  lemma {:induction false} ClipThenReload(cfg: ShotConfig, k: int)
    requires cfg.hasClipSize && cfg.ammoClipSize >= 0
    requires 0 <= k <= cfg.ammoClipSize + 1
    ensures var n := cfg.ammoClipSize + 2 - k;
            Resume(cfg, k, seq(n, _ => Input(true, true)))
              == Run(seq(n - 1, _ => Fired) + [Reloaded], 0)
    decreases cfg.ammoClipSize + 1 - k
  {
    var n := cfg.ammoClipSize + 2 - k;
    var inputs := seq(n, _ => Input(true, true));
    assert inputs[1..] == seq(n - 1, _ => Input(true, true));
    if k <= cfg.ammoClipSize {
      ClipThenReload(cfg, k + 1);
      assert seq(n - 1, _ => Fired) + [Reloaded] == [Fired] + (seq(n - 2, _ => Fired) + [Reloaded]);
    } else {
      assert Resume(cfg, 0, []) == Run([], 0);
    }
  }

  /** From a fresh clip exactly ammoClipSize + 1 shots fire before the first
      reload, after which the cycle starts again. */
  lemma FullClipCycle(cfg: ShotConfig)
    requires cfg.hasClipSize && cfg.ammoClipSize >= 0
    ensures Resume(cfg, 0, seq(cfg.ammoClipSize + 2, _ => Input(true, true)))
              == Run(seq(cfg.ammoClipSize + 1, _ => Fired) + [Reloaded], 0)
  {
    ClipThenReload(cfg, 0);
  }

  class Item {
    const id: ItemId
    const config: ShotConfig
    /** weaponPosOffset and weaponRotOffset. */
    const weaponOffset: Pose
    /** The item's own game object with its transform children. */
    const hierarchy: GameObject

    /** Whether the item reacts to the fire button. */
    var isActiveWeapon: bool
    var currentBulletsShot: int
    /** TimedShotCoroutine is still scheduled (an exception ends it). */
    var shotLoopRunning: bool
    /** Rigidbody.isKinematic. */
    var isKinematic: bool
    /** Collider.isTrigger. */
    var isTrigger: bool
    /** ownerRbody, by the identity of the owner's game object. */
    var owner: Option<HolderId>
    /** enabled flag of each entry of itemRenderers. */
    var renderersEnabled: seq<bool>
    /** enabled flag of each entry of itemColliders. */
    var collidersEnabled: seq<bool>
    /** activeSelf of the game objects below the item. */
    var childActive: map<ObjId, bool>
    var localPose: Pose

    /** Every game object below the item: what ActivateChildren touches. */
    function ChildIds(): (ids: set<ObjId>)
      ensures id !in ids
    {
      set d | d in [hierarchy] + Visit(hierarchy, Recurse) && d.id != id :: d.id
    }

    /** The item's renderers, colliders and children all follow the flag. */
    ghost predicate ShownAs(active: bool)
      reads this
    {
      && isActiveWeapon == active
      && (forall i :: 0 <= i < |renderersEnabled| ==> renderersEnabled[i] == active)
      && (forall i :: 0 <= i < |collidersEnabled| ==> collidersEnabled[i] == active)
      && (forall d :: d in ChildIds() ==> d in childActive && childActive[d] == active)
    }

    /** Physics off and snapped to the holder-relative pose. */
    ghost predicate HeldPose()
      reads this
    {
      isKinematic && isTrigger && localPose == weaponOffset
    }

    /** The item as Start leaves it: free, inactive, with its fire loop
      scheduled. */
    constructor (id: ItemId, config: ShotConfig, weaponOffset: Pose, hierarchy: GameObject,
                 renderers: nat, colliders: nat, pose: Pose)
      requires hierarchy.id == id
      ensures this.id == id && this.config == config && this.weaponOffset == weaponOffset
      ensures this.hierarchy == hierarchy
      ensures !isActiveWeapon && currentBulletsShot == 0 && shotLoopRunning
      ensures !isKinematic && !isTrigger && owner == None && localPose == pose
      ensures renderersEnabled == seq(renderers, _ => true) && collidersEnabled == seq(colliders, _ => true)
      ensures childActive == map[]
    {
      this.id := id;
      this.config := config;
      this.weaponOffset := weaponOffset;
      this.hierarchy := hierarchy;
      isActiveWeapon := false;
      currentBulletsShot := 0;
      shotLoopRunning := true;
      isKinematic := false;
      isTrigger := false;
      owner := None;
      renderersEnabled := seq(renderers, _ => true);
      collidersEnabled := seq(colliders, _ => true);
      childActive := map[];
      localPose := pose;
    }

    /** Sets activeSelf of every game object below the item, never the item's
      own object. */
    method ActivateChildren(active: bool)
      modifies this`childActive
      ensures forall d :: d in ChildIds() ==> d in childActive && childActive[d] == active
      ensures forall d :: d in old(childActive) && d !in ChildIds() ==> d in childActive && childActive[d] == old(childActive[d])
      ensures childActive.Keys == old(childActive).Keys + ChildIds()
      ensures id in old(childActive) ==> id in childActive && childActive[id] == old(childActive[id])
    {
      childActive := childActive + map d | d in ChildIds() :: active;
    }

    /** Makes the item (in)active: the fire flag, every renderer, every
      collider and every child object. */
    method EnableItem(active: bool)
      modifies this`isActiveWeapon, this`renderersEnabled, this`collidersEnabled, this`childActive
      ensures ShownAs(active)
      ensures |renderersEnabled| == old(|renderersEnabled|) && |collidersEnabled| == old(|collidersEnabled|)
      ensures forall d :: d in old(childActive) && d !in ChildIds() ==> d in childActive && childActive[d] == old(childActive[d])
    {
      isActiveWeapon := active;
      renderersEnabled := seq(|renderersEnabled|, _ => active);
      collidersEnabled := seq(|collidersEnabled|, _ => active);
      ActivateChildren(active);
    }

    /** removePhysics makes the body kinematic and its collider a trigger. */
    method ChangePhysics(removePhysics: bool)
      modifies this`isKinematic, this`isTrigger
      ensures isKinematic == removePhysics && isTrigger == removePhysics
    {
      isKinematic := removePhysics;
      isTrigger := removePhysics;
    }

    method AlignPositionOnPickup()
      modifies this`localPose
      ensures localPose == weaponOffset
    {
      localPose := weaponOffset;
    }

    /** On pickup the item is hidden and inactive (the holder selects it
      later), physics is off and the pose snaps to the offsets. */
    method GetPickedPickup()
      modifies this`isActiveWeapon, this`renderersEnabled, this`collidersEnabled, this`childActive
      modifies this`isKinematic, this`isTrigger, this`localPose
      ensures ShownAs(false) && HeldPose()
      ensures |renderersEnabled| == old(|renderersEnabled|) && |collidersEnabled| == old(|collidersEnabled|)
    {
      EnableItem(false);
      ChangePhysics(true);
      AlignPositionOnPickup();
    }

    /** On drop physics comes back and the owner is forgotten; the active
      flag is left as it was. */
    method GetDropped()
      modifies this`isKinematic, this`isTrigger, this`owner
      ensures !isKinematic && !isTrigger && owner == None
    {
      ChangePhysics(false);
      owner := None;
    }

    /** The owner changes only to a game object that has a Rigidbody. */
    method SetOwner(h: HolderRef)
      modifies this`owner
      ensures owner == if h.hasRigidbody then Some(h.id) else old(owner)
    {
      if h.hasRigidbody {
        owner := Some(h.id);
      }
    }

    /** ShootWeapon: each loop iteration creates a projectile and pushes the
      owner back. Without an owner Rigidbody the first push throws, after
      one projectile has been created. */
    method ShootWeapon() returns (projectiles: nat, recoils: nat, r: Outcome)
      ensures owner.Some? ==> r == Pass && projectiles == recoils == config.bulletsPerShot
      ensures owner.None? && config.bulletsPerShot == 0 ==> r == Pass && projectiles == recoils == 0
      ensures owner.None? && config.bulletsPerShot > 0 ==>
                r == Fail(NullReference) && projectiles == 1 && recoils == 0
    {
      projectiles, recoils := 0, 0;
      var i := 0;
      while i < config.bulletsPerShot
        invariant 0 <= i <= config.bulletsPerShot
        invariant projectiles == recoils == i
        invariant owner.None? ==> i == 0
      {
        projectiles := projectiles + 1;
        if owner.None? {
          return projectiles, recoils, Fail(NullReference);
        }
        recoils := recoils + 1;
        i := i + 1;
      }
      r := Pass;
    }

    /** One resumption of TimedShotCoroutine, with the fire button's state.
      A shot whose recoil throws ends the coroutine. */
    method ShotStep(fireHeld: bool) returns (kind: StepKind, projectiles: nat, recoils: nat)
      modifies this`currentBulletsShot, this`shotLoopRunning
      ensures !old(shotLoopRunning) ==> kind == Stopped && projectiles == recoils == 0
      ensures !old(shotLoopRunning) ==> currentBulletsShot == old(currentBulletsShot) && !shotLoopRunning
      ensures old(shotLoopRunning) ==>
                var t := ShotTransition(config, old(currentBulletsShot), isActiveWeapon, fireHeld);
                && kind == t.kind && currentBulletsShot == t.shots
                && (kind != Fired ==> projectiles == recoils == 0 && shotLoopRunning)
                && (kind == Fired && (owner.Some? || config.bulletsPerShot == 0) ==>
                      projectiles == recoils == config.bulletsPerShot && shotLoopRunning)
                && (kind == Fired && owner.None? && config.bulletsPerShot > 0 ==>
                      projectiles == 1 && recoils == 0 && !shotLoopRunning)
    {
      projectiles, recoils := 0, 0;
      if !shotLoopRunning {
        return Stopped, 0, 0;
      }
      if !isActiveWeapon {
        kind := InactivePoll;
      } else if !fireHeld {
        kind := NoTrigger;
      } else if config.hasClipSize && currentBulletsShot > config.ammoClipSize {
        currentBulletsShot := 0;
        kind := Reloaded;
      } else {
        currentBulletsShot := currentBulletsShot + 1;
        kind := Fired;
        var r;
        projectiles, recoils, r := ShootWeapon();
        if r.Fail? {
          shotLoopRunning := false;
        }
      }
    }

    /** The pickup branch of the collision bridge against an ItemManager:
      the item picks itself up, then the manager's Pickup runs. The manager's
      calls back into the item (SetOwner, then EnableItem(true) when its
      SetActiveItem pass reaches this item, the last one held) are replayed
      here. */
    method PickedUpByManager(m: ItemManagement.ItemManager) returns (r: Outcome)
      requires id in m.components.items && id !in m.components.physicsWeapons
      requires id !in m.itemsHeld
      modifies this, m
      ensures m.itemsHeld == old(m.itemsHeld) + [id]
      ensures HeldPose() && ShownAs(r.Pass?)
      ensures owner == if m.holder.hasRigidbody then Some(m.holder.id) else old(owner)
      ensures ItemManagement.Activation(m.enabled, r)
                == ItemManagement.ActivateWalk(m.itemsHeld, old(m.enabled), id, m.components.items)
      ensures NoDup(old(m.itemsHeld)) ==> NoDup(m.itemsHeld)
      ensures NoDup(old(m.itemsHeld)) && r.Pass? ==> ItemManagement.EnabledCount(m.itemsHeld, m.enabled) == 1
      ensures currentBulletsShot == old(currentBulletsShot) && shotLoopRunning == old(shotLoopRunning)
      ensures |renderersEnabled| == old(|renderersEnabled|) && |collidersEnabled| == old(|collidersEnabled|)
    {
      if NoDup(m.itemsHeld) {
        AppendAbsentKeepsNoDup(m.itemsHeld, id);
      }
      GetPickedPickup();
      r := m.Pickup(id);
      SetOwner(m.holder);
      if r.Pass? {
        EnableItem(true);
      }
    }

    /** The pickup branch of the collision bridge against a PickupObjects:
      the item picks itself up (hidden and inactive), the holder records it
      and calls SetOwner, replayed here. */
    method PickedUpByObjects(p: PickupRegistry.PickupObjects) returns (r: Outcome)
      requires id in p.components.items
      requires id !in p.itemsHeld
      modifies this, p
      ensures p.itemsHeld == old(p.itemsHeld) + [id]
      ensures HeldPose() && ShownAs(false) && r == Pass
      ensures owner == if p.holder.hasRigidbody then Some(p.holder.id) else old(owner)
      ensures NoDup(old(p.itemsHeld)) ==> NoDup(p.itemsHeld)
      ensures currentBulletsShot == old(currentBulletsShot) && shotLoopRunning == old(shotLoopRunning)
      ensures |renderersEnabled| == old(|renderersEnabled|) && |collidersEnabled| == old(|collidersEnabled|)
    {
      ghost var held0 := p.itemsHeld;
      GetPickedPickup();
      r := p.Pickup(id);
      SetOwner(p.holder);
      if NoDup(held0) {
        AppendAbsentKeepsNoDup(held0, id);
      }
    }

    /** IPickupable.OnCollisionEnter: pick the item up when the other party
      can hold items and does not hold it yet; otherwise nothing changes. */
    method OnCollisionEnter(other: Contact) returns (r: Outcome)
      requires !other.NoPickup? ==> id in ComponentsOf(other).items && id !in ComponentsOf(other).physicsWeapons
      modifies this, Footprint(other)
      ensures other.NoPickup? ==> r == Pass && unchanged(this)
      ensures !other.NoPickup? && old(HasItem(other, id)).Err? ==>
                r == Fail(MultipleMatches) && unchanged(this) && unchanged(Footprint(other))
      ensures !other.NoPickup? && old(HasItem(other, id)) == Ok(true) ==>
                r == Pass && unchanged(this) && unchanged(Footprint(other))
      ensures !other.NoPickup? && old(HasItem(other, id)) == Ok(false) ==>
                && Held(other) == old(Held(other)) + [id]
                && HeldPose() && ShownAs(other.Manager? && r.Pass?)
                && (other.Objects? ==> r == Pass)
      ensures !other.NoPickup? && old(HasItem(other, id)) == Ok(false) ==>
                && owner == (if HolderOf(other).hasRigidbody then Some(HolderOf(other).id) else old(owner))
                && currentBulletsShot == old(currentBulletsShot) && shotLoopRunning == old(shotLoopRunning)
                && |renderersEnabled| == old(|renderersEnabled|) && |collidersEnabled| == old(|collidersEnabled|)
      ensures other.Manager? && old(HasItem(other, id)) == Ok(false) ==>
                ItemManagement.Activation(other.m.enabled, r)
                  == ItemManagement.ActivateWalk(other.m.itemsHeld, old(other.m.enabled), id, other.m.components.items)
      ensures other.Manager? && old(HasItem(other, id)) == Ok(false) && NoDup(old(Held(other))) && r.Pass? ==>
                ItemManagement.EnabledCount(other.m.itemsHeld, other.m.enabled) == 1
      ensures NoDup(old(Held(other))) ==> NoDup(Held(other))
    {
      if other.NoPickup? {
        return Pass;
      }
      var q := HasItem(other, id);
      if q.Err? {
        return Fail(MultipleMatches);
      }
      if q.value {
        return Pass;
      }
      if other.Manager? {
        r := PickedUpByManager(other.m);
      } else {
        r := PickedUpByObjects(other.p);
      }
    }
  }
}
