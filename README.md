# Pickup, weapon and camera logic of a Unity game, modelled in Dafny

The game (aegpoadan/CSE487Final) is a set of Unity behaviours. This project
models the discrete logic under the engine glue:

- **The two item holders.** `ItemManager` and `PickupObjects` keep an ordered
  `itemsHeld` list. They offer `Pickup`, `Drop` and `HasItem`. `ItemManager`
  also makes one held item the active one (`SetActiveItem`) and switches
  between items with numbered buttons (`CheckItemSwitch`).
- **The two pickupable weapons.** `Item` has a clip, a reload and renderers,
  colliders and child objects that follow its active flag. `PhysicsWeapon` has
  no clip and a single renderer. Each has:
  - a fire coroutine, modelled as one step per resumption;
  - `ShootWeapon`, counted as projectile and recoil events;
  - the pickup, drop and physics flags;
  - `SetOwner`;
  - the collision bridge, which hands an item to a holder that does not hold it yet.
- **The camera switcher.** `CamSwitcher` keeps exactly one tagged camera and its
  audio listener enabled. A switch press moves to the next camera cyclically.
- **`GameObjectUtil.IterateChildren`.** A pre-order walk over a game object's
  transform children, with or without recursion.

Game objects are identities (`nat`). Which behaviours an object carries is
declared up front in `Common.Components`, in place of `GetComponent` probing.
An exception becomes an `Outcome`/`Result` carrying an `Error`. The state
changes made before the throw are kept, as they are in the game.

The holders hold identities, not objects. `ItemManager` records the
`EnableItem` flag it last gave each held item in its `enabled` map. Only the
picked item's own callbacks are replayed on the item object, inside the
collision-bridge methods: its `SetOwner`, and the `EnableItem(true)` it gets
when it becomes the active item. The flags that `SetActiveItem` sets on the
other held items exist only in the manager's map (see "## Left out").

The files follow the program:
- `common.dfy`: shared types.
- `list_ops.dfy`: `List.Remove`, `FindIndex` and `SingleOrDefault`.
- `item_manager.dfy`: `ItemManager`.
- `pickup_objects.dfy`: `PickupObjects`.
- `pickup_contact.dfy`: the `IPickup` party of a collision.
- `item.dfy`: `Item`.
- `physics_weapon.dfy`: `PhysicsWeapon`.
- `cam_switcher.dfy`: `CamSwitcher`.
- `game_object_util.dfy`: `Utilities.cs`.

The clip rule in `Item` fires `ammoClipSize + 1` shots between reloads: the
reload test `currentBulletsShot > ammoClipSize` lets one shot more than the
clip size through. The model keeps this; `Items.FullClipCycle` states the
count.

## Model

| member | source | states |
|---|---|---|
| ListOps.IndexOf | Scripts/CamSwitcher.cs:23 | `FindIndex` by identity returns the first index holding the object, or -1 exactly when it is absent |
| ListOps.Remove | Scripts/ItemManager.cs:39 | `List.Remove` leaves an absent item's list as it is; for a present item it shortens the list by one and removes one copy of the item from the multiset |
| ListOps.RemoveFirstOccurrence | Scripts/ItemManager.cs:39 | `List.Remove` deletes exactly the first occurrence and keeps the other entries in order |
| ListOps.FindSingle | Scripts/ItemManager.cs:47-48 | `SingleOrDefault(i => i == x) != null` fails with `MultipleMatches` exactly when x occurs twice or more; otherwise it is true iff x is in the list |
| ListOps.NoDupCount | Scripts/ItemManager.cs:47 | in a duplicate-free list every item occurs at most once, and exactly once iff it is present |
| ListOps.NoDupFindSingle | Scripts/ItemManager.cs:45-50 | on a duplicate-free list, `HasItem`'s query never throws and answers membership |
| ListOps.AppendAbsentKeepsNoDup | Scripts/ItemManager.cs:28 | appending an item that is not held keeps the list duplicate-free, and the item then occurs once |
| ListOps.RemoveAfterAppend | Scripts/PickupObjects.cs:18-31 | `Add` of an unheld item followed by `Remove` of it restores the list |
| ListOps.AppendThenFind | Scripts/PickupObjects.cs:21 | after `Add` of an unheld item, `HasItem`'s query finds it without throwing |
| ItemManagement.ItemPrefix | Scripts/ItemManager.cs:53-58 | the length of the longest prefix of held objects that carry an `Item`: all before it do, the one at it does not |
| ItemManagement.ActivateWalk | Scripts/ItemManager.cs:53-66 | `SetActiveItem`'s `ForEach` in list order: it can only throw `MissingItemComponent`, and it never drops a flag; its meaning is `ActivateWalkCorrect` |
| ItemManagement.ActivateWalkCorrect | Scripts/ItemManager.cs:52-67 | the `ForEach` completes iff every held object has an `Item`; otherwise it throws `MissingItemComponent`; the flags are those of "enabled iff equal to the target" over the prefix it reached |
| ItemManagement.ActivateWalkStops | Scripts/ItemManager.cs:56-57 | once the `ForEach` has thrown, the later held objects are not touched |
| ItemManagement.AppendNonItemFails | Scripts/ItemManager.cs:54-57 | once an object without an `Item` is appended, `SetActiveItem` over the list throws `MissingItemComponent` |
| ItemManagement.AbsentTargetDisablesAll | Scripts/ItemManager.cs:52-67 | `SetActiveItem` on a target that is not held leaves every held item disabled |
| ItemManagement.SwitchScan | Scripts/ItemManager.cs:71-77 | `CheckItemSwitch`'s ascending scan: it can only throw `MissingItemComponent`, and it never drops a flag; its meaning is `SwitchSelectsLastPressed` |
| ItemManagement.LastPressedInRange | Scripts/ItemManager.cs:71-73 | the greatest pressed button index below the held count, or -1 exactly when there is none |
| ItemManagement.SwitchSelectsLastPressed | Scripts/ItemManager.cs:69-78 | with only `Item` objects held, a frame of polling leaves exactly the last in-range pressed item enabled; with no in-range press no flag changes |
| ItemManagement.SwitchScanStops | Scripts/ItemManager.cs:74 | an exception in `SetActiveItem` ends the button scan |
| ItemManagement.ExactlyOneEnabled | Scripts/ItemManager.cs:60-64 | in a duplicate-free list whose flags say "enabled iff equal to x", exactly one entry is enabled when x is held |
| ItemManagement.PickupEnablesOnlyNewItem | Scripts/ItemManager.cs:25-33 | picking up an unheld item when all held objects are `Item`s makes it the one and only enabled held item |
| ItemManagement.ItemManager.constructor | Scripts/ItemManager.cs:13-16 | `Start` begins with an empty held list |
| ItemManagement.ItemManager.HasItem | Scripts/ItemManager.cs:45-50 | true iff the item is held; throws when it is held twice |
| ItemManagement.ItemManager.SetActiveItem | Scripts/ItemManager.cs:52-67 | the loop's new flags and outcome are those of the `ForEach` reference walk |
| ItemManagement.ItemManager.Pickup | Scripts/ItemManager.cs:25-33 | appends the item; throws `NoPickupableComponent` with no flag change when it has no `IPickupable`; succeeds iff every held object is an `Item`; then the new item alone is enabled |
| ItemManagement.ItemManager.Drop | Scripts/ItemManager.cs:35-42 | removes the first occurrence; throws `RemoveFailed` exactly when the item was not held |
| ItemManagement.ItemManager.CheckItemSwitch | Scripts/ItemManager.cs:69-78 | the loop over button indices equals the ascending scan that ignores indices past the held count |
| PickupRegistry.PickupObjects.constructor | Scripts/PickupObjects.cs:11-14 | `Start` begins with an empty held list |
| PickupRegistry.PickupObjects.HasItem | Scripts/PickupObjects.cs:35-39 | true iff the item is held; throws when it is held twice |
| PickupRegistry.PickupObjects.Pickup | Scripts/PickupObjects.cs:18-24 | appends the item, changes nothing else, and throws `NoPickupableComponent` when it has no `IPickupable` |
| PickupRegistry.PickupObjects.Drop | Scripts/PickupObjects.cs:26-32 | removes the first occurrence; throws `RemoveFailed` exactly when the item was not held |
| PickupRegistry.PickupThenDrop | Scripts/PickupObjects.cs:18-39 | `Pickup` then `Drop` of an unheld item restores the list, and `HasItem` is true in between |
| PickupContact.HasItem | Scripts/Item.cs:313-315 | `IPickup.HasItem` on whichever holder the other party carries: membership, or an exception on a duplicate |
| GameObjectUtil.Visit | Scripts/Utilities.cs:34-42 | the handler calls of `Iterate(parent)`, at least one per direct child; pinned down by the lemmas below |
| GameObjectUtil.VisitAll | Scripts/Utilities.cs:36-41 | the handler calls of the `foreach` over a run of children, at least one per child |
| GameObjectUtil.NoRecurseVisitsChildren | Scripts/Utilities.cs:36-38 | without recursion the handler gets exactly the direct children, in order |
| GameObjectUtil.RecurseVisitCount | Scripts/Utilities.cs:36-41 | with recursion the handler is called once per descendant |
| GameObjectUtil.ParentNeverHandled | Scripts/Utilities.cs:34-42 | the parent itself is never handed to the handler |
| GameObjectUtil.RecurseVisitsDescendants | Scripts/Utilities.cs:36-41 | with recursion an object is handled iff it is a descendant of the parent |
| GameObjectUtil.PreOrder | Scripts/Utilities.cs:37-40 | each handled object is followed immediately by the calls for its own subtree |
| GameObjectUtil.VisitAllAppend | Scripts/Utilities.cs:36 | the calls for two runs of siblings are the first run's calls followed by the second's |
| GameObjectUtil.Iterate | Scripts/Utilities.cs:34-42 | the loop-and-recursion hands the handler exactly the pre-order visit sequence |
| GameObjectUtil.IterateChildren | Scripts/Utilities.cs:24-26 | behaves exactly as `Iterate` |
| Items.ShotTransition | Scripts/Item.cs:175-204 | one pass of the fire loop: it is an inactive poll iff the item is inactive; a shot raises the counter by one; a reload sets it to 0 and needs a clip |
| Items.Resume | Scripts/Item.cs:173-208 | consecutive passes: one step per resumption, each an inactive poll iff the item was inactive at it |
| Items.ShotTransitionCases | Scripts/Item.cs:175-206 | a step fires iff the item is active, the trigger is held and the clip is not spent; it reloads iff the clip is spent; a shot raises the counter by one, a reload resets it to 0, anything else leaves it |
| Items.InactiveNeverFires | Scripts/Item.cs:175-206 | while inactive, no step fires and the counter never changes |
| Items.CounterStaysInClip | Scripts/Item.cs:196-201 | with a clip the counter stays within 0 .. ammoClipSize + 1 for any inputs |
| Items.ClipThenReload | Scripts/Item.cs:196-202 | holding the trigger from counter k fires ammoClipSize + 1 - k shots, then reloads to 0 |
| Items.FullClipCycle | Scripts/Item.cs:102 | from a fresh counter, exactly ammoClipSize + 1 shots fire before the first reload |
| Items.Item.constructor | Scripts/Item.cs:98-102 | a new item is inactive and free, with a zero counter and its fire loop scheduled |
| Items.Item.ChildIds | Scripts/Item.cs:287-288 | the objects `ActivateChildren` touches: never the item's own object |
| Items.Item.ActivateChildren | Scripts/Item.cs:286-292 | every object below the item gets the flag; the item's own object and unrelated objects keep theirs |
| Items.Item.EnableItem | Scripts/Item.cs:294-301 | the active flag, every renderer, every collider and every child object follow the argument |
| Items.Item.ChangePhysics | Scripts/Item.cs:256-261 | kinematic and trigger both follow removePhysics |
| Items.Item.AlignPositionOnPickup | Scripts/Item.cs:304-308 | the local pose becomes the weapon offsets |
| Items.Item.GetPickedPickup | Scripts/Item.cs:268-276 | the item ends hidden and inactive, kinematic, a trigger, at the weapon offsets |
| Items.Item.GetDropped | Scripts/Item.cs:279-284 | physics back on, owner cleared, active flag untouched |
| Items.Item.SetOwner | Scripts/Item.cs:328-334 | the owner changes only to a holder with a Rigidbody |
| Items.Item.ShootWeapon | Scripts/Item.cs:213-224 | with an owner, bulletsPerShot projectiles and as many recoils; without one, one projectile then a null-reference throw |
| Items.Item.ShotStep | Scripts/Item.cs:170-209 | one resumption follows the step relation on the counter; a shot yields ShootWeapon's events; a throwing shot ends the coroutine for good, and every later resumption is reported as `Stopped` |
| Items.Item.PickedUpByManager | Scripts/Item.cs:319-322 | the manager appends the item; the item is placed, and shown iff the manager's pass succeeded, over renderer and collider lists of unchanged length; under no duplicates it is then the only enabled item |
| Items.Item.PickedUpByObjects | Scripts/Item.cs:319-322 | the holder appends the item; the item stays hidden and inactive over renderer and collider lists of unchanged length, placed, with its owner set |
| Items.Item.OnCollisionEnter | Scripts/Item.cs:311-325 | nothing changes without an `IPickup` or when it already holds the item; otherwise the item is appended once and placed, the owner is set only to a holder with a Rigidbody, the counter, the coroutine and the lengths of the renderer and collider lists are untouched, a manager's flags are its `ForEach` walk, and after a successful manager pass on a duplicate-free list exactly one held item is enabled; the held list stays duplicate-free |
| PhysicsWeapons.FindRenderer | Scripts/PhysicsWeapon.cs:88-96 | the own renderer first, then one in the children; neither is `MissingRenderer` |
| PhysicsWeapons.PhysicsWeapon.constructor | Scripts/PhysicsWeapon.cs:66-67 | a new weapon is inactive, has no owner and no renderer yet |
| PhysicsWeapons.PhysicsWeapon.Start | Scripts/PhysicsWeapon.cs:78-97 | schedules the fire loop, then records the renderer found or throws, with the loop still scheduled |
| PhysicsWeapons.PhysicsWeapon.ShootWeapon | Scripts/PhysicsWeapon.cs:130-140 | one projectile; one recoil iff there is an owner, otherwise a null-reference throw |
| PhysicsWeapons.PhysicsWeapon.ShotStep | Scripts/PhysicsWeapon.cs:115-127 | a step fires iff the button is held and the weapon is active; a throwing shot ends the coroutine |
| PhysicsWeapons.PhysicsWeapon.ChangePhysics | Scripts/PhysicsWeapon.cs:158-163 | kinematic and trigger both follow removePhysics |
| PhysicsWeapons.PhysicsWeapon.AlignPositionOnPickup | Scripts/PhysicsWeapon.cs:195-199 | the local pose becomes the weapon offsets |
| PhysicsWeapons.PhysicsWeapon.GetPickedPickup | Scripts/PhysicsWeapon.cs:170-177 | physics off, active at once, snapped to the offsets |
| PhysicsWeapons.PhysicsWeapon.GetDropped | Scripts/PhysicsWeapon.cs:180-185 | inactive, physics back on, owner cleared |
| PhysicsWeapons.PhysicsWeapon.SetActive | Scripts/PhysicsWeapon.cs:187-192 | the active flag and the renderer follow the argument; without a renderer the flag is set, then a null-reference throw |
| PhysicsWeapons.PhysicsWeapon.SetOwner | Scripts/PhysicsWeapon.cs:219-225 | the owner changes only to a holder with a Rigidbody |
| PhysicsWeapons.PhysicsWeapon.PickedUpByManager | Scripts/PhysicsWeapon.cs:210-213 | the manager appends the weapon, whose `SetActiveItem` pass then throws on the missing `Item` after setting the flags of the `Item`s before it; the weapon is active, placed, owned, and its renderer reference, renderer flag and coroutine are untouched |
| PhysicsWeapons.PhysicsWeapon.PickedUpByObjects | Scripts/PhysicsWeapon.cs:210-213 | the holder appends the weapon; it is active, placed, owned, and its renderer reference, renderer flag and coroutine are untouched |
| PhysicsWeapons.PhysicsWeapon.OnCollisionEnter | Scripts/PhysicsWeapon.cs:202-216 | nothing changes without an `IPickup` or when it already holds the weapon; otherwise the weapon is appended once and picked up, owned only by a holder with a Rigidbody, its coroutine, renderer reference and renderer flag untouched, and a manager's flags are those of its throwing `ForEach` walk |
| Cameras.OnlyAt | Scripts/CamSwitcher.cs:34-39 | exactly the flag at the index is set |
| Cameras.NextIndex | Scripts/CamSwitcher.cs:24 | `(currCam + 1) % Count` is the next index, wrapping to 0 after the last; a zero count throws |
| Cameras.PressTarget | Scripts/CamSwitcher.cs:23-24 | a press selects an index in range; an active camera that is not listed (or none) selects 0; no cameras throws |
| Cameras.Presses | Scripts/CamSwitcher.cs:21-27 | the active camera after n presses: unchanged for no press or no cameras, otherwise one of the cameras |
| Cameras.DistinctIndex | Scripts/CamSwitcher.cs:23 | with distinct cameras, `FindIndex` of the camera at k is k |
| Cameras.PressesAdvance | Scripts/CamSwitcher.cs:21-27 | m presses (m at most the count) from camera k land m places on, wrapping around the end |
| Cameras.FullCycle | Scripts/CamSwitcher.cs:21-27 | as many presses as cameras return to the start; with one camera a press keeps it |
| Cameras.CamSwitcher.constructor | Scripts/CamSwitcher.cs:15-18 | `Start` enables only camera 0 and its listener and makes it active; the tagged cameras are distinct objects |
| Cameras.CamSwitcher.SetActiveCam | Scripts/CamSwitcher.cs:30-46 | only the camera at the index and its listener are enabled; it becomes active; an index out of range disables all and keeps the active camera |
| Cameras.CamSwitcher.Update | Scripts/CamSwitcher.cs:21-27 | no press changes nothing; a press activates the next camera after the active one; no cameras throws a division by zero |

## Left out

- ItemManagement.ItemManager.SetActiveItem: the manager's `enabled` map stands in for the `EnableItem` calls on held items. It is not linked to the `Item` objects, so an `Item` disabled by another pickup or by `CheckItemSwitch` keeps its own active flag in the model.
- ItemManagement.ItemManager.CheckItemSwitch: the same holds for the `EnableItem` calls made by a button switch; they update the manager's map only.
- Items.Item.ChangePhysics: an `Item` object without a Rigidbody, or without a Collider of its own, throws a null reference in the game, before `AlignPositionOnPickup` and before the holder's `Pickup`. The model assumes both components are present. It also keeps a single trigger flag for the two collider writes.
- Coroutine timing is not modelled. This covers `WaitForSeconds`, `shotWaitTime`, `reloadDuration` and the 0.5 s inactive poll. Each resumption is one step.
- Items.Item.ShotStep: the item's coroutine reads the active flag one frame before the fire button. The model samples both at the same step.
- Vector and quaternion math is not modelled: the spread direction, the random spread angle, impulse sizes, `TransformPoint` and `Quaternion.Euler`. A shot is recorded only as counts of projectile and recoil events.
- Audio sources, particle systems, `Instantiate` and `Destroy` are engine side effects and are left out. This includes `Instantiate` of a missing projectile prefab.
- `GetComponent` probing and `SetParent` re-parenting are left out. Components are declared sets, and the holder's transform is not tracked.
- `Item.Start`'s gathering of renderers and colliders, and its missing-reference throws, are not modelled: its call to `IterateChildren` passes the arguments in an order the declaration does not take. The item's renderer and collider counts are constructor parameters.
- The commented-out drop-on-recontact branch of both collision bridges is not live code and is not modelled.
- Items.Item.PickedUpByManager: the bridge requires the item's only `IPickupable` to be its `Item` behaviour, and that the holder does not hold it yet, which is the case `OnCollisionEnter` reaches.
- Items.Item.ShootWeapon: `bulletsPerShot` is a float compared with the loop counter; the model takes its loop count as a `nat`.
- Items.Item.ShotStep: the counter is an unbounded integer; the 32-bit overflow of `currentBulletsShot` without a clip, after 2^31 shots, is not modelled.
- PhysicsWeapons.PhysicsWeapon.PickedUpByManager: `PhysicsWeapon` does not define `EnableItem` or `ActivateChildren`, although the interface lists them. Nothing calls them on a weapon; an `ItemManager` pass throws on it first.
- Cameras.CamSwitcher.SetActiveCam: a camera object lacking a `Camera` or `AudioListener` component (a null-reference throw) is not modelled; every tagged camera is assumed to carry both.
- Cameras.PressesAdvance is stated for up to one full round of presses; longer runs follow by repeating it.
- Interfaces `IPickup` and `IPickupable` have no behaviour; they fix only the method signatures used here.
- Mouse aiming, the 2D controllers, the enemy patrol, the item icon UI, time slowing, bounds resetting and particle effects are outside the modelled logic.
