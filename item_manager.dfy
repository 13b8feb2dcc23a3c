/** The ItemManager holder: an ordered list of held items, switched by
    numbered buttons, where picking an item up makes it the only enabled one. */
module ItemManagement {
  import opened Common
  import opened ListOps

  /** The enabled flags after a SetActiveItem pass, and whether it completed. */
  datatype Activation = Activation(enabled: map<ItemId, bool>, outcome: Outcome)

  /** Reference for SetActiveItem: each held item enabled exactly when it is
      the target; items not held keep their flag. */
  function EnabledOnly(held: seq<ItemId>, enabled: map<ItemId, bool>, target: ItemId): map<ItemId, bool>
  {
    enabled + map k | k in held :: k == target
  }

  /** Length of the longest prefix of held made of objects carrying an Item
      behaviour: how far SetActiveItem's ForEach gets before it throws. */
  function ItemPrefix(held: seq<ItemId>, items: set<ItemId>): (n: nat)
    ensures n <= |held|
    ensures forall i :: 0 <= i < n ==> held[i] in items
    ensures n < |held| ==> held[n] !in items
  {
    if held == [] || held[0] !in items then 0
    else 1 + ItemPrefix(held[1..], items)
  }

  /** SetActiveItem's ForEach, one held item at a time in list order: an item
      without an Item behaviour throws, and the flags already set stay set. */
  function ActivateWalk(held: seq<ItemId>, enabled: map<ItemId, bool>, target: ItemId, items: set<ItemId>): (a: Activation)
    ensures a.outcome.Fail? ==> a.outcome == Fail(MissingItemComponent)
    ensures enabled.Keys <= a.enabled.Keys
    decreases |held|
  {
    if held == [] then Activation(enabled, Pass)
    else
      var a := ActivateWalk(held[..|held| - 1], enabled, target, items);
      var x := held[|held| - 1];
      if a.outcome.Fail? then a
      else if x !in items then Activation(a.enabled, Fail(MissingItemComponent))
      else Activation(a.enabled[x := x == target], Pass)
  }

  /** Extending the list by one Item extends the EnabledOnly reference by
      that item's flag. */
  lemma EnabledOnlySnoc(init: seq<ItemId>, x: ItemId, enabled: map<ItemId, bool>, target: ItemId)
    ensures EnabledOnly(init, enabled, target)[x := x == target] == EnabledOnly(init + [x], enabled, target)
  {
    var l, r := EnabledOnly(init, enabled, target)[x := x == target], EnabledOnly(init + [x], enabled, target);
    assert forall k :: k in init + [x] <==> k in init || k == x;
    assert l.Keys == r.Keys;
    forall k | k in l.Keys ensures l[k] == r[k] {
    }
  }

  /** How the reachable prefix grows when one object is appended. */
  lemma ItemPrefixSnoc(init: seq<ItemId>, x: ItemId, items: set<ItemId>)
    ensures ItemPrefix(init + [x], items)
              == if ItemPrefix(init, items) < |init| then ItemPrefix(init, items)
                 else if x in items then |init| + 1 else |init|
  {
    var h := init + [x];
    var n', n := ItemPrefix(init, items), ItemPrefix(h, items);
    assert forall i :: 0 <= i < |init| ==> h[i] == init[i];
    assert h[|init|] == x;
  }

  /** The walk completes exactly when every held object is an Item; it has
      then applied EnabledOnly to the whole list, and otherwise to the prefix
      before the first offending object. */
  lemma {:induction false} ActivateWalkCorrect(held: seq<ItemId>, enabled: map<ItemId, bool>, target: ItemId, items: set<ItemId>)
    ensures ActivateWalk(held, enabled, target, items).outcome.Pass? <==> ItemPrefix(held, items) == |held|
    ensures ActivateWalk(held, enabled, target, items).outcome.Fail? ==>
              ActivateWalk(held, enabled, target, items).outcome == Fail(MissingItemComponent)
    ensures ActivateWalk(held, enabled, target, items).enabled
              == EnabledOnly(held[..ItemPrefix(held, items)], enabled, target)
    decreases |held|
  {
    if held == [] {
      assert EnabledOnly([], enabled, target) == enabled;
    } else {
      var init := held[..|held| - 1];
      var x := held[|held| - 1];
      assert held == init + [x];
      ActivateWalkCorrect(init, enabled, target, items);
      ItemPrefixSnoc(init, x, items);
      var n' := ItemPrefix(init, items);
      if n' < |init| {
        assert held[..n'] == init[..n'];
      } else if x in items {
        assert init[..n'] == init;
        assert held[..|held|] == init + [x];
        EnabledOnlySnoc(init, x, enabled, target);
      } else {
        assert init[..n'] == init;
        assert held[..|init|] == init;
      }
    }
  }

  /** Once the walk has thrown on a prefix, the rest of the list is never
      reached. */
  lemma {:induction false} ActivateWalkStops(held: seq<ItemId>, k: nat, enabled: map<ItemId, bool>, target: ItemId, items: set<ItemId>)
    requires k <= |held|
    requires ActivateWalk(held[..k], enabled, target, items).outcome.Fail?
    ensures ActivateWalk(held, enabled, target, items) == ActivateWalk(held[..k], enabled, target, items)
    decreases |held|
  {
    if k < |held| {
      assert held[..|held| - 1][..k] == held[..k];
      ActivateWalkStops(held[..|held| - 1], k, enabled, target, items);
    } else {
      assert held[..k] == held;
    }
  }

  /** Appending an object without an Item behaviour makes the walk throw,
      at that object at the latest. */
  lemma AppendNonItemFails(held: seq<ItemId>, x: ItemId, enabled: map<ItemId, bool>, target: ItemId, items: set<ItemId>)
    requires x !in items
    ensures ActivateWalk(held + [x], enabled, target, items).outcome == Fail(MissingItemComponent)
  {
    ActivateWalkCorrect(held, enabled, target, items);
    assert (held + [x])[..|held|] == held;
  }

  /** With only Item objects held, SetActiveItem on a target that is not
      held completes and leaves every held item disabled. */
  lemma AbsentTargetDisablesAll(held: seq<ItemId>, enabled: map<ItemId, bool>, target: ItemId, items: set<ItemId>)
    requires forall k :: k in held ==> k in items
    requires target !in held
    ensures var a := ActivateWalk(held, enabled, target, items);
            a.outcome == Pass && forall k :: k in held ==> k in a.enabled && !a.enabled[k]
  {
    ActivateWalkCorrect(held, enabled, target, items);
    assert held[..|held|] == held;
  }

  /** Activating one target fixes every held flag regardless of the flags
      before. */
  lemma EnabledOnlyOverwrites(held: seq<ItemId>, enabled: map<ItemId, bool>, t1: ItemId, t2: ItemId)
    ensures EnabledOnly(held, EnabledOnly(held, enabled, t1), t2) == EnabledOnly(held, enabled, t2)
  {
  }

  /** The index whose button CheckItemSwitch acts on last: the greatest
      pressed index below the number of held items, or -1. */
  function LastPressedInRange(pressed: seq<bool>, count: nat): (j: int)
    ensures -1 <= j < |pressed| && j < count
    ensures j == -1 <==> forall i :: 0 <= i < |pressed| && i < count ==> !pressed[i]
    ensures 0 <= j ==> pressed[j] && forall i :: j < i < |pressed| && i < count ==> !pressed[i]
    decreases |pressed|
  {
    if pressed == [] then -1
    else if pressed[|pressed| - 1] && |pressed| - 1 < count then |pressed| - 1
    else LastPressedInRange(pressed[..|pressed| - 1], count)
  }

  /** CheckItemSwitch's scan over the button indices in ascending order: an
      in-range press runs SetActiveItem on that index, an exception ends the
      scan. */
  function SwitchScan(held: seq<ItemId>, enabled: map<ItemId, bool>, items: set<ItemId>, pressed: seq<bool>): (a: Activation)
    ensures a.outcome.Fail? ==> a.outcome == Fail(MissingItemComponent)
    ensures enabled.Keys <= a.enabled.Keys
    decreases |pressed|
  {
    if pressed == [] then Activation(enabled, Pass)
    else
      var a := SwitchScan(held, enabled, items, pressed[..|pressed| - 1]);
      var i := |pressed| - 1;
      if a.outcome.Fail? then a
      else if pressed[i] && i < |held| then ActivateWalk(held, a.enabled, held[i], items)
      else a
  }

  /** With only Item objects held, the scan leaves exactly the last in-range
      pressed item enabled; with no in-range press nothing changes. */
  lemma {:induction false} SwitchSelectsLastPressed(held: seq<ItemId>, enabled: map<ItemId, bool>, items: set<ItemId>, pressed: seq<bool>)
    requires forall k :: k in held ==> k in items
    ensures var j := LastPressedInRange(pressed, |held|);
            SwitchScan(held, enabled, items, pressed)
              == if j < 0 then Activation(enabled, Pass)
                 else Activation(EnabledOnly(held, enabled, held[j]), Pass)
    decreases |pressed|
  {
    if pressed != [] {
      var init := pressed[..|pressed| - 1];
      var i := |pressed| - 1;
      SwitchSelectsLastPressed(held, enabled, items, init);
      var a := SwitchScan(held, enabled, items, init);
      if pressed[i] && i < |held| {
        assert ItemPrefix(held, items) == |held|;
        ActivateWalkCorrect(held, a.enabled, held[i], items);
        assert held[..|held|] == held;
        var j' := LastPressedInRange(init, |held|);
        if 0 <= j' {
          EnabledOnlyOverwrites(held, enabled, held[j'], held[i]);
        }
      }
    }
  }

  /** Number of held entries whose enabled flag is set. */
  function EnabledCount(held: seq<ItemId>, enabled: map<ItemId, bool>): nat
  {
    if held == [] then 0
    else (if held[0] in enabled && enabled[held[0]] then 1 else 0) + EnabledCount(held[1..], enabled)
  }

  /** Without duplicates, a list whose flags say "enabled exactly when equal
      to x" has exactly one enabled entry when x is held. */
  lemma {:induction false} ExactlyOneEnabled(held: seq<ItemId>, enabled: map<ItemId, bool>, x: ItemId)
    requires NoDup(held)
    requires forall k :: k in held ==> k in enabled && (enabled[k] <==> k == x)
    ensures EnabledCount(held, enabled) == if x in held then 1 else 0
  {
    if held != [] {
      assert NoDup(held[1..]) by {
        forall i, j | 0 <= i < j < |held[1..]| ensures held[1..][i] != held[1..][j] {
          assert held[1..][i] == held[i + 1] && held[1..][j] == held[j + 1];
        }
      }
      assert forall k :: k in held[1..] ==> k in held;
      ExactlyOneEnabled(held[1..], enabled, x);
      if held[0] == x {
        assert x !in held[1..] by {
          forall k | 0 <= k < |held[1..]| ensures held[1..][k] != x {
            assert held[1..][k] == held[k + 1];
          }
        }
      } else {
        assert x in held <==> x in held[1..];
      }
    }
  }

  /** ItemManager.Pickup through the collision bridge: the item was not held,
      every held object is an Item, and afterwards the new item is the one and
      only enabled held item. */
  lemma PickupEnablesOnlyNewItem(held: seq<ItemId>, enabled: map<ItemId, bool>, x: ItemId, items: set<ItemId>)
    requires NoDup(held) && x !in held
    requires forall k :: k in held + [x] ==> k in items
    ensures ActivateWalk(held + [x], enabled, x, items).outcome == Pass
    ensures EnabledCount(held + [x], ActivateWalk(held + [x], enabled, x, items).enabled) == 1
  {
    var h := held + [x];
    ActivateWalkCorrect(h, enabled, x, items);
    assert h[..|h|] == h;
    AppendAbsentKeepsNoDup(held, x);
    ExactlyOneEnabled(h, ActivateWalk(h, enabled, x, items).enabled, x);
  }

  class ItemManager {
    /** Which game objects carry which pickup behaviours. */
    const components: Components
    /** The holder's own game object, handed to SetOwner. */
    const holder: HolderRef
    /** One entry per configured item button (itemButtonNames). */
    const buttonCount: nat
    /** The items held, in pickup order. */
    var itemsHeld: seq<ItemId>
    /** The EnableItem flag this manager last gave each item. */
    var enabled: map<ItemId, bool>

    /** Start: the held list begins empty. */
    constructor (components: Components, holder: HolderRef, buttonCount: nat)
      ensures this.components == components && this.holder == holder && this.buttonCount == buttonCount
      ensures itemsHeld == [] && enabled == map[]
    {
      this.components := components;
      this.holder := holder;
      this.buttonCount := buttonCount;
      itemsHeld := [];
      enabled := map[];
    }

    /** IPickup.HasItem: identity membership through SingleOrDefault. */
    function HasItem(item: ItemId): (r: Result<bool>)
      reads this
      ensures r.Ok? <==> multiset(itemsHeld)[item] <= 1
      ensures r.Ok? ==> (r.value <==> item in itemsHeld)
    {
      FindSingle(itemsHeld, item)
    }

    /** Enables the target and disables every other held item, stopping with
      an exception at the first held object that is not an Item. */
    method SetActiveItem(target: ItemId) returns (r: Outcome)
      modifies this`enabled
      ensures Activation(enabled, r) == ActivateWalk(itemsHeld, old(enabled), target, components.items)
    {
      var i := 0;
      while i < |itemsHeld|
        invariant 0 <= i <= |itemsHeld|
        invariant ActivateWalk(itemsHeld[..i], old(enabled), target, components.items) == Activation(enabled, Pass)
      {
        var x := itemsHeld[i];
        assert itemsHeld[..i + 1][..i] == itemsHeld[..i];
        if x !in components.items {
          ActivateWalkStops(itemsHeld, i + 1, old(enabled), target, components.items);
          return Fail(MissingItemComponent);
        }
        enabled := enabled[x := x == target];
        i := i + 1;
      }
      assert itemsHeld[..i] == itemsHeld;
      r := Pass;
    }

    /** Appends the item, hands it this owner (when it has a pickupable
      behaviour) and makes it the active item. */
    method Pickup(item: ItemId) returns (r: Outcome)
      modifies this`itemsHeld, this`enabled
      ensures itemsHeld == old(itemsHeld) + [item]
      ensures !components.Pickupable(item) ==> r == Fail(NoPickupableComponent) && enabled == old(enabled)
      ensures components.Pickupable(item) ==>
                Activation(enabled, r) == ActivateWalk(itemsHeld, old(enabled), item, components.items)
      ensures r.Pass? <==> forall k :: k in itemsHeld ==> k in components.items
      ensures r.Pass? && NoDup(old(itemsHeld)) && item !in old(itemsHeld) ==> EnabledCount(itemsHeld, enabled) == 1
    {
      ghost var held0, enabled0 := itemsHeld, enabled;
      itemsHeld := itemsHeld + [item];
      ActivateWalkCorrect(itemsHeld, enabled0, item, components.items);
      assert itemsHeld[..|itemsHeld|] == itemsHeld;
      if !components.Pickupable(item) {
        assert item !in components.items;
        return Fail(NoPickupableComponent);
      }
      r := SetActiveItem(item);
      if r.Pass? && NoDup(held0) && item !in held0 {
        PickupEnablesOnlyNewItem(held0, enabled0, item, components.items);
      }
    }

    /** Removes the first occurrence of the item; an item not held is a
      logic error. Enabled flags are left alone. */
    method Drop(item: ItemId) returns (r: Outcome)
      modifies this`itemsHeld
      ensures itemsHeld == Remove(old(itemsHeld), item)
      ensures r == if item in old(itemsHeld) then Pass else Fail(RemoveFailed)
    {
      var found := item in itemsHeld;
      itemsHeld := Remove(itemsHeld, item);
      r := if found then Pass else Fail(RemoveFailed);
    }

    /** One frame of button polling; pressed[i] tells whether item button i
      went down this frame. */
    method CheckItemSwitch(pressed: seq<bool>) returns (r: Outcome)
      requires |pressed| == buttonCount
      modifies this`enabled
      ensures Activation(enabled, r) == SwitchScan(itemsHeld, old(enabled), components.items, pressed)
    {
      var i := 0;
      while i < |pressed|
        invariant 0 <= i <= |pressed|
        invariant SwitchScan(itemsHeld, old(enabled), components.items, pressed[..i]) == Activation(enabled, Pass)
      {
        assert pressed[..i + 1][..i] == pressed[..i];
        if pressed[i] && i < |itemsHeld| {
          var o := SetActiveItem(itemsHeld[i]);
          if o.Fail? {
            SwitchScanStops(itemsHeld, old(enabled), components.items, pressed, i + 1);
            return o;
          }
        }
        i := i + 1;
      }
      assert pressed[..i] == pressed;
      r := Pass;
    }
  }

  /** Once SetActiveItem has thrown during a scan, later buttons are not
      looked at. */
  lemma {:induction false} SwitchScanStops(held: seq<ItemId>, enabled: map<ItemId, bool>, items: set<ItemId>, pressed: seq<bool>, k: nat)
    requires k <= |pressed|
    requires SwitchScan(held, enabled, items, pressed[..k]).outcome.Fail?
    ensures SwitchScan(held, enabled, items, pressed) == SwitchScan(held, enabled, items, pressed[..k])
    decreases |pressed|
  {
    if k < |pressed| {
      assert pressed[..|pressed| - 1][..k] == pressed[..k];
      SwitchScanStops(held, enabled, items, pressed[..|pressed| - 1], k);
    } else {
      assert pressed[..k] == pressed;
    }
  }
}
