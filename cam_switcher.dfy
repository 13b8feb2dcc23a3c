/** CamSwitcher: exactly one of the tagged cameras (with its audio listener)
    is enabled, and a switch press moves to the next one cyclically. */
module Cameras {
  import opened Common
  import opened ListOps

  /** Identity of a camera game object. */
  type CamId = nat

  /** One flag per camera: only the one at index is set. */
  function OnlyAt(count: nat, index: int): (flags: seq<bool>)
    ensures |flags| == count
    ensures forall i :: 0 <= i < count ==> (flags[i] <==> i == index)
  {
    seq(count, i => i == index)
  }

  /** Update's next index: (currCam + 1) % cameras.Count. currCam is at least
      -1, so C#'s remainder agrees with Dafny's; a zero count divides by
      zero. */
  function NextIndex(curr: int, count: nat): (r: Result<nat>)
    requires -1 <= curr
    ensures count == 0 <==> r.Err?
    ensures r.Err? ==> r.error == DivideByZero
    ensures r.Ok? ==> r.value < count
    ensures r.Ok? && curr + 1 < count ==> r.value == curr + 1
    ensures r.Ok? && curr + 1 == count ==> r.value == 0
  {
    if count == 0 then Err(DivideByZero) else Ok((curr + 1) % count)
  }

  /** The camera a press selects, given the cameras and the active one (none
      when activeCam was never set or is not listed). */
  function PressTarget(cameras: seq<CamId>, active: Option<CamId>): (r: Result<nat>)
    ensures |cameras| == 0 <==> r.Err?
    ensures r.Ok? ==> r.value < |cameras|
    ensures r.Ok? && (active.None? || active.value !in cameras) ==> r.value == 0
  {
    var curr := if active.Some? then IndexOf(cameras, active.value) else -1;
    NextIndex(curr, |cameras|)
  }

  /** The active camera after n presses, starting from the given one. */
  function Presses(cameras: seq<CamId>, active: Option<CamId>, n: nat): (r: Option<CamId>)
    ensures n == 0 || |cameras| == 0 ==> r == active
    ensures n > 0 && |cameras| > 0 ==> r.Some? && r.value in cameras
    decreases n
  {
    if n == 0 then active
    else match PressTarget(cameras, active)
      case Err(_) => active
      case Ok(k) => Presses(cameras, Some(cameras[k]), n - 1)
  }

  /** With distinct cameras, the camera at k is found at k. */
  lemma DistinctIndex(cameras: seq<CamId>, k: nat)
    requires NoDup(cameras) && k < |cameras|
    ensures IndexOf(cameras, cameras[k]) == k
  {
  }

  /** m presses (at most one full round) from the camera at index k land m
      places further on, wrapping past the end of the list. */
  lemma {:induction false} PressesAdvance(cameras: seq<CamId>, k: nat, m: nat)
    requires NoDup(cameras) && k < |cameras| && m <= |cameras|
    ensures Presses(cameras, Some(cameras[k]), m)
         == Some(cameras[if k + m < |cameras| then k + m else k + m - |cameras|])
    decreases m
  {
    if m > 0 {
      DistinctIndex(cameras, k);
      var next := PressTarget(cameras, Some(cameras[k])).value;
      assert next == if k + 1 < |cameras| then k + 1 else 0;
      PressesAdvance(cameras, next, m - 1);
    }
  }

  /** Pressing as many times as there are cameras comes back to the starting
      camera; with one camera every press keeps it. */
  lemma FullCycle(cameras: seq<CamId>, k: nat)
    requires NoDup(cameras) && k < |cameras|
    ensures Presses(cameras, Some(cameras[k]), |cameras|) == Some(cameras[k])
    ensures |cameras| == 1 ==> Presses(cameras, Some(cameras[k]), 1) == Some(cameras[k])
  {
    PressesAdvance(cameras, k, |cameras|);
    PressesAdvance(cameras, k, 1);
  }

  class CamSwitcher {
    /** The objects tagged as cameras, in the order the scene returned them. */
    var cameras: seq<CamId>
    /** Camera.enabled of each camera. */
    var camEnabled: seq<bool>
    /** AudioListener.enabled of each camera. */
    var listenerEnabled: seq<bool>
    var activeCam: Option<CamId>

    ghost predicate Valid()
      reads this
    {
      |camEnabled| == |cameras| && |listenerEnabled| == |cameras| && NoDup(cameras)
    }

    /** Start: collects the cameras (FindGameObjectsWithTag yields each
      tagged object once) and activates the first. */
    constructor (found: seq<CamId>)
      requires NoDup(found)
      ensures Valid() && cameras == found
      ensures camEnabled == OnlyAt(|found|, 0) && listenerEnabled == OnlyAt(|found|, 0)
      ensures activeCam == if |found| > 0 then Some(found[0]) else None
    {
      cameras := found;
      camEnabled := seq(|found|, _ => true);
      listenerEnabled := seq(|found|, _ => true);
      activeCam := None;
      new;
      SetActiveCam(0);
    }

    /** setActiveCam: enables the camera at index and its listener, disables
      the rest; an index outside the list disables all and keeps activeCam. */
    method SetActiveCam(index: int)
      requires Valid()
      modifies this`camEnabled, this`listenerEnabled, this`activeCam
      ensures Valid()
      ensures camEnabled == OnlyAt(|cameras|, index) && listenerEnabled == OnlyAt(|cameras|, index)
      ensures activeCam == if 0 <= index < |cameras| then Some(cameras[index]) else old(activeCam)
    {
      var i := 0;
      while i < |cameras|
        invariant 0 <= i <= |cameras|
        invariant |camEnabled| == |cameras| && |listenerEnabled| == |cameras|
        invariant forall j :: 0 <= j < i ==> (camEnabled[j] <==> j == index)
        invariant forall j :: 0 <= j < i ==> (listenerEnabled[j] <==> j == index)
        invariant activeCam == if 0 <= index < i then Some(cameras[index]) else old(activeCam)
      {
        if index == i {
          camEnabled := camEnabled[i := true];
          listenerEnabled := listenerEnabled[i := true];
          activeCam := Some(cameras[i]);
        } else {
          camEnabled := camEnabled[i := false];
          listenerEnabled := listenerEnabled[i := false];
        }
        i := i + 1;
      }
    }

    /** One frame of Update: on a switch press, activate the next camera
      after the active one; with no cameras the remainder throws. */
    method Update(switchPressed: bool) returns (r: Outcome)
      requires Valid()
      modifies this`camEnabled, this`listenerEnabled, this`activeCam
      ensures Valid()
      ensures !switchPressed ==> r == Pass && unchanged(this)
      ensures switchPressed && |cameras| == 0 ==> r == Fail(DivideByZero) && unchanged(this)
      ensures switchPressed && |cameras| > 0 ==>
                var k := PressTarget(cameras, old(activeCam)).value;
                && r == Pass
                && camEnabled == OnlyAt(|cameras|, k) && listenerEnabled == OnlyAt(|cameras|, k)
                && activeCam == Some(cameras[k])
                && activeCam == Presses(cameras, old(activeCam), 1)
    {
      if !switchPressed {
        return Pass;
      }
      var currCam := if activeCam.Some? then IndexOf(cameras, activeCam.value) else -1;
      var next := NextIndex(currCam, |cameras|);
      if next.Err? {
        return Fail(next.error);
      }
      SetActiveCam(next.value);
      r := Pass;
    }
  }
}
