/** MyUtilities.GameObjectUtil: applying a handler to the children of a game
    object, optionally to all descendants. The handler's calls are recorded as
    the sequence of game objects it receives. */
module GameObjectUtil {

  type ObjId = nat

  /** A game object and its transform children, in child order. */
  datatype GameObject = GameObject(id: ObjId, children: seq<GameObject>)

  datatype RecurseType = Recurse | NoRecurse

  /** The objects handed to the handler by Iterate(parent, handler, rt), in
      call order. */
  function Visit(parent: GameObject, rt: RecurseType): (handled: seq<GameObject>)
    ensures |parent.children| <= |handled|
    decreases parent, 1
  {
    VisitAll(parent.children, rt)
  }

  /** The handler calls for the foreach over the children cs: each child,
      then (when recursing) everything below it, then the next child. */
  function VisitAll(cs: seq<GameObject>, rt: RecurseType): (handled: seq<GameObject>)
    ensures |cs| <= |handled|
    decreases cs, 0
  {
    if cs == [] then []
    else [cs[0]] + (if rt == Recurse then Visit(cs[0], rt) else []) + VisitAll(cs[1..], rt)
  }

  /** Number of game objects in the hierarchy rooted at g, g included. */
  function Size(g: GameObject): nat
    decreases g, 1
  {
    1 + ForestSize(g.children)
  }

  function ForestSize(cs: seq<GameObject>): nat
    decreases cs, 0
  {
    if cs == [] then 0 else Size(cs[0]) + ForestSize(cs[1..])
  }

  /** d lies strictly below p in the hierarchy. */
  ghost predicate IsDescendant(d: GameObject, p: GameObject)
    decreases p
  {
    exists c :: c in p.children && (d == c || IsDescendant(d, c))
  }

  /** Without recursion the handler sees each direct child once, in order. */
  lemma {:induction false} NoRecurseVisitsChildren(cs: seq<GameObject>)
    ensures VisitAll(cs, NoRecurse) == cs
  {
    if cs != [] {
      NoRecurseVisitsChildren(cs[1..]);
    }
  }

  /** With recursion the handler is called once per descendant. */
  lemma {:induction false} RecurseVisitCount(cs: seq<GameObject>)
    ensures |VisitAll(cs, Recurse)| == ForestSize(cs)
    decreases cs
  {
    if cs != [] {
      RecurseVisitCount(cs[0].children);
      RecurseVisitCount(cs[1..]);
    }
  }

  /** Everything handled under cs is no larger than the forest cs. */
  lemma {:induction false} VisitedAreSmaller(cs: seq<GameObject>, rt: RecurseType)
    ensures forall d :: d in VisitAll(cs, rt) ==> Size(d) <= ForestSize(cs)
    decreases cs
  {
    if cs != [] {
      VisitedAreSmaller(cs[0].children, rt);
      VisitedAreSmaller(cs[1..], rt);
    }
  }

  /** The parent itself is never passed to the handler. */
  lemma ParentNeverHandled(parent: GameObject, rt: RecurseType)
    ensures parent !in Visit(parent, rt)
  {
    VisitedAreSmaller(parent.children, rt);
  }

  /** With recursion, the handled objects are exactly the descendants. */
  lemma {:induction false} RecurseVisitsDescendants(cs: seq<GameObject>, d: GameObject)
    ensures d in VisitAll(cs, Recurse) <==> exists c :: c in cs && (d == c || IsDescendant(d, c))
    decreases cs
  {
    if cs != [] {
      var below, rest := VisitAll(cs[0].children, Recurse), VisitAll(cs[1..], Recurse);
      assert VisitAll(cs, Recurse) == [cs[0]] + below + rest;
      RecurseVisitsDescendants(cs[0].children, d);
      RecurseVisitsDescendants(cs[1..], d);
      assert IsDescendant(d, cs[0]) <==> d in below;
      if d in VisitAll(cs, Recurse) {
        if d == cs[0] || d in below {
          assert cs[0] in cs;
        } else {
          var c :| c in cs[1..] && (d == c || IsDescendant(d, c));
          assert c in cs;
        }
      }
      if exists c :: c in cs && (d == c || IsDescendant(d, c)) {
        var c :| c in cs && (d == c || IsDescendant(d, c));
        if c != cs[0] {
          assert c in cs[1..];
        }
      }
    }
  }

  /** The calls for t[i]'s own subtree come right after t[i] in t. */
  ghost predicate SubtreeFollows(t: seq<GameObject>, i: nat)
    requires i < |t|
  {
    var sub := Visit(t[i], Recurse);
    i + 1 + |sub| <= |t| && t[i + 1..i + 1 + |sub|] == sub
  }

  /** Pre-order: every handled object is followed at once by the calls for
      its own subtree. */
  lemma {:induction false} PreOrder(cs: seq<GameObject>, i: nat)
    requires i < |VisitAll(cs, Recurse)|
    ensures SubtreeFollows(VisitAll(cs, Recurse), i)
    decreases cs, 1
  {
    var sub := Visit(cs[0], Recurse);
    VisitAllParts(cs);
    if i == 0 {
      ConcatParts(cs[0], sub, VisitAll(cs[1..], Recurse));
    } else if i <= |sub| {
      PreOrderInFirst(cs, i);
    } else {
      PreOrderInRest(cs, i);
    }
  }

  /** PreOrder for a position inside the first child's subtree. */
  lemma {:induction false} PreOrderInFirst(cs: seq<GameObject>, i: nat)
    requires cs != [] && 0 < i <= |Visit(cs[0], Recurse)|
    requires i < |VisitAll(cs, Recurse)|
    ensures SubtreeFollows(VisitAll(cs, Recurse), i)
    decreases cs, 0
  {
    var t := VisitAll(cs, Recurse);
    var sub := Visit(cs[0], Recurse);
    VisitAllParts(cs);
    ConcatParts(cs[0], sub, VisitAll(cs[1..], Recurse));
    PreOrder(cs[0].children, i - 1);
    ShiftFollows(t, 1, sub, i - 1);
  }

  /** PreOrder for a position among the later children's calls. */
  lemma {:induction false} PreOrderInRest(cs: seq<GameObject>, i: nat)
    requires cs != [] && |Visit(cs[0], Recurse)| < i < |VisitAll(cs, Recurse)|
    ensures SubtreeFollows(VisitAll(cs, Recurse), i)
    decreases cs, 0
  {
    var sub, rest := Visit(cs[0], Recurse), VisitAll(cs[1..], Recurse);
    VisitAllParts(cs);
    assert |VisitAll(cs, Recurse)| == 1 + |sub| + |rest|;
    PreOrder(cs[1..], i - 1 - |sub|);
    FollowsInRest(cs[0], sub, rest, i - 1 - |sub|);
  }

  /** A subtree run found in the later children's calls stays intact once
      the first child and its subtree are put in front. */
  lemma FollowsInRest(x: GameObject, sub: seq<GameObject>, rest: seq<GameObject>, k: nat)
    requires k < |rest| && SubtreeFollows(rest, k)
    ensures |[x] + sub + rest| == 1 + |sub| + |rest|
    ensures SubtreeFollows([x] + sub + rest, 1 + |sub| + k)
  {
    ConcatParts(x, sub, rest);
    ShiftFollows([x] + sub + rest, 1 + |sub|, rest, k);
  }

  /** The handler calls for cs: the first child, its subtree's calls, then
      the later children's calls. */
  lemma VisitAllParts(cs: seq<GameObject>)
    requires cs != []
    ensures VisitAll(cs, Recurse) == [cs[0]] + Visit(cs[0], Recurse) + VisitAll(cs[1..], Recurse)
  {
  }

  lemma ConcatParts<T>(x: T, b: seq<T>, c: seq<T>)
    ensures |[x] + b + c| == 1 + |b| + |c| && ([x] + b + c)[0] == x
    ensures ([x] + b + c)[1..1 + |b|] == b
    ensures ([x] + b + c)[1 + |b|..1 + |b| + |c|] == c
  {
  }

  /** A subtree run found inside u stays intact where u sits inside t. */
  lemma ShiftFollows(t: seq<GameObject>, off: nat, u: seq<GameObject>, k: nat)
    requires off + |u| <= |t| && t[off..off + |u|] == u
    requires k < |u| && SubtreeFollows(u, k)
    ensures SubtreeFollows(t, off + k)
  {
    SliceOfSlice(t, off, u, k, |Visit(u[k], Recurse)|);
  }

  /** A run u found at offset off inside t: the entries of u and its slices
      sit at the shifted positions of t. */
  lemma SliceOfSlice<T>(t: seq<T>, off: nat, u: seq<T>, k: nat, n: nat)
    requires off + |u| <= |t| && t[off..off + |u|] == u
    requires k + 1 + n <= |u|
    ensures t[off + k] == u[k]
    ensures t[off + k + 1..off + k + 1 + n] == u[k + 1..k + 1 + n]
  {
    forall j | 0 <= j < |u| ensures u[j] == t[off + j] {
      assert t[off..off + |u|][j] == t[off + j];
    }
  }

  /** The handler calls for two runs of siblings are the calls for the first
      followed by the calls for the second. */
  lemma {:induction false} VisitAllAppend(a: seq<GameObject>, b: seq<GameObject>, rt: RecurseType)
    ensures VisitAll(a + b, rt) == VisitAll(a, rt) + VisitAll(b, rt)
  {
    if a == [] {
      assert a + b == b;
    } else {
      assert (a + b)[0] == a[0];
      assert (a + b)[1..] == a[1..] + b;
      VisitAllAppend(a[1..], b, rt);
    }
  }

  /** Iterate: a foreach over the parent's children that hands each child to
      the handler and, when recursing, descends into it before the next
      child. Returns the handler calls in order. */
  method Iterate(parent: GameObject, rt: RecurseType) returns (handled: seq<GameObject>)
    ensures handled == Visit(parent, rt)
    decreases parent
  {
    var children := parent.children;
    handled := [];
    var i := 0;
    while i < |children|
      invariant 0 <= i <= |children|
      invariant handled == VisitAll(children[..i], rt)
    {
      var child := children[i];
      var below := [];
      if rt == Recurse {
        below := Iterate(child, rt);
      }
      VisitStep(children, i, rt);
      handled := handled + [child] + below;
      i := i + 1;
    }
    assert children[..i] == children;
  }

  /** The calls for the first i + 1 children: those for the first i, then
      child i and (when recursing) its subtree's calls. */
  lemma VisitStep(children: seq<GameObject>, i: nat, rt: RecurseType)
    requires i < |children|
    ensures VisitAll(children[..i + 1], rt)
              == VisitAll(children[..i], rt) + [children[i]] + (if rt == Recurse then Visit(children[i], rt) else [])
  {
    assert children[..i + 1] == children[..i] + [children[i]];
    VisitAllAppend(children[..i], [children[i]], rt);
  }

  /** IterateChildren: the public entry point, identical to Iterate. */
  method IterateChildren(parent: GameObject, rt: RecurseType) returns (handled: seq<GameObject>)
    ensures handled == Visit(parent, rt)
  {
    handled := Iterate(parent, rt);
  }
}
