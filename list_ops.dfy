/** The System.Collections.Generic.List and LINQ operations the registries and
    the camera switcher rely on, over sequences compared by identity. */
module ListOps {
  import opened Common

  predicate NoDup<T(==)>(s: seq<T>) {
    forall i, j :: 0 <= i < j < |s| ==> s[i] != s[j]
  }

  /** List.IndexOf / List.FindIndex with an identity test: the first index
      holding x, or -1. */
  function IndexOf<T(==)>(s: seq<T>, x: T): (i: int)
    ensures -1 <= i < |s|
    ensures i == -1 <==> x !in s
    ensures 0 <= i ==> s[i] == x && x !in s[..i]
  {
    if s == [] then -1
    else if s[0] == x then 0
    else
      var j := IndexOf(s[1..], x);
      if j == -1 then -1
      else
        assert s[..j + 1] == [s[0]] + s[1..][..j];
        j + 1
  }

  /** List.Remove: removes the first occurrence of x, if any. */
  function Remove<T(==)>(s: seq<T>, x: T): (r: seq<T>)
    ensures x !in s ==> r == s
    ensures x in s ==> |r| == |s| - 1
    ensures multiset(r) == multiset(s) - multiset{x}
  {
    if s == [] then []
    else
      assert s == [s[0]] + s[1..];
      if s[0] == x then s[1..]
      else [s[0]] + Remove(s[1..], x)
  }

  /** Remove takes out exactly the first occurrence and keeps the others in
      their order. */
  lemma {:induction false} RemoveFirstOccurrence<T>(s: seq<T>, x: T)
    requires x in s
    ensures Remove(s, x) == s[..IndexOf(s, x)] + s[IndexOf(s, x) + 1..]
  {
    if s[0] != x {
      var t := s[1..];
      assert x in t by {
        assert s == [s[0]] + t;
      }
      RemoveFirstOccurrence(t, x);
      var j := IndexOf(t, x);
      assert IndexOf(s, x) == j + 1;
      ConsSlices(s, j);
    }
  }

  lemma ConsSlices<T>(s: seq<T>, j: nat)
    requires j + 1 < |s|
    ensures [s[0]] + (s[1..][..j] + s[1..][j + 1..]) == s[..j + 1] + s[j + 2..]
  {
    assert s[..j + 1] == [s[0]] + s[1..][..j];
    assert s[j + 2..] == s[1..][j + 1..];
  }

  /** Enumerable.SingleOrDefault(i => i == x) != null: whether x is present,
      failing when it is present more than once. */
  function FindSingle<T(==)>(s: seq<T>, x: T): (r: Result<bool>)
    ensures r.Ok? <==> multiset(s)[x] <= 1
    ensures r.Ok? ==> (r.value <==> x in s)
    ensures r.Err? ==> r.error == MultipleMatches
  {
    if s == [] then Ok(false)
    else
      assert s == [s[0]] + s[1..];
      var rest := FindSingle(s[1..], x);
      if rest.Err? then rest
      else if s[0] == x then (if rest.value then Err(MultipleMatches) else Ok(true))
      else rest
  }

  /** Without duplicates every item occurs at most once. */
  lemma {:induction false} NoDupCount<T>(s: seq<T>, x: T)
    requires NoDup(s)
    ensures multiset(s)[x] <= 1
    ensures multiset(s)[x] == 1 <==> x in s
  {
    if s != [] {
      assert s == [s[0]] + s[1..];
      assert NoDup(s[1..]) by {
        forall i, j | 0 <= i < j < |s[1..]| ensures s[1..][i] != s[1..][j] {
          assert s[1..][i] == s[i + 1] && s[1..][j] == s[j + 1];
        }
      }
      NoDupCount(s[1..], x);
      if s[0] == x {
        assert x !in s[1..] by {
          forall k | 0 <= k < |s[1..]| ensures s[1..][k] != x {
            assert s[1..][k] == s[k + 1];
          }
        }
      }
    }
  }

  /** Without duplicates, the SingleOrDefault query never fails. */
  lemma NoDupFindSingle<T>(s: seq<T>, x: T)
    requires NoDup(s)
    ensures FindSingle(s, x) == Ok(x in s)
  {
    NoDupCount(s, x);
  }

  /** Appending an absent item keeps the list free of duplicates. */
  lemma AppendAbsentKeepsNoDup<T>(s: seq<T>, x: T)
    requires NoDup(s) && x !in s
    ensures NoDup(s + [x])
    ensures multiset(s + [x])[x] == 1
  {
    NoDupCount(s, x);
  }

  /** Removing what was just appended restores the list. */
  lemma RemoveAfterAppend<T>(s: seq<T>, x: T)
    requires x !in s
    ensures Remove(s + [x], x) == s
  {
    assert IndexOf(s + [x], x) == |s| by {
      assert (s + [x])[|s|] == x;
      assert (s + [x])[..|s|] == s;
    }
    RemoveFirstOccurrence(s + [x], x);
    assert (s + [x])[..|s|] == s;
  }

  /** After appending an item that was not there, the SingleOrDefault query
      finds it exactly once. */
  lemma AppendThenFind<T>(s: seq<T>, x: T)
    requires x !in s
    ensures FindSingle(s + [x], x) == Ok(true)
  {
    assert multiset(s)[x] == 0;
    assert multiset(s + [x]) == multiset(s) + multiset{x};
  }
}
