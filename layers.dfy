/** The z-order rearrangements of the placed-part list, as operations on
    sequences: index 0 is painted first (farthest back), the last index is
    front-most. */
module Layers {

  /** `const temp = s[i]; s[i] = s[j]; s[j] = temp` */
  function Swap<T>(s: seq<T>, i: nat, j: nat): (r: seq<T>)
    requires i < |s| && j < |s|
    ensures |r| == |s|
    ensures r[i] == s[j] && r[j] == s[i]
    ensures forall k :: 0 <= k < |s| && k != i && k != j ==> r[k] == s[k]
  {
    s[i := s[j]][j := s[i]]
  }

  /** `s.splice(i, 1)`: the list without its i-th element. */
  function RemoveAt<T>(s: seq<T>, i: nat): (r: seq<T>)
    requires i < |s|
    ensures |r| == |s| - 1
    ensures forall k :: 0 <= k < i ==> r[k] == s[k]
    ensures forall k :: i <= k < |r| ==> r[k] == s[k + 1]
  {
    s[..i] + s[i + 1..]
  }

  /** Splice out element i and push it: it becomes front-most. */
  function ToFront<T>(s: seq<T>, i: nat): (r: seq<T>)
    requires i < |s|
    ensures |r| == |s| && r[|s| - 1] == s[i]
    ensures r[..|s| - 1] == RemoveAt(s, i)
  {
    RemoveAt(s, i) + [s[i]]
  }

  /** Splice out element i and unshift it: it becomes the back-most. */
  function ToBack<T>(s: seq<T>, i: nat): (r: seq<T>)
    requires i < |s|
    ensures |r| == |s| && r[0] == s[i]
    ensures r[1..] == RemoveAt(s, i)
  {
    [s[i]] + RemoveAt(s, i)
  }

  lemma SwapPermutes<T>(s: seq<T>, i: nat, j: nat)
    requires i < |s| && j < |s|
    ensures multiset(Swap(s, i, j)) == multiset(s)
  {
    assert Swap(s, i, j) == s[i := s[j]][j := s[i]];
  }

  /** Moving a layer up and then down again restores the list. */
  lemma SwapBack<T>(s: seq<T>, i: nat)
    requires i + 1 < |s|
    ensures Swap(Swap(s, i, i + 1), i + 1, i) == s
  {
  }

  lemma RemoveAtSplit<T>(s: seq<T>, i: nat)
    requires i < |s|
    ensures s == s[..i] + [s[i]] + s[i + 1..]
    ensures multiset(s) == multiset(RemoveAt(s, i)) + multiset{s[i]}
  {
    assert s == s[..i] + [s[i]] + s[i + 1..];
  }

  lemma ToFrontPermutes<T>(s: seq<T>, i: nat)
    requires i < |s|
    ensures |ToFront(s, i)| == |s| && ToFront(s, i)[|s| - 1] == s[i]
    ensures multiset(ToFront(s, i)) == multiset(s)
  {
    RemoveAtSplit(s, i);
  }

  lemma ToBackPermutes<T>(s: seq<T>, i: nat)
    requires i < |s|
    ensures |ToBack(s, i)| == |s| && ToBack(s, i)[0] == s[i]
    ensures multiset(ToBack(s, i)) == multiset(s)
  {
    RemoveAtSplit(s, i);
  }

  /** Bringing a part to the front keeps the others in their order, so
      sending it back afterwards gives the same list as sending it back
      directly. */
  lemma FrontThenBack<T>(s: seq<T>, i: nat)
    requires i < |s|
    ensures RemoveAt(ToFront(s, i), |s| - 1) == RemoveAt(s, i)
    ensures ToBack(ToFront(s, i), |s| - 1) == ToBack(s, i)
  {
    var f := ToFront(s, i);
    assert f[..|s| - 1] == RemoveAt(s, i);
    assert f[|s|..] == [];
  }

  /** Symmetrically, sending to the back and then bringing to the front. */
  lemma BackThenFront<T>(s: seq<T>, i: nat)
    requires i < |s|
    ensures RemoveAt(ToBack(s, i), 0) == RemoveAt(s, i)
    ensures ToFront(ToBack(s, i), 0) == ToFront(s, i)
  {
    var b := ToBack(s, i);
    assert b[1..] == RemoveAt(s, i);
    assert b[..0] == [];
  }

  /** No element occurs twice. */
  ghost predicate Distinct<T>(s: seq<T>) {
    forall i, j :: 0 <= i < j < |s| ==> s[i] != s[j]
  }

  lemma DistinctSwap<T>(s: seq<T>, i: nat, j: nat)
    requires i < |s| && j < |s| && Distinct(s)
    ensures Distinct(Swap(s, i, j))
    ensures forall x :: x in Swap(s, i, j) <==> x in s
  {
    var r := Swap(s, i, j);
    forall x | x in s ensures x in r {
      var k :| 0 <= k < |s| && s[k] == x;
      if k == i { assert r[j] == x; } else if k == j { assert r[i] == x; } else { assert r[k] == x; }
    }
  }

  lemma DistinctRemoveAt<T>(s: seq<T>, i: nat)
    requires i < |s| && Distinct(s)
    ensures Distinct(RemoveAt(s, i))
    ensures forall x :: x in RemoveAt(s, i) <==> x in s && x != s[i]
  {
    var r := RemoveAt(s, i);
    forall x | x in s && x != s[i] ensures x in r {
      var k :| 0 <= k < |s| && s[k] == x;
      if k < i { assert r[k] == x; } else { assert r[k - 1] == x; }
    }
  }

  lemma DistinctToFront<T>(s: seq<T>, i: nat)
    requires i < |s| && Distinct(s)
    ensures Distinct(ToFront(s, i))
    ensures forall x :: x in ToFront(s, i) <==> x in s
  {
    DistinctRemoveAt(s, i);
  }

  lemma DistinctToBack<T>(s: seq<T>, i: nat)
    requires i < |s| && Distinct(s)
    ensures Distinct(ToBack(s, i))
    ensures forall x :: x in ToBack(s, i) <==> x in s
  {
    DistinctRemoveAt(s, i);
  }
}
