/**
 * The JavaScript array primitives the playground's bookkeeping relies on, as functions on
 * sequences: `indexOf`, `push` behind a membership test, `splice(index)` with no count, and
 * `splice(index, 1)`, the call that removes exactly one element; and the removal of a child
 * from a three.js node's child list.
 */
module ArrayOps {

  /** No element occurs twice. */
  predicate Unique<T(==)>(s: seq<T>) {
    forall i, j | 0 <= i < j < |s| :: s[i] != s[j]
  }

  /** `s.indexOf(x)`: the first position of `x`, or -1 when `x` does not occur. */
  function IndexOf<T(==)>(s: seq<T>, x: T): (r: int)
    ensures -1 <= r < |s|
    ensures r == -1 <==> x !in s
    ensures 0 <= r ==> s[r] == x && x !in s[..r]
  {
    if s == [] then -1
    else if s[0] == x then 0
    else
      var i := IndexOf(s[1..], x);
      if i == -1 then -1
      else
        assert s[..i + 1] == [s[0]] + s[1..][..i];
        i + 1
  }

  /** `if (s.indexOf(x) == -1) s.push(x)`: append `x` unless it is already there. */
  function Added<T(==)>(s: seq<T>, x: T): (r: seq<T>)
    ensures x in r
    ensures x in s ==> r == s
    ensures x !in s ==> r == s + [x]
    ensures Unique(s) ==> Unique(r)
  {
    if IndexOf(s, x) == -1 then s + [x] else s
  }

  /**
   * `let i = s.indexOf(x); if (i != -1) s.splice(i)`: with no count, `splice` cuts the array at
   * the first occurrence of `x`, so `x` and everything after it are dropped.
   */
  function Removed<T(==)>(s: seq<T>, x: T): (r: seq<T>)
    ensures x !in r
    ensures r <= s
    ensures x !in s ==> r == s
    ensures x in s ==> |r| < |s| && s[|r|] == x
    ensures Unique(s) ==> Unique(r)
  {
    var i := IndexOf(s, x);
    if i == -1 then s else s[..i]
  }

  /** `let i = s.indexOf(x); if (i != -1) s.splice(i, 1)`: drop the first occurrence only. */
  function RemovedOne<T(==)>(s: seq<T>, x: T): (r: seq<T>)
    ensures x !in s ==> r == s
    ensures x in s ==> |r| == |s| - 1
    ensures multiset(r) == multiset(s) - multiset{x}
  {
    var i := IndexOf(s, x);
    if i == -1 then s
    else
      assert s == s[..i] + [x] + s[i + 1..];
      s[..i] + s[i + 1..]
  }

  /**
   * `s` with every occurrence of `x` taken out, the rest in order: three.js `Object3D.remove`
   * on a node's child list, which the selection group undergoes when a root is detached.
   */
  function Without<T(==)>(s: seq<T>, x: T): (r: seq<T>)
    ensures x !in r
    ensures forall y :: y in r ==> y in s
    ensures forall y :: y in s && y != x ==> y in r
    ensures |r| <= |s|
    ensures x !in s ==> r == s
  {
    if s == [] then []
    else if s[0] == x then Without(s[1..], x)
    else [s[0]] + Without(s[1..], x)
  }

  /** Adding an element already added changes nothing. */
  lemma AddedIsIdempotent<T>(s: seq<T>, x: T)
    ensures Added(Added(s, x), x) == Added(s, x)
  {
  }

  /** Removing an element that `Added` has just appended restores the array. */
  lemma RemovedUndoesAdded<T>(s: seq<T>, x: T)
    requires x !in s
    ensures Removed(Added(s, x), x) == s
  {
  }

  /** In an array without duplicates, removing the element at `i` leaves its first `i` elements. */
  lemma RemovedAt<T>(s: seq<T>, i: nat)
    requires Unique(s) && i < |s|
    ensures Removed(s, s[i]) == s[..i]
  {
  }

  /** Removing the first element leaves nothing at all. */
  lemma RemovedFirstEmpties<T>(s: seq<T>)
    requires s != []
    ensures Removed(s, s[0]) == []
  {
  }

  /**
   * The truncation is not a set difference: from `[a, b]`, removing `a` also drops `b`,
   * where `splice(index, 1)` keeps it.
   */
  lemma RemovedDropsFollowers<T>(a: T, b: T)
    requires a != b
    ensures Removed([a, b], a) == []
    ensures RemovedOne([a, b], a) == [b]
  {
  }

  /** Without duplicates, `RemovedOne` is exactly set difference, as a set-based selection expects. */
  lemma RemovedOneIsSetDifference<T>(s: seq<T>, x: T, y: T)
    requires Unique(s)
    ensures y in RemovedOne(s, x) <==> y in s && y != x
  {
  }
}
