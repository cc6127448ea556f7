/** The abstract effect of the vector's shifting operations and of its
    element-wise traversal, stated on sequences of live elements. */
module Sequences {

  /** The contents after inserting `v` at position `i`: everything before `i`
      stays, `v` lands at `i`, everything from `i` on moves up one slot. */
  function InsertAt<T>(s: seq<T>, i: nat, v: T): (r: seq<T>)
    requires i <= |s|
    ensures |r| == |s| + 1
    ensures forall k :: 0 <= k < i ==> r[k] == s[k]
    ensures r[i] == v
    ensures forall k :: i < k < |r| ==> r[k] == s[k - 1]
  {
    s[..i] + [v] + s[i..]
  }

  /** The contents after removing position `i`: everything before `i` stays,
      everything after `i` moves down one slot. */
  function RemoveAt<T>(s: seq<T>, i: nat): (r: seq<T>)
    requires i < |s|
    ensures |r| == |s| - 1
    ensures forall k :: 0 <= k < i ==> r[k] == s[k]
    ensures forall k :: i <= k < |r| ==> r[k] == s[k + 1]
  {
    s[..i] + s[i + 1..]
  }

  /** The contents after applying `f` to every element, first to last. */
  function Apply<T>(f: T -> T, s: seq<T>): (r: seq<T>)
    ensures |r| == |s|
    ensures forall k :: 0 <= k < |s| ==> r[k] == f(s[k])
  {
    if s == [] then [] else [f(s[0])] + Apply(f, s[1..])
  }

  /** Inserting at the end is appending. */
  lemma InsertAtEndIsAppend<T>(s: seq<T>, v: T)
    ensures InsertAt(s, |s|, v) == s + [v]
  {
  }

  /** Removing what was just inserted gives back the original contents. */
  lemma RemoveAfterInsert<T>(s: seq<T>, i: nat, v: T)
    requires i <= |s|
    ensures RemoveAt(InsertAt(s, i, v), i) == s
  {
  }

  /** Re-inserting a removed element at its old position restores the
      contents: the shift round-trip law. */
  lemma InsertAfterRemove<T>(s: seq<T>, i: nat)
    requires i < |s|
    ensures InsertAt(RemoveAt(s, i), i, s[i]) == s
  {
  }
}
