/** Clients of `usu::vector`: what callers can conclude from the contracts
    alone, on the scenarios the container is meant to support. */
module Scenarios {
  import opened Usu
  import opened Sequences
  import Growth

  /** A range-based traversal: walk from `begin()` with prefix `++` until the
      iterator compares equal to `end()`, reading each slot through `*`. It
      visits exactly the live elements, in index order. */
  method Traverse<T>(v: Vector<T>) returns (xs: seq<T>)
    requires v.Valid()
    ensures xs == v.Contents()
  {
    var it := v.Begin();
    var stop := v.End();
    xs := [];
    while it.NotEquals(stop)
      invariant it.buf == v.data && stop.buf == v.data && stop.pos == v.size
      invariant it.pos <= v.size
      invariant xs == v.data[..it.pos]
      decreases v.size - it.pos
    {
      var x := it.Deref();
      xs := xs + [x];
      var _ := it.Increment();
    }
  }

  /** Removing an element and inserting it again at the same index gives
      back the original contents, capacity and buffer. */
  method RemoveThenReinsert<T>(v: Vector<T>, i: nat)
    requires v.Valid() && i < |v.Contents()|
    modifies v, v.data
    ensures v.Valid()
    ensures v.Contents() == old(v.Contents())
    ensures v.capacity == old(v.capacity) && v.data == old(v.data)
  {
    var r := v.Get(i);
    var o := v.Remove(i);
    o := v.Insert(i, r.value);
    InsertAfterRemove(old(v.Contents()), i);
  }

  /** `insert(size(), x)` has exactly the effect of `add(x)`: the same
      contents, the same capacity, and growth under the same condition. */
  method InsertAtEndActsAsAdd<T>(v: Vector<T>, x: T)
    requires v.Valid()
    modifies v, v.data
    ensures v.Valid()
    ensures v.Contents() == old(v.Contents()) + [x]
    ensures v.capacity == Growth.NextCapacity(v.grow, old(v.size), old(v.capacity))
  {
    var o := v.Insert(v.size, x);
    InsertAtEndIsAppend(old(v.Contents()), x);
  }

  /** Ten appends to a default vector of capacity 10 fill it; the eleventh
      doubles the capacity; inserting at the front shifts everything up, and
      removing the front shifts it back. Every out-of-range access fails. */
  method AppendGrowInsertRemove() {
    var v := new Vector<int>(10, 0);
    var i := 0;
    while i < 10
      invariant 0 <= i <= 10
      invariant v.Valid() && fresh(v.data)
      invariant v.Contents() == seq(i, k => k)
      invariant v.capacity == 10
      invariant forall c :: v.grow(c) == Growth.Doubling(c)
    {
      v.Add(i);
      assert seq(i + 1, k => k) == seq(i, k => k) + [i];
      i := i + 1;
    }
    assert v.Size() == 10 && v.Capacity() == 10;
    v.Add(10);
    assert v.Size() == 11 && v.Capacity() == 20;
    var r := v.Get(10);
    assert r == Ok(10);
    r := v.Get(11);
    assert r == Err(IndexError);

    var o := v.Insert(0, -1);
    assert o == Pass && v.Size() == 12;
    r := v.Get(0);
    assert r == Ok(-1);
    r := v.Get(1);
    assert r == Ok(0);
    o := v.Insert(13, 5);
    assert o == Fail(InsertError) && v.Size() == 12;

    o := v.Remove(0);
    assert o == Pass && v.Size() == 11 && v.Capacity() == 20;
    r := v.Get(0);
    assert r == Ok(0);
    o := v.Remove(11);
    assert o == Fail(RemoveError) && v.Size() == 11;
  }

  /** With the policy `c -> c + 1`, appending eleven elements to a vector of
      initial capacity 10 leaves capacity exactly 11. */
  method IncrementPolicy(xs: seq<int>)
    requires |xs| == 11
  {
    var v := new Vector<int>.FromListWithPolicy(10, 0, xs, (c: nat) => c + 1);
    Growth.IncrementPolicyGrowsByOne(10);
    assert v.Capacity() == 11 && v.Size() == 11;
  }

  /** Doubling every element of {1, 2, 3} in place gives {2, 4, 6}. */
  method DoubleInPlace() {
    var v := new Vector<int>.FromList(10, 0, [1, 2, 3]);
    v.Map(x => 2 * x);
    assert v.Contents() == [2, 4, 6];
    var r := v.Get(2);
    assert r == Ok(6);
  }

  /** An iterator taken before a growth compares unequal to the one taken
      after it, even at the same position: the buffer identity differs. */
  method StaleBegin<T>(v: Vector<T>, x: T) returns (before: Iterator<T>, after: Iterator<T>)
    requires v.Valid() && |v.Contents()| == v.capacity
    modifies v, v.data
    ensures before.pos == after.pos && before.NotEquals(after)
  {
    before := v.Begin();
    v.Add(x);
    after := v.Begin();
  }
}
