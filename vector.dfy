/** `usu::vector<T, InitialCapacity>`: a growable array with a pluggable
    growth policy, and its bidirectional iterator. The template parameter
    `InitialCapacity` is a constant given to each constructor; the value a
    fresh slot holds (`T()` in the source) is the constant `blank`. */
module Usu {
  import opened Sequences
  import Growth

  /** The one error kind: an index outside the operation's range. */
  datatype RangeError = RangeError(message: string)

  const IndexError := RangeError("Index out of bounds")
  const InsertError := RangeError("Index out of bounds for insert")
  const RemoveError := RangeError("Index out of bounds for remove")

  /** A value, or the range error thrown instead of producing it. */
  datatype Result<T> = Ok(value: T) | Err(error: RangeError)

  /** Normal completion, or the range error thrown before any mutation. */
  datatype Outcome = Pass | Fail(error: RangeError)

  /** A cursor: a position paired with the identity of the buffer it was
      taken from (`null` for a default-constructed iterator). It does not own
      the buffer and is not told when the vector replaces it. */
  class Iterator<T> {
    var pos: nat
    var buf: array?<T>

    /** The default iterator: position 0, no buffer. */
    constructor ()
      ensures pos == 0 && buf == null
    {
      pos := 0;
      buf := null;
    }

    constructor At(pos: nat, buf: array?<T>)
      ensures this.pos == pos && this.buf == buf
    {
      this.pos := pos;
      this.buf := buf;
    }

    /** Copy construction. */
    constructor Copy(other: Iterator<T>)
      ensures pos == other.pos && buf == other.buf
    {
      pos := other.pos;
      buf := other.buf;
    }

    /** Move construction: takes the position and buffer, and resets the
      source to the default iterator. */
    constructor Take(other: Iterator<T>)
      modifies other
      ensures pos == old(other.pos) && buf == old(other.buf)
      ensures other.pos == 0 && other.buf == null
    {
      pos := other.pos;
      buf := other.buf;
      new;
      other.pos := 0;
      other.buf := null;
    }

    /** Copy assignment; assigning an iterator to itself changes nothing. */
    method Assign(rhs: Iterator<T>)
      modifies this
      ensures pos == old(rhs.pos) && buf == old(rhs.buf)
      ensures rhs != this ==> rhs.pos == old(rhs.pos) && rhs.buf == old(rhs.buf)
    {
      if this != rhs {
        pos := rhs.pos;
        buf := rhs.buf;
      }
    }

    /** Move assignment: as copy assignment, then the source (when it is a
      different iterator) is reset to the default iterator. */
    method MoveAssign(rhs: Iterator<T>)
      modifies this, rhs
      ensures pos == old(rhs.pos) && buf == old(rhs.buf)
      ensures rhs != this ==> rhs.pos == 0 && rhs.buf == null
    {
      if this != rhs {
        pos := rhs.pos;
        buf := rhs.buf;
        rhs.pos := 0;
        rhs.buf := null;
      }
    }

    /** Prefix `++`: advance, and return a copy of the advanced iterator. */
    method Increment() returns (r: Iterator<T>)
      modifies this
      ensures pos == old(pos) + 1 && buf == old(buf)
      ensures fresh(r) && r.pos == pos && r.buf == buf
    {
      pos := pos + 1;
      r := new Iterator.Copy(this);
    }

    /** Postfix `++`: advance, and return a copy of the iterator as it was. */
    method PostIncrement() returns (r: Iterator<T>)
      modifies this
      ensures pos == old(pos) + 1 && buf == old(buf)
      ensures fresh(r) && r.pos == old(pos) && r.buf == buf
    {
      r := new Iterator.Copy(this);
      pos := pos + 1;
    }

    /** Prefix `--`: step back, and return a copy of the moved iterator. */
    method Decrement() returns (r: Iterator<T>)
      requires 0 < pos
      modifies this
      ensures pos == old(pos) - 1 && buf == old(buf)
      ensures fresh(r) && r.pos == pos && r.buf == buf
    {
      pos := pos - 1;
      r := new Iterator.Copy(this);
    }

    /** Postfix `--`: step back, and return a copy of the iterator as it was. */
    method PostDecrement() returns (r: Iterator<T>)
      requires 0 < pos
      modifies this
      ensures pos == old(pos) - 1 && buf == old(buf)
      ensures fresh(r) && r.pos == old(pos) && r.buf == buf
    {
      r := new Iterator.Copy(this);
      pos := pos - 1;
    }

    /** `*it` read: the element in the slot at the cursor. Nothing is checked;
      the caller keeps the position inside a buffer that is still live. */
    method Deref() returns (x: T)
      requires buf != null && pos < buf.Length
      ensures x == buf[pos]
    {
      x := buf[pos];
    }

    /** `*it = x`: a write through the returned reference changes the slot
      at the cursor and no other. */
    method Store(x: T)
      requires buf != null && pos < buf.Length
      modifies buf
      ensures buf[..] == old(buf[..])[pos := x]
    {
      buf[pos] := x;
    }

    /** `==`: same position on the same buffer. */
    predicate Equals(rhs: Iterator<T>)
      reads this, rhs
      ensures Equals(rhs) <==> pos == rhs.pos && buf == rhs.buf
    {
      pos == rhs.pos && buf == rhs.buf
    }

    /** `!=`, written in the source as its own disjunction; it is exactly the
      negation of `==`. */
    predicate NotEquals(rhs: Iterator<T>)
      reads this, rhs
      ensures NotEquals(rhs) <==> !Equals(rhs)
    {
      pos != rhs.pos || buf != rhs.buf
    }
  }

  class Vector<T> {
    const initialCapacity: nat
    /** The growth policy, fixed at construction. */
    const grow: nat -> nat
    /** The value of a default-constructed slot. */
    const blank: T

    var size: nat
    var capacity: nat
    var data: array<T>

    ghost predicate Valid()
      reads this
    {
      size <= capacity && data.Length == capacity &&
      initialCapacity <= capacity &&
      Growth.Progresses(grow, initialCapacity)
    }

    /** The live elements, slots `[0, size)`. */
    ghost function Contents(): seq<T>
      reads this, data
      requires Valid()
    {
      data[..size]
    }

    /** Default construction: empty, `initialCapacity` blank slots, doubling. */
    constructor (initialCapacity: nat, blank: T)
      requires 0 < initialCapacity
      ensures Valid() && fresh(data)
      ensures this.initialCapacity == initialCapacity && this.blank == blank
      ensures forall c :: grow(c) == Growth.Doubling(c)
      ensures Contents() == [] && capacity == initialCapacity
      ensures forall k :: 0 <= k < data.Length ==> data[k] == blank
    {
      this.initialCapacity := initialCapacity;
      this.blank := blank;
      grow := Growth.Doubling;
      size := 0;
      capacity := initialCapacity;
      data := new T[initialCapacity](_ => blank);
    }

    /** Sized construction: `n` blank elements, in twice as many slots when
      `n` exceeds the initial capacity; doubling. */
    constructor Sized(initialCapacity: nat, blank: T, n: nat)
      requires 0 < initialCapacity
      ensures Valid() && fresh(data)
      ensures this.initialCapacity == initialCapacity && this.blank == blank
      ensures forall c :: grow(c) == Growth.Doubling(c)
      ensures Contents() == seq(n, _ => blank)
      ensures capacity == if n > initialCapacity then 2 * n else initialCapacity
      ensures forall k :: 0 <= k < data.Length ==> data[k] == blank
    {
      this.initialCapacity := initialCapacity;
      this.blank := blank;
      grow := Growth.Doubling;
      var cap := if n > initialCapacity then n * 2 else initialCapacity;
      capacity := cap;
      size := n;
      data := new T[cap](_ => blank);
    }

    /** Construction with a caller-supplied growth policy: empty,
      `initialCapacity` blank slots. */
    constructor WithPolicy(initialCapacity: nat, blank: T, resize: nat -> nat)
      requires Growth.Progresses(resize, initialCapacity)
      ensures Valid() && fresh(data)
      ensures this.initialCapacity == initialCapacity && this.blank == blank
      ensures grow == resize
      ensures Contents() == [] && capacity == initialCapacity
      ensures forall k :: 0 <= k < data.Length ==> data[k] == blank
    {
      this.initialCapacity := initialCapacity;
      this.blank := blank;
      grow := resize;
      size := 0;
      capacity := initialCapacity;
      data := new T[initialCapacity](_ => blank);
    }

    /** Sized construction with a caller-supplied growth policy; the initial
      capacity rule is the same as for `Sized`, independent of the policy. */
    constructor SizedWithPolicy(initialCapacity: nat, blank: T, n: nat, resize: nat -> nat)
      requires Growth.Progresses(resize, initialCapacity)
      ensures Valid() && fresh(data)
      ensures this.initialCapacity == initialCapacity && this.blank == blank
      ensures grow == resize
      ensures Contents() == seq(n, _ => blank)
      ensures capacity == if n > initialCapacity then 2 * n else initialCapacity
      ensures forall k :: 0 <= k < data.Length ==> data[k] == blank
    {
      this.initialCapacity := initialCapacity;
      this.blank := blank;
      grow := resize;
      var cap := if n > initialCapacity then n * 2 else initialCapacity;
      capacity := cap;
      size := n;
      data := new T[cap](_ => blank);
    }

    /** List construction: start empty and `Add` each value in turn, so the
      doubling policy applies progressively. */
    constructor FromList(initialCapacity: nat, blank: T, list: seq<T>)
      requires 0 < initialCapacity
      ensures Valid() && fresh(data)
      ensures this.initialCapacity == initialCapacity && this.blank == blank
      ensures forall c :: grow(c) == Growth.Doubling(c)
      ensures Contents() == list
      ensures capacity == Growth.CapacityAfterAdds(grow, initialCapacity, |list|)
    {
      this.initialCapacity := initialCapacity;
      this.blank := blank;
      grow := Growth.Doubling;
      size := 0;
      capacity := initialCapacity;
      data := new T[initialCapacity](_ => blank);
      new;
      AddAll(list);
    }

    /** List construction with a caller-supplied growth policy. */
    constructor FromListWithPolicy(initialCapacity: nat, blank: T, list: seq<T>, resize: nat -> nat)
      requires Growth.Progresses(resize, initialCapacity)
      ensures Valid() && fresh(data)
      ensures this.initialCapacity == initialCapacity && this.blank == blank
      ensures grow == resize
      ensures Contents() == list
      ensures capacity == Growth.CapacityAfterAdds(grow, initialCapacity, |list|)
    {
      this.initialCapacity := initialCapacity;
      this.blank := blank;
      grow := resize;
      size := 0;
      capacity := initialCapacity;
      data := new T[initialCapacity](_ => blank);
      new;
      AddAll(list);
    }

    /** The loop shared by the list constructors: `Add` each value of
      `list`, in order, to a vector that is still at its initial state. */
    method AddAll(list: seq<T>)
      requires Valid() && size == 0 && capacity == initialCapacity
      modifies this, data
      ensures Valid() && (data == old(data) || fresh(data))
      ensures Contents() == list
      ensures capacity == Growth.CapacityAfterAdds(grow, initialCapacity, |list|)
    {
      var i := 0;
      while i < |list|
        invariant 0 <= i <= |list|
        invariant Valid() && (data == old(data) || fresh(data))
        invariant Contents() == list[..i]
        invariant capacity == Growth.CapacityAfterAdds(grow, initialCapacity, i)
      {
        Add(list[i]);
        assert list[..i + 1] == list[..i] + [list[i]];
        i := i + 1;
      }
    }

    /** `operator[]` read: element `index`, or the range error when `index`
      is not below `size`. */
    method Get(index: nat) returns (r: Result<T>)
      requires Valid()
      ensures index < |Contents()| ==> r == Ok(Contents()[index])
      ensures |Contents()| <= index ==> r == Err(IndexError)
    {
      if index >= size {
        return Err(IndexError);
      }
      r := Ok(data[index]);
    }

    /** `operator[]` write through the returned reference: only slot `index`
      changes; out of range, the range error and no change at all. */
    method Set(index: nat, value: T) returns (o: Outcome)
      requires Valid()
      modifies data
      ensures Valid()
      ensures index < size ==> o == Pass && data[..] == old(data[..])[index := value]
      ensures size <= index ==> o == Fail(IndexError) && data[..] == old(data[..])
      ensures index < size ==> Contents() == old(Contents())[index := value]
    {
      if index >= size {
        return Fail(IndexError);
      }
      data[index] := value;
      o := Pass;
    }

    /** Replace a full buffer: allocate `grow(capacity)` blank slots, copy
      the `size` live elements across in order, and switch to the copy. */
    method Reallocate()
      requires Valid() && size == capacity
      modifies this
      ensures Valid() && fresh(data)
      ensures size == old(size) && capacity == grow(old(capacity))
      ensures Contents() == old(Contents())
      ensures forall k :: size <= k < data.Length ==> data[k] == blank
    {
      var newCap := grow(capacity);
      var newData := new T[newCap](_ => blank);
      var i := 0;
      while i < size
        invariant unchanged(this)
        invariant 0 <= i <= size
        invariant forall k :: 0 <= k < i ==> newData[k] == data[k]
        invariant forall k :: size <= k < newCap ==> newData[k] == blank
      {
        newData[i] := data[i];
        i := i + 1;
      }
      assert newData[..size] == data[..size];
      capacity := newCap;
      data := newData;
    }

    /** `add`: append `value`, first growing the buffer when it is full. */
    method Add(value: T)
      requires Valid()
      modifies this, data
      ensures Valid()
      ensures Contents() == old(Contents()) + [value]
      ensures capacity == Growth.NextCapacity(grow, old(size), old(capacity))
      ensures old(size) == old(capacity) ==> fresh(data)
      ensures old(size) < old(capacity) ==> data == old(data)
    {
      if size == capacity {
        Reallocate();
      }
      data[size] := value;
      size := size + 1;
    }

    /** `insert`: out of range (`index > size`), the range error and no
      change; otherwise grow as `Add` does when full, shift `[index, size)`
      up one slot from the top down, and store `value` at `index`. */
    method Insert(index: nat, value: T) returns (o: Outcome)
      requires Valid()
      modifies this, data
      ensures Valid()
      ensures old(size) < index ==> o == Fail(InsertError)
      ensures old(size) < index ==>
        size == old(size) && capacity == old(capacity) && data == old(data) && data[..] == old(data[..])
      ensures index <= old(size) ==> o == Pass
      ensures index <= old(size) ==> Contents() == InsertAt(old(Contents()), index, value)
      ensures index <= old(size) ==> capacity == Growth.NextCapacity(grow, old(size), old(capacity))
      ensures old(size) == old(capacity) && index <= old(size) ==> fresh(data)
      ensures old(size) < old(capacity) ==> data == old(data)
    {
      if index > size {
        return Fail(InsertError);
      }
      if size == capacity {
        Reallocate();
      }
      ghost var before := data[..];
      ghost var buf := data;
      ghost var n := size;
      ghost var live := old(Contents());
      assert |live| == n && before[..n] == live;
      var i := size;
      while i > index
        invariant Valid() && data == buf && size == n < capacity
        invariant index <= i <= size
        invariant forall k :: 0 <= k <= i ==> data[k] == before[k]
        invariant forall k :: i < k <= size ==> data[k] == before[k - 1]
      {
        data[i] := data[i - 1];
        i := i - 1;
      }
      data[index] := value;
      size := size + 1;
      assert size == n + 1;
      forall k | 0 <= k < size ensures Contents()[k] == InsertAt(live, index, value)[k] {
        if k > index {
          assert live[k - 1] == before[k - 1];
        } else if k < index {
          assert live[k] == before[k];
        }
      }
      o := Pass;
    }

    /** `remove`: out of range (`index >= size`, which covers the empty
      vector), the range error and no change; otherwise shift
      `[index + 1, size)` down one slot. Capacity stays, and the vacated
      last slot keeps its old value. */
    method Remove(index: nat) returns (o: Outcome)
      requires Valid()
      modifies this, data
      ensures Valid() && data == old(data) && capacity == old(capacity)
      ensures old(size) <= index ==> o == Fail(RemoveError)
      ensures old(size) <= index ==> size == old(size) && data[..] == old(data[..])
      ensures index < old(size) ==> o == Pass
      ensures index < old(size) ==> Contents() == RemoveAt(old(Contents()), index)
      ensures index < old(size) ==> data[size..] == old(data[..])[size..]
    {
      if index >= size {
        return Fail(RemoveError);
      }
      ghost var before := data[..];
      var i := index;
      while i < size - 1
        invariant unchanged(this)
        invariant index <= i <= size - 1
        invariant forall k :: 0 <= k < index ==> data[k] == before[k]
        invariant forall k :: index <= k < i ==> data[k] == before[k + 1]
        invariant forall k :: i <= k < data.Length ==> data[k] == before[k]
      {
        data[i] := data[i + 1];
        i := i + 1;
      }
      size := size - 1;
      assert Contents() == RemoveAt(before[..size + 1], index);
      o := Pass;
    }

    /** `map`: apply `f` to each live element in index order, in place;
      size, capacity, the buffer and the slots past `size` stay as they are. */
    method Map(f: T -> T)
      requires Valid()
      modifies data
      ensures Valid()
      ensures Contents() == Apply(f, old(Contents()))
      ensures data[size..] == old(data[size..])
    {
      var i := 0;
      while i < size
        invariant 0 <= i <= size
        invariant forall k :: 0 <= k < i ==> data[k] == f(old(data[k]))
        invariant forall k :: i <= k < data.Length ==> data[k] == old(data[k])
      {
        data[i] := f(data[i]);
        i := i + 1;
      }
    }

    /** `size()`: the number of live elements. */
    function Size(): (n: nat)
      reads this, data
      requires Valid()
      ensures n == |Contents()|
    {
      size
    }

    /** `capacity()`: the number of allocated slots, never fewer than the
      live elements nor than the initial capacity. */
    function Capacity(): (c: nat)
      reads this, data
      requires Valid()
      ensures c == data.Length
      ensures |Contents()| <= c && initialCapacity <= c
    {
      capacity
    }

    /** `begin()`: position 0 on the current buffer. */
    method Begin() returns (it: Iterator<T>)
      requires Valid()
      ensures fresh(it) && it.pos == 0 && it.buf == data
    {
      it := new Iterator.At(0, data);
    }

    /** `end()`: position `size` on the current buffer. */
    method End() returns (it: Iterator<T>)
      requires Valid()
      ensures fresh(it) && it.pos == |Contents()| && it.buf == data
    {
      it := new Iterator.At(size, data);
    }
  }
}
