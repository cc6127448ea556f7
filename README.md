# A verified model of `usu::vector`

This project models `usu::vector<T, InitialCapacity>`, a growable array with a
caller-supplied capacity-growth policy, and its bidirectional `iterator`. Both
are defined in `vector.hpp`. The vector keeps a size, a capacity, a buffer of
default-constructed slots and a growth function. Appending grows a full buffer
by allocating `grow(capacity)` slots, copying the live prefix across and
switching to the copy. `insert` shifts elements up from the top down, and
`remove` shifts them down. Each index is checked against its own bound before
anything changes. The iterator is a position paired with the identity of a
buffer.

Files:

- `sequences.dfy` (module `Sequences`): what `insert`, `remove` and `map` do to
  the sequence of live elements, and the round-trip laws between them.
- `growth.dfy` (module `Growth`): the default doubling policy, the caller's
  progress obligation on a policy, and the capacity after a series of appends.
- `vector.dfy` (module `Usu`): the classes `Vector` and `Iterator`, the range
  error and the result types. `Vector` keeps `size`, `capacity`, `data: array<T>`
  and the constant policy `grow`. `Valid()` ties them together. The ghost
  `Contents()` is `data[..size]`. Every mutating method states its new contents
  in terms of the old ones, using the functions of `Sequences` and `Growth`.
- `scenarios.dfy` (module `Scenarios`): clients that use only the contracts.
  They cover a full traversal from `begin()` to `end()`, the remove/re-insert
  round trip, `insert(size(), x)` against `add(x)` and a stale `begin()`. Three
  concrete runs, written as assertions, are also here. `AppendGrowInsertRemove`
  does ten appends, one growth to 20, an insert at the front and a remove at the
  front, plus out-of-range calls. `IncrementPolicy` shows that the policy
  `c -> c + 1` ends at capacity 11. `DoubleInPlace` maps a doubling over
  {1, 2, 3}.

Modelling choices:

- The template parameter `InitialCapacity` becomes the constant
  `initialCapacity`, given to each constructor.
- The value-initialised slot `T()` becomes the constant `blank`.
- A thrown `std::range_error` becomes `Err(e)` from `Get` or `Fail(e)` from
  `Set`, `Insert` and `Remove`. `e` carries the source's message. The state does
  not change on the error path.
- `operator[]` returns a mutable reference. It is modelled as a read (`Get`) and
  a write through that reference (`Set`). `operator*` is split the same way,
  into `Deref` and `Store`.
- The source never checks the growth policy. The constructors require the
  caller's obligation `Growth.Progresses(grow, initialCapacity)`: from each
  capacity at or above the initial one, the policy yields a larger capacity.
  Without it the source writes past the end of the new buffer. The default
  doubling policy meets the obligation only when the initial capacity is
  positive, so the doubling constructors require `0 < initialCapacity`.
- `map` re-reads `m_size` on every step. The model requires that the callback
  change one element and never the vector's structure.

## Model

| member | source | states |
|---|---|---|
| `Sequences.InsertAt` | vector.hpp:211-216 | insertion keeps every element before `i`, puts `v` at `i`, moves every element from `i` on up one slot, and adds one to the length |
| `Sequences.RemoveAt` | vector.hpp:227-231 | removal keeps every element before `i`, moves every element after `i` down one slot, and takes one from the length |
| `Sequences.Apply` | vector.hpp:237-240 | the traversal replaces each element `k` by `f(element k)` and keeps the length |
| `Sequences.InsertAtEndIsAppend` | vector.hpp:192-217 | inserting at index `size` gives the same contents as appending |
| `Sequences.RemoveAfterInsert` | vector.hpp:211-231 | removing the element just inserted at `i` gives back the original contents |
| `Sequences.InsertAfterRemove` | vector.hpp:211-231 | re-inserting the removed element at its old index restores the original contents |
| `Growth.Doubling` | vector.hpp:83-86 | the default policy gives a strictly larger capacity from any positive capacity |
| `Growth.AddsKeepRoom` | vector.hpp:176-188 | under a progressing policy, successive appends never lower capacity below its start, never lower it at any step, and always leave room for every element appended |
| `Growth.GrowsOnlyWhenFull` | vector.hpp:176-186 | capacity changes at an append only when size equals capacity on entry |
| `Growth.NoGrowthWhileRoom` | vector.hpp:176-186 | appends that fit in the initial capacity leave capacity unchanged |
| `Growth.IncrementPolicyGrowsByOne` | vector.hpp:110-116 | with policy `c -> c + 1`, appending `initialCapacity + 1` elements leaves capacity exactly `initialCapacity + 1` |
| `Growth.DoublingFromTen` | vector.hpp:79-88 | with the default policy and capacity 10, ten appends keep capacity 10 and the eleventh makes it 20 |
| `Usu.Iterator.constructor` | vector.hpp:295-299 | the default iterator has position 0 and no buffer |
| `Usu.Iterator.At` | vector.hpp:302-306 | the iterator holds the given position and buffer |
| `Usu.Iterator.Copy` | vector.hpp:309-313 | a copy has the same position and buffer |
| `Usu.Iterator.Take` | vector.hpp:316-322 | a move takes the position and buffer and resets the source to position 0 and no buffer |
| `Usu.Iterator.Assign` | vector.hpp:325-333 | after copy assignment the target has the source's position and buffer; the source is untouched |
| `Usu.Iterator.MoveAssign` | vector.hpp:336-346 | after move assignment the target has the source's old position and buffer, and a distinct source is reset; self-assignment changes nothing |
| `Usu.Iterator.Increment` | vector.hpp:349-353 | prefix `++` adds one to the position, keeps the buffer, and returns a copy of the updated iterator |
| `Usu.Iterator.PostIncrement` | vector.hpp:356-361 | postfix `++` adds one to the position and returns a copy of the prior iterator |
| `Usu.Iterator.Decrement` | vector.hpp:364-368 | prefix `--` takes one from the position, keeps the buffer, and returns a copy of the updated iterator |
| `Usu.Iterator.PostDecrement` | vector.hpp:371-376 | postfix `--` takes one from the position and returns a copy of the prior iterator |
| `Usu.Iterator.Deref` | vector.hpp:245-248 | `*` reads the slot at the position in the referenced buffer |
| `Usu.Iterator.Store` | vector.hpp:245-248 | a write through `*` changes the slot at the position and no other slot |
| `Usu.Iterator.Equals` | vector.hpp:288-291 | `==` holds exactly when the positions and the buffer identities are both equal |
| `Usu.Iterator.NotEquals` | vector.hpp:257-260 | `!=` is exactly the negation of `==` |
| `Usu.Vector.constructor` | vector.hpp:79-88 | a default vector is empty, has `initialCapacity` blank slots and uses doubling |
| `Usu.Vector.Sized` | vector.hpp:91-107 | size is `n` and all `n` elements are blank; capacity is `2n` when `n` exceeds the initial capacity and the initial capacity otherwise; doubling is the policy |
| `Usu.Vector.WithPolicy` | vector.hpp:110-116 | the vector is empty, has `initialCapacity` blank slots and uses the given policy |
| `Usu.Vector.SizedWithPolicy` | vector.hpp:119-132 | the sized capacity rule, with the given policy |
| `Usu.Vector.FromList` | vector.hpp:135-148 | contents equal the list; capacity is what successive appends from the initial capacity produce under doubling |
| `Usu.Vector.FromListWithPolicy` | vector.hpp:151-161 | contents equal the list; capacity is what successive appends produce under the given policy |
| `Usu.Vector.AddAll` | vector.hpp:144-147 | appending each list value in turn to a fresh vector yields the list as contents and the progressive-growth capacity |
| `Usu.Vector.Get` | vector.hpp:164-171 | an index below size yields that element; any other index yields the range error "Index out of bounds" |
| `Usu.Vector.Set` | vector.hpp:164-171 | a write through `[]` below size changes only that slot; otherwise it is the range error and changes nothing |
| `Usu.Vector.Reallocate` | vector.hpp:176-186 | growth allocates `grow(capacity)` fresh slots, carries the live elements over in order, and leaves the rest blank |
| `Usu.Vector.Add` | vector.hpp:174-189 | contents become old contents plus `value`; capacity becomes `grow(capacity)` on a fresh buffer exactly when the vector was full, and stays otherwise |
| `Usu.Vector.Insert` | vector.hpp:192-217 | an index above size is the range error "Index out of bounds for insert" with no change; otherwise contents become the insertion at that index, with growth exactly as in `Add` |
| `Usu.Vector.Remove` | vector.hpp:220-232 | an index at or above size, the empty vector included, is the range error "Index out of bounds for remove" with no change; otherwise contents become the removal at that index, capacity and buffer stay, and the vacated slots keep their old values |
| `Usu.Vector.Map` | vector.hpp:235-241 | each live element is replaced by `f` of itself; size, capacity, buffer and the slots past size stay |
| `Usu.Vector.Size` | vector.hpp:276-279 | `size()` is the number of live elements |
| `Usu.Vector.Capacity` | vector.hpp:282-285 | `capacity()` is the buffer length, at least the size and at least the initial capacity |
| `Usu.Vector.Begin` | vector.hpp:264-267 | `begin()` is position 0 on the current buffer |
| `Usu.Vector.End` | vector.hpp:270-273 | `end()` is position `size` on the current buffer |
| `Scenarios.Traverse` | vector.hpp:264-273 | walking from `begin()` with `++` and `*` until `== end()` reads exactly the contents, in order |
| `Scenarios.RemoveThenReinsert` | vector.hpp:192-232 | removing an element and re-inserting it at the same index restores contents, capacity and buffer |
| `Scenarios.InsertAtEndActsAsAdd` | vector.hpp:192-217 | `insert(size(), x)` has the contents and capacity effect of `add(x)` |
| `Scenarios.StaleBegin` | vector.hpp:264-267 | a `begin()` taken before a growth is unequal to one taken after, at the same position |

## Left out

- `clear()` is declared but never defined in the source, so there is no behaviour to model.
- Buffer ownership (`std::shared_ptr<T[]>`), release of the old buffer on growth, and the shallow copy made by the vector's implicit copy constructor and assignment are memory management. They are not modelled.
- `operator->` is not modelled. It yields the address of the same slot that `*` reads.
- `size_t` width is not modelled: `size * 2` in the sized constructors, the policy's result and `m_pos++` are unbounded integers here.
- Usu.Iterator.Decrement: requires a positive position. At position 0 the source wraps around as `size_t`.
- Usu.Iterator.PostDecrement: requires a positive position, for the same reason.
- Usu.Iterator.Deref: requires a buffer and a position inside it. The source does no check there. After a growth, Dafny keeps the old array, so a stale iterator reads the old value where the source reads freed memory.
- Usu.Vector.Map: the callback is a pure `T -> T` applied to each slot. A callback that mutates the vector, or depends on the order of calls, is not modelled.
- `std::function`, lambdas and `std::initializer_list` are replaced by Dafny function values and `seq<T>`.
