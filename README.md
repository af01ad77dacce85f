# sc::vector in Dafny

This project models `sc::vector<T>` and its iterator `MyForwardIterator` from
`source/include/vector.h`. The vector is a single-owner, contiguous, growable
array. Its state has three parts:

- the buffer `m_storage`, modelled as the array `storage`;
- the logical size `m_end`, modelled as `size`;
- the capacity `m_capacity`, modelled as `storage.Length`.

The object invariant `Valid()` says `size <= storage.Length`. The ghost
function `Elements()` gives the live elements, `storage[..size]`. Every mutator
except `swap` is a method of the class `Vectors.Vector`; `swap` is the
module-level method `Vectors.Swap`, which modifies both vectors. Its `ensures` clauses give the new
live sequence and the new capacity in terms of the old ones. Where the source
copies into a new buffer, the model builds a fresh array and swaps it in.
Where the source shifts elements in place, the model has the same counting
loop, proved with invariants.

Files:

- `iterator.dfy` (module `Iterators`): an iterator is its signed offset from
  `begin()`. Pointer arithmetic becomes integer arithmetic. `==` and `!=`
  compare the values the iterators point at, as the source does.
- `splice.dfy` (module `Splice`): `Inserted` and `Removed`, the effect of
  insert and erase on a sequence, with their round-trip lemmas.
- `growth.dfy` (module `Growth`): the reserve rule and the push growth rule.
  The push rule seeds an empty buffer with 10 slots and doubles a full one.
  It also holds the ladder lemma for repeated `push_back`.
- `vector.dfy` (module `Vectors`): the class, `operator==`, `operator!=` and
  `swap`.
- `scenarios.dfy` (module `Scenarios`): client methods that use only the
  contracts. They cover `{10, 20, 30}` followed by `insert(begin() + 1, 99)`,
  `erase(begin())` and `at(3)`, the capacities after eleven `push_back` calls, push/pop and insert/erase round trips, and equality.

Conventions:

- A thrown `std::out_of_range` becomes the result `OutOfRange`. The vector
  is then unchanged, because the source checks before it mutates.
- An input range `[first, last)` of some other container is given as a
  sequence `src` with offsets `first <= last <= |src|`.
- `new T[n]` (no `()`) default-initialises its slots: a class type runs its
  default constructor, a scalar type such as `int` is left indeterminate.
  The sized constructor therefore takes an extra argument `zero` that every
  slot receives, the value of `T()` for class types and a fixed choice for
  scalar types.

Two threshold rules of the code are easy to misread:

- `assign(count, value)`, `assign(ilist)` and `assign(first, last)` decide
  between overwriting in place and reallocating by comparing with `size()`,
  not with the capacity. A request larger than the size but smaller than the
  capacity therefore reallocates, to a smaller buffer of exactly that many
  slots.
- Copy assignment does compare with the capacity.

Four inputs make the source read or write outside its buffer (undefined
behaviour). Each is excluded by a precondition, and a comment at the method
says so:

- single `insert` on a vector with no slots, because doubling 0 gives 0;
- `pop_front` on a full vector, because its loop reads slot `size`;
- range `insert` with more than `k + 1` elements at offset `k`, because the
  shift loop reads before `begin()`;
- initializer-list `insert` in two cases. When the buffer is not full but
  lacks room, the writes run past its end. When the list is longer than the
  insertion offset, the shift loop reads before `begin()`.

## Model

| member | source | states |
|---|---|---|
| `Iterators.Iterator.Plus` | source/include/vector.h:84-88 | `it += n`, `it + n` and `n + it` land `n` slots after `it`: their difference with `it` is `n` (with `PlusMinusInverse`, `PlusCompose`) |
| `Iterators.Iterator.Minus` | source/include/vector.h:89-93 | `it -= n` and `it - n` land `n` slots before `it`: the difference of `it` with the result is `n` (with `PlusMinusInverse`) |
| `Iterators.Iterator.Next` | source/include/vector.h:59-62 | where `++` leaves the cursor: one slot after it |
| `Iterators.Iterator.Prev` | source/include/vector.h:72-75 | where `--` leaves the cursor: one slot before it |
| `Iterators.Iterator.Distance` | source/include/vector.h:123 | `it - other` is the number `d` of slots with `other + d == it`, and is 0 exactly at the same position (with `DistanceOfPlus`) |
| `Iterators.Iterator.Less` | source/include/vector.h:95 | `<` holds exactly when the other iterator lies a positive number of slots further on (with `OrderByDistance`) |
| `Iterators.Iterator.Greater` | source/include/vector.h:97 | `>` is the converse of `<` (with `OrderByDistance`) |
| `Iterators.Iterator.GreaterEq` | source/include/vector.h:99 | `>=` is the negation of `<` (with `OrderByDistance`) |
| `Iterators.Iterator.LessEq` | source/include/vector.h:101 | `<=` is the negation of `>` (with `OrderByDistance`) |
| `Iterators.Iterator.Deref` | source/include/vector.h:37-40 | `*it` on a cursor inside the buffer is the value in the slot it points at (with `DerefAfterPlus`, `DerefMatchesAt`) |
| `Iterators.DerefAfterPlus` | source/include/vector.h:37-40 | dereferencing `it + n` reads the slot `n` places after `it`'s, and `*(++it)` reads the next slot |
| `Iterators.Iterator.ValueEqual` | source/include/vector.h:117 | `==` holds exactly when the two slots hold equal values, so in particular at one position (with `ValueEqualIgnoresPosition`, `EqualAtDifferentPositions`) |
| `Iterators.Iterator.ValueNotEqual` | source/include/vector.h:120 | `!=` is the negation of `==` (with `ValueEqualReflexive`) |
| `Iterators.Iterator.PreIncrement` | source/include/vector.h:59-62 | `++it` moves the cursor one slot forward and yields the moved cursor |
| `Iterators.Iterator.PostIncrement` | source/include/vector.h:65-69 | `it++` moves the cursor one slot forward and yields the cursor as it was |
| `Iterators.Iterator.PreDecrement` | source/include/vector.h:72-75 | `--it` moves the cursor one slot back and yields the moved cursor |
| `Iterators.Iterator.PostDecrement` | source/include/vector.h:78-82 | `it--` moves the cursor one slot back and yields the cursor as it was |
| `Iterators.IncrementForms` | source/include/vector.h:59-82 | pre- and post-forms leave the cursor at the same place; the pre-form yields one slot further along than the post-form |
| `Iterators.PlusMinusInverse` | source/include/vector.h:84-114 | `(it + n) - n == it` and `(it - n) + n == it`; `++` and `--` undo each other |
| `Iterators.PlusCompose` | source/include/vector.h:84-114 | offsets add up, and `it - n` is `it + (-n)` |
| `Iterators.DistanceOfPlus` | source/include/vector.h:123 | iterator difference undoes offset arithmetic: `(it + n) - it == n` |
| `Iterators.OrderByDistance` | source/include/vector.h:95-101 | `<` holds exactly when the difference is positive; `>`, `<=` and `>=` are its converse and complements; `<=` both ways means the same position |
| `Iterators.ValueEqualReflexive` | source/include/vector.h:117-120 | for an element type whose `==` is an equivalence with `!=` its negation, iterators at one position compare equal and `!=` is the negation of `==` |
| `Iterators.ValueEqualIgnoresPosition` | source/include/vector.h:117-120 | any two iterators whose slots hold equal values compare equal, wherever they point |
| `Iterators.EqualAtDifferentPositions` | source/include/vector.h:117 | in a buffer `[7, 7]`, `begin()` and `begin() + 1` are different positions that compare equal |
| `Splice.Inserted` | source/include/vector.h:298-317 | inserting `items` at offset `k` keeps the elements before `k`, then holds `items`, then the elements from `k` on, shifted by the number of items |
| `Splice.Removed` | source/include/vector.h:540-551 | erasing `[f, l)` keeps the elements before `f` and moves those from `l` on down by `l - f` |
| `Splice.RemovedInserted` | source/include/vector.h:298-317 | erasing exactly what was inserted gives back the original sequence |
| `Splice.InsertedRemoved` | source/include/vector.h:540-551 | inserting the erased elements back at the same place gives back the original sequence |
| `Splice.EmptySplices` | source/include/vector.h:540-551 | erasing an empty range or inserting nothing changes nothing |
| `Growth.Reserved` | source/include/vector.h:438-453 | `reserve(request)` never shrinks; the result is the old capacity or exactly the request, whichever is larger |
| `Growth.PushCapacity` | source/include/vector.h:259-283 | after the push there is room for one more element; capacity 0 becomes 10, a full buffer doubles, otherwise it is kept |
| `Growth.CapacityAfterPushes` | source/include/vector.h:274-283 | after `n` pushes on `vector()` the capacity is at least `n` |
| `Growth.PushesFromEmpty` | source/include/vector.h:274-283 | pushes 1 to 10 run in a buffer of 10 slots; after that `n <= capacity < 2 * n` |
| `Growth.FirstAndEleventhPush` | source/include/vector.h:274-283 | the first push on `vector()` gives capacity 10, the eleventh gives 20 |
| `Vectors.NewBuffer` | source/include/vector.h:442-446 | a fresh buffer of the requested size whose leading slots hold the given elements, in order |
| `Vectors.CopyInto` | source/include/vector.h:210-214 | in-place copy overwrites the first slots with the given elements and leaves the others alone |
| `Vectors.FillGap` | source/include/vector.h:358-360 | the copy loop of insert writes the items into the slots from `k` on and leaves the others alone |
| `Vectors.ShiftUpAbove` | source/include/vector.h:352-356 | the shift loop of range insert (and of single insert and push_front with a shift of one) gives every slot from `k + d` to `n` the old contents `d` slots below and leaves the slots before `k` and from `n` on alone |
| `Vectors.ShiftUpFrom` | source/include/vector.h:399-403 | the shift loop of initializer-list insert gives every slot from `k` to `m` the old contents `n` slots below and leaves the others alone |
| `Vectors.ShiftDown` | source/include/vector.h:543-551 | the shift loop of erase and pop_front gives every slot from `f` to `n - d` the old contents `d` slots above and leaves the others alone |
| `Vectors.SpliceInAbove` | source/include/vector.h:350-360 | the shift loop followed by the copy into the gap turns the first `n` slots into the old live prefix with the items inserted at `k` |
| `Vectors.SpliceInFrom` | source/include/vector.h:397-409 | the same for the shift loop of initializer-list insert |
| `Vectors.Vector.Capacity` | source/include/vector.h:249 | `capacity()` is never less than the size of a valid vector |
| `Vectors.Vector.Begin` | source/include/vector.h:236-242 | `begin()` and `cbegin()` are the origin of positions: every iterator's difference with `begin()` is its offset |
| `Vectors.Vector.Size` | source/include/vector.h:248 | `size()` is the number of live elements and never exceeds the capacity |
| `Vectors.Vector.Empty` | source/include/vector.h:250 | `empty()` holds exactly when there are no live elements |
| `Vectors.Vector.End` | source/include/vector.h:239 | `end() - begin()` is the number of live elements |
| `Vectors.Vector.constructor` | source/include/vector.h:161-165 | `vector(cp)` holds `cp` copies of `zero` (the default-initialised slots) in exactly `cp` slots |
| `Vectors.Vector.Copy` | source/include/vector.h:172-180 | the copy has a fresh buffer, the same live elements and the same capacity |
| `Vectors.Vector.FromList` | source/include/vector.h:183-189 | the list's elements, with capacity equal to their number |
| `Vectors.Vector.FromRange` | source/include/vector.h:193-203 | the elements of `[first, last)`, with capacity `last - first` |
| `Vectors.Vector.Assign` | source/include/vector.h:206-231 | the live sequence becomes the other's; capacity is kept when the other's size fits, otherwise it becomes exactly that size in a fresh buffer; self-assignment changes nothing |
| `Vectors.Vector.Clear` | source/include/vector.h:253-257 | no live elements; buffer and capacity unchanged |
| `Vectors.Vector.Reserve` | source/include/vector.h:438-453 | `reserve(n)` with `n` at most the capacity changes nothing; otherwise capacity becomes exactly `n` in a fresh buffer; size and elements are kept in order |
| `Vectors.Vector.ShrinkToFit` | source/include/vector.h:456-469 | capacity becomes the size, reallocating only when it was larger; size and elements are kept |
| `Vectors.Vector.PushFront` | source/include/vector.h:259-272 | the live sequence becomes `[v] + old`, with the push growth rule for the capacity; the buffer is kept when there was a free slot |
| `Vectors.Vector.PushBack` | source/include/vector.h:274-283 | the live sequence becomes `old + [v]`, with the push growth rule for the capacity; the buffer is kept when there was a free slot |
| `Vectors.Vector.PopBack` | source/include/vector.h:284-286 | drops the last element of a non-empty vector; no effect on an empty one; buffer unchanged |
| `Vectors.Vector.PopFront` | source/include/vector.h:288-295 | a non-empty vector becomes `old[1..]`; no effect on an empty one; buffer unchanged |
| `Vectors.Vector.Insert` | source/include/vector.h:298-317 | out of range exactly when `pos` is outside `[begin(), end()]`, with no change; otherwise the sequence becomes `old[..k] + [v] + old[k..]`, a full buffer doubles and any other keeps its buffer, and the result is `begin() + k` |
| `Vectors.Vector.InsertRange` | source/include/vector.h:341-362 | out of range exactly when `pos` is outside `[begin(), end()]`, with no change; otherwise the sequence becomes `old[..k] + src[first..last] + old[k..]`; when size + count exceeds the capacity it grows by exactly the count, and a buffer with room for the range is kept; the result is `pos` |
| `Vectors.Vector.InsertList` | source/include/vector.h:389-412 | out of range exactly when `pos` is outside `[begin(), end()]`, with no change; otherwise the sequence becomes `old[..k] + ilist + old[k..]`; only a full buffer grows, by the list's length, and any other is kept; the result is `pos` |
| `Vectors.Vector.AssignFill` | source/include/vector.h:471-492 | `count` copies of `value`; capacity kept when `count <= size()`, otherwise exactly `count` in a fresh buffer |
| `Vectors.Vector.AssignList` | source/include/vector.h:494-510 | the list's elements; capacity kept when the list is no longer than `size()`, otherwise exactly its length in a fresh buffer |
| `Vectors.Vector.AssignRange` | source/include/vector.h:512-538 | the elements of `[first, last)`; capacity kept when `last - first <= size()`, otherwise exactly `last - first` in a fresh buffer |
| `Vectors.Vector.EraseRange` | source/include/vector.h:540-551 | out of range exactly when `first > last`, `first < begin()` or `last > end()`, with no change; otherwise the sequence becomes `old[..f] + old[l..]`, the buffer is kept, and the result is `first` |
| `Vectors.Vector.Erase` | source/include/vector.h:579-588 | out of range exactly when `pos` is outside `[begin(), end())`, with no change; otherwise the sequence becomes `old[..k] + old[k+1..]` and the result is `pos` |
| `Vectors.Vector.Back` | source/include/vector.h:591-607 | throws exactly when the vector is empty; otherwise the last live element |
| `Vectors.Vector.Front` | source/include/vector.h:597-613 | throws exactly when the vector is empty; otherwise the first live element |
| `Vectors.Vector.At` | source/include/vector.h:618-628 | throws exactly when `idx >= size()`; otherwise the element at `idx` |
| `Vectors.DerefMatchesAt` | source/include/vector.h:618-628 | for every live offset `k`, `*(begin() + k)` is the element `at(k)` returns |
| `Vectors.Equal` | source/include/vector.h:664-674 | true exactly when the two live sequences are equal: same size and pairwise equal elements |
| `Vectors.NotEqual` | source/include/vector.h:675-678 | true exactly when the two live sequences differ |
| `Vectors.Swap` | source/include/vector.h:645-653 | the two vectors exchange buffer, size and capacity, and with them their live sequences |
| `Scenarios.InsertEraseAt` | source/include/vector.h:298-317 | on `{10, 20, 30}`, `insert(begin() + 1, 99)` gives `{10, 99, 20, 30}`, then `erase(begin())` gives `{99, 20, 30}`, and `at(3)` throws |
| `Scenarios.PushBackGrowth` | source/include/vector.h:274-283 | on `vector()`, the first `push_back` gives capacity 10 and the eleventh gives 20 |
| `Scenarios.PushThenPop` | source/include/vector.h:274-286 | `push_back` then `pop_back` restores the elements; only the capacity may have grown |
| `Scenarios.InsertThenErase` | source/include/vector.h:298-317 | `insert(pos, x)` then `erase(pos)` restores the elements whenever the insert succeeds; an out-of-range insert, even into a vector without slots, changes nothing |
| `Scenarios.EqualityExamples` | source/include/vector.h:664-678 | `{1, 2, 3}` equals `{1, 2, 3}` and differs from `{1, 2}` |

## Left out

- `Vectors.Vector.constructor`: every slot receives `zero`; for a scalar `T` the slots of `new T[cp]` are indeterminate in the source, and the model fixes them to the caller's choice.
- `Vectors.Vector.Insert`: requires a non-zero capacity when `pos` is in range, because the source writes outside its zero-length buffer in that one case.
- `Vectors.Vector.PopFront`: requires a non-full buffer when the vector is non-empty, because the source reads the slot at index `size`, past the buffer of a full vector.
- `Vectors.Vector.InsertRange`: requires `last - first <= k + 1` for a valid offset `k`, because otherwise the shift loop reads before `begin()`.
- `Vectors.Vector.InsertList`: requires room or a full buffer, and a list no longer than the offset `k`, because otherwise the source writes past the buffer or reads before `begin()`.
- `Vectors.Vector.PushFront`: the element is a value that cannot alias the vector. The source takes `const_reference`, so `v.push_front(v.back())` reads the argument after the shift loop has overwritten that slot (`{1, 2, 3}` with a free slot becomes `{2, 1, 2, 3}`), and after a growth it reads through a reference into the buffer `reserve` has deleted.
- `Vectors.Vector.PushBack`: the element is a value that cannot alias the vector. The source takes `const_reference`, so an argument referring to one of the vector's own elements is read through a dangling reference after a growth has deleted the old buffer.
- `Vectors.Vector.Insert`: the element is a value that cannot alias the vector. The source takes `const_reference`, so an argument referring to an element after `pos` is read after the shift loop has moved a different value into that slot, and after a growth it is read through a reference into the deleted buffer.
- `Vectors.Vector.AssignFill`: the value cannot alias the vector. The source takes `const_reference`, and its reallocating branch deletes the old buffer before it reads `value_`, so an argument referring to one of the vector's elements is read through a dangling reference.
- `Vectors.Equal`: the element type's `==` is Dafny equality, an equivalence relation, and the source's use of `T`'s `!=` is taken to be its negation; for a `T` such as `double` with a NaN the source's `v == v` is false while the model proves it true.
- `Vectors.NotEqual`: inherits the assumption of `Vectors.Equal` about `T`'s `==` and `!=`.
- `Iterators.Iterator.ValueEqual`: `T`'s `==` is assumed to be an equivalence relation; the source calls `T`'s own `==`, which need not be reflexive (NaN).
- `Iterators.Iterator.ValueNotEqual`: `T`'s `!=` is assumed to be the negation of its `==`; the source calls `T`'s own `!=`.
- `Iterators.ValueEqualReflexive`: holds only under the assumption above that `T`'s `==` is an equivalence with `!=` as its negation.
- Stream output (`operator<<` for the iterator and the vector) is diagnostic text output and prints unconstructed slots.
- `data()` only exposes the raw buffer pointer; there is nothing to state about it beyond aliasing.
- The destructor, `delete[]`, and the explicit `~T()` calls in `clear` and `pop_back` are manual memory management; reallocation is a fresh array swapped in, and `clear` sets the size to 0.
- The `const_iterator` overloads of `insert` and `erase` have the same bodies as the `iterator` ones, so each operation is modelled once; `cbegin`/`cend` are `Begin`/`End`.
- Iterator validity and invalidation across reallocation concern raw pointer lifetimes; offset iterators stay meaningful, and the operations check offsets against `[begin(), end()]` themselves.
- `operator[]` is unchecked access with no contract beyond `idx < size()`.
- The non-const `front`, `back` and `at` return references that callers may write through; the model returns the value only.
- `operator->` is the same access as dereference; the null-pointer assertion of a default-constructed iterator is not modelled (an iterator is always an offset).
- Integer widths: `size_type` is `unsigned long` (vector.h:151), 64 bits on LP64 platforms and 32 bits on some others, and several loop counters are narrower still: `int` at vector.h:177, 211, 220, 405, 444, 460 and 667, `unsigned int` at vector.h:290, 358, 475 and 488. The model uses unbounded naturals throughout, so neither `2 * m_capacity` and `m_capacity + dif` wrapping nor those counters overflowing on vectors of more than 2^31 - 1 (or 2^32 - 1) elements is modelled.
- An input range that lies inside the same vector, which the source would read while shifting, is not modelled: the range is a separate sequence.
- Allocation failure (`std::bad_alloc` from `new`) is not modelled.
