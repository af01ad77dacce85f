/**
 * sc::vector: a single-owner, contiguous, growable array. The buffer is an
 * array whose length is the capacity; the first `size` slots hold the live
 * elements, the rest are allocated but unused. Every mutator either works in
 * the buffer it has or builds a fresh buffer, copies into it and swaps it in.
 * Positions are iterators (offsets from begin()); a rejected position or
 * index gives OutOfRange and leaves the vector as it was.
 */
module Vectors {
  import opened Iterators
  import Splice
  import Growth

  /** The outcome of an operation that may throw std::out_of_range. */
  datatype Result<R> = Ok(value: R) | OutOfRange

  /** A fresh buffer of cap slots whose first |items| slots hold items, filled one element at a time. */
  method NewBuffer<T(0)>(items: seq<T>, cap: nat) returns (a: array<T>)
    requires |items| <= cap
    ensures fresh(a) && a.Length == cap && a[..|items|] == items
  {
    a := new T[cap];
    for i := 0 to |items|
      invariant forall j :: 0 <= j < i ==> a[j] == items[j]
    {
      a[i] := items[i];
    }
  }

  /** Overwrites the first |items| slots of a with items, one element at a time; the other slots keep their values. */
  method CopyInto<T>(a: array<T>, items: seq<T>)
    requires |items| <= a.Length
    modifies a
    ensures a[..|items|] == items
    ensures a[|items|..] == old(a[|items|..])
  {
    for i := 0 to |items|
      invariant forall j :: 0 <= j < i ==> a[j] == items[j]
      invariant forall j :: i <= j < a.Length ==> a[j] == old(a[j])
    {
      a[i] := items[i];
    }
  }

  /** Writes items into the slots k up to k + |items| of a, one element at a time; the other slots keep their values. */
  method FillGap<T>(a: array<T>, k: nat, items: seq<T>)
    requires k + |items| <= a.Length
    modifies a
    ensures forall t :: 0 <= t < a.Length ==> a[t] == if k <= t < k + |items| then items[t - k] else old(a[t])
  {
    for i := 0 to |items|
      invariant forall t :: 0 <= t < a.Length ==> a[t] == if k <= t < k + i then items[t - k] else old(a[t])
    {
      a[k + i] := items[i];
    }
  }

  /**
   * The shift loop of insert(pos, v), insert(pos, first, last) and
   * push_front: for j from n - 1 down to k + 1, a[j] := a[j - d]. The slots
   * from k + d up to n receive the old contents d slots below them; the
   * slots between k and k + d are gap slots that the caller overwrites. The
   * reads stay inside the buffer only when d <= k + 1.
   */
  method ShiftUpAbove<T>(a: array<T>, k: nat, n: nat, d: nat)
    requires k + d <= n <= a.Length
    requires d <= k + 1
    modifies a
    ensures forall t :: 0 <= t < a.Length && (t < k || n <= t) ==> a[t] == old(a[t])
    ensures forall t :: k + d <= t < n ==> a[t] == old(a[t - d])
  {
    var j: int := n - 1;
    while j > k
      invariant k - 1 <= j < n
      invariant forall t :: 0 <= t < a.Length && (t <= j || n <= t) ==> a[t] == old(a[t])
      invariant forall t :: j < t < n && k + d <= t ==> a[t] == old(a[t - d])
    {
      a[j] := a[j - d];
      j := j - 1;
    }
  }

  /**
   * The shift loop of insert(pos, ilist): for j from m - 1 down to k,
   * a[j] := a[j - n]. The reads stay inside the buffer only when n <= k.
   */
  method ShiftUpFrom<T>(a: array<T>, k: nat, m: nat, n: nat)
    requires k + n <= m <= a.Length
    requires n <= k
    modifies a
    ensures forall t :: 0 <= t < a.Length && (t < k || m <= t) ==> a[t] == old(a[t])
    ensures forall t :: k <= t < m ==> a[t] == old(a[t - n])
  {
    var j: int := m - 1;
    while j >= k
      invariant k - 1 <= j < m
      invariant forall t :: 0 <= t < a.Length && (t <= j || m <= t) ==> a[t] == old(a[t])
      invariant forall t :: j < t < m ==> a[t] == old(a[t - n])
    {
      a[j] := a[j - n];
      j := j - 1;
    }
  }

  /**
   * insert(pos, v) and insert(pos, first, last) on the first n slots of a,
   * of which the first n - |items| are live: the shift loop that moves the
   * tail up, then the copy of items into the gap.
   */
  method SpliceInAbove<T>(a: array<T>, k: nat, n: nat, items: seq<T>)
    requires k + |items| <= n <= a.Length
    requires |items| <= k + 1
    modifies a
    ensures a[..n] == Splice.Inserted(old(a[..n - |items|]), k, items)
  {
    ghost var live := a[..n - |items|];
    ShiftUpAbove(a, k, n, |items|);
    FillGap(a, k, items);
    Splice.InsertedByParts(a[..n], live, k, items);
  }

  /** insert(pos, ilist) on the first n slots of a: the same, with the shift loop of that overload. */
  method SpliceInFrom<T>(a: array<T>, k: nat, n: nat, items: seq<T>)
    requires k + |items| <= n <= a.Length
    requires |items| <= k
    modifies a
    ensures a[..n] == Splice.Inserted(old(a[..n - |items|]), k, items)
  {
    ghost var live := a[..n - |items|];
    ShiftUpFrom(a, k, n, |items|);
    FillGap(a, k, items);
    Splice.InsertedByParts(a[..n], live, k, items);
  }

  /**
   * The shift loop of erase and pop_front: for i from f while i < n - d,
   * a[i] := a[i + d]. The last slot read is n - 1.
   */
  method ShiftDown<T>(a: array<T>, f: nat, n: nat, d: nat)
    requires f + d <= n <= a.Length
    modifies a
    ensures forall t :: 0 <= t < a.Length ==> a[t] == if f <= t < n - d then old(a[t + d]) else old(a[t])
  {
    var i := f;
    while i < n - d
      invariant f <= i <= n - d
      invariant forall t :: 0 <= t < a.Length ==> a[t] == if f <= t < i then old(a[t + d]) else old(a[t])
    {
      a[i] := a[i + d];
      i := i + 1;
    }
  }

  class Vector<T(0)> {
    /** m_storage; its length is m_capacity. */
    var storage: array<T>
    /** m_end: the number of live elements, the index one past the last one. */
    var size: nat

    /** The field comments of the source: the size never exceeds the capacity. */
    ghost predicate Valid()
      reads this
    {
      size <= storage.Length
    }

    /** The live elements, in order. */
    ghost function Elements(): (s: seq<T>)
      reads this, storage
      requires Valid()
      ensures |s| == size
    {
      storage[..size]
    }

    /** capacity(): the number of allocated slots. */
    function Capacity(): (c: nat)
      reads this
      ensures Valid() ==> size <= c
    {
      storage.Length
    }

    /** size(): the number of live elements. */
    function Size(): (n: nat)
      reads this, storage
      requires Valid()
      ensures n == |Elements()|
      ensures n <= Capacity()
    {
      size
    }

    /** empty(): true exactly when there are no live elements. */
    function Empty(): (b: bool)
      reads this, storage
      requires Valid()
      ensures b <==> Elements() == []
    {
      size == 0
    }

    /** begin() and cbegin(): the position of the first slot. */
    function Begin(): (it: Iterator)
      ensures forall other: Iterator :: other.Distance(it) == other.offset
    {
      Iterator(0)
    }

    /** end() and cend(): the position one past the last live element. */
    function End(): (it: Iterator)
      reads this, storage
      requires Valid()
      ensures it.Distance(Begin()) == |Elements()|
    {
      Iterator(size)
    }

    /** vector(cp): cp default-initialised elements filling cp slots; every slot receives zero. */
    constructor (cp: nat, zero: T)
      ensures Valid() && fresh(storage)
      ensures Elements() == seq(cp, _ => zero)
      ensures Capacity() == cp
    {
      storage := new T[cp](_ => zero);
      size := cp;
    }

    /** The copy constructor: a fresh buffer of the other's capacity holding the other's live elements. */
    constructor Copy(other: Vector<T>)
      requires other.Valid()
      ensures Valid() && fresh(storage)
      ensures Elements() == other.Elements()
      ensures Capacity() == other.Capacity()
    {
      var buffer := NewBuffer(other.storage[..other.size], other.storage.Length);
      storage := buffer;
      size := other.size;
    }

    /** The initializer-list constructor: exactly as many slots as elements. */
    constructor FromList(il: seq<T>)
      ensures Valid() && fresh(storage)
      ensures Elements() == il
      ensures Capacity() == |il|
    {
      var buffer := NewBuffer(il, |il|);
      storage := buffer;
      size := |il|;
    }

    /** The range constructor: the elements of [first, last) of another sequence, in exactly last - first slots. */
    constructor FromRange(src: seq<T>, first: nat, last: nat)
      requires first <= last <= |src|
      ensures Valid() && fresh(storage)
      ensures Elements() == src[first..last]
      ensures Capacity() == last - first
    {
      var buffer := NewBuffer(src[first..last], last - first);
      storage := buffer;
      size := last - first;
    }

    /**
     * Copy assignment. Self-assignment changes nothing. When the other's
     * elements fit in this buffer they are copied in place and the capacity
     * is kept; otherwise a buffer of exactly the other's size replaces it.
     */
    method Assign(other: Vector<T>)
      requires Valid() && other.Valid()
      modifies this, storage
      ensures Valid()
      ensures Elements() == old(other.Elements())
      ensures Capacity() == if old(other.size) <= old(Capacity()) then old(Capacity()) else old(other.size)
      ensures old(other.size) <= old(Capacity()) ==> storage == old(storage)
      ensures old(other.size) > old(Capacity()) ==> fresh(storage)
      ensures other == this ==> unchanged(this) && unchanged(storage)
    {
      if other == this {
        return;
      }
      if other.size <= storage.Length {
        CopyInto(storage, other.storage[..other.size]);
        size := other.size;
        return;
      }
      var bigger := NewBuffer(other.storage[..other.size], other.size);
      size := other.size;
      storage := bigger;
    }

    /** clear(): no live elements; the buffer and its capacity stay. */
    method Clear()
      requires Valid()
      modifies this
      ensures Valid() && storage == old(storage)
      ensures Elements() == []
    {
      size := 0;
    }

    /**
     * reserve(n): a request no larger than the capacity changes nothing;
     * otherwise the live elements move, in order, to a fresh buffer of
     * exactly n slots. The size never changes.
     */
    method Reserve(n: nat)
      requires Valid()
      modifies this
      ensures Valid() && size == old(size)
      ensures Elements() == old(Elements())
      ensures Capacity() == Growth.Reserved(old(Capacity()), n)
      ensures n <= old(Capacity()) ==> storage == old(storage)
      ensures n > old(Capacity()) ==> fresh(storage)
    {
      if n <= storage.Length {
        return;
      }
      storage := NewBuffer(storage[..size], n);
    }

    /** shrink_to_fit(): when there are unused slots, the live elements move to a buffer of exactly size slots. */
    method ShrinkToFit()
      requires Valid()
      modifies this
      ensures Valid() && size == old(size)
      ensures Elements() == old(Elements())
      ensures Capacity() == old(size)
      ensures old(Capacity()) == old(size) ==> storage == old(storage)
      ensures old(Capacity()) > old(size) ==> fresh(storage)
    {
      if storage.Length > size {
        storage := NewBuffer(storage[..size], size);
      }
    }

    /**
     * push_front(v): grows as push_back does, shifts every live element one
     * slot to the right and writes v into the first slot.
     */
    method PushFront(v: T)
      requires Valid()
      modifies this, storage
      ensures Valid()
      ensures Elements() == [v] + old(Elements())
      ensures Capacity() == Growth.PushCapacity(old(Capacity()), old(size))
      ensures old(size) < old(Capacity()) ==> storage == old(storage)
      ensures storage == old(storage) || fresh(storage)
    {
      if storage.Length == 0 {
        Reserve(Growth.Seed);
      } else if size == storage.Length {
        Reserve(2 * storage.Length);
      }
      ghost var live := storage[..size];
      size := size + 1;
      SpliceInAbove(storage, 0, size, [v]);
      assert Splice.Inserted(live, 0, [v]) == [v] + live;
    }

    /**
     * push_back(v): a vector with no slots grows to 10, a full one doubles;
     * then v is written after the last live element.
     */
    method PushBack(v: T)
      requires Valid()
      modifies this, storage
      ensures Valid()
      ensures Elements() == old(Elements()) + [v]
      ensures Capacity() == Growth.PushCapacity(old(Capacity()), old(size))
      ensures old(size) < old(Capacity()) ==> storage == old(storage)
      ensures storage == old(storage) || fresh(storage)
    {
      if storage.Length == 0 {
        Reserve(Growth.Seed);
      } else if size == storage.Length {
        Reserve(2 * storage.Length);
      }
      storage[size] := v;
      size := size + 1;
    }

    /** pop_back(): drops the last live element; no effect on an empty vector. */
    method PopBack()
      requires Valid()
      modifies this
      ensures Valid() && storage == old(storage)
      ensures old(size) == 0 ==> Elements() == old(Elements())
      ensures old(size) > 0 ==> Elements() == old(Elements())[..old(size) - 1]
    {
      if size > 0 {
        size := size - 1;
      }
    }

    /**
     * pop_front(): shifts every element one slot to the left; no effect on
     * an empty vector. The source's loop runs one step too far and reads the
     * slot at index size, which lies outside the buffer when the vector is
     * full: that case is excluded by the second precondition.
     */
    method PopFront()
      requires Valid()
      requires size == 0 || size < storage.Length
      modifies this, storage
      ensures Valid() && storage == old(storage)
      ensures old(size) == 0 ==> Elements() == old(Elements())
      ensures old(size) > 0 ==> Elements() == old(Elements())[1..]
    {
      if size > 0 {
        var a := storage;
        ShiftDown(a, 0, size + 1, 1);
        size := size - 1;
      }
    }

    /**
     * insert(pos, v): pos must lie in [begin(), end()]. A full buffer
     * doubles; the elements from pos on move one slot right and v fills the
     * gap. The returned position is recomputed from begin() after any growth.
     * On a vector with no slots the source doubles 0 to 0 and writes outside
     * the buffer: the second precondition excludes that one input.
     */
    method Insert(pos: Iterator, v: T) returns (r: Result<Iterator>)
      requires Valid()
      requires 0 <= pos.offset <= size ==> 0 < storage.Length
      modifies this, storage
      ensures Valid()
      ensures r.OutOfRange? <==> !(0 <= pos.offset <= old(size))
      ensures r.OutOfRange? ==> unchanged(this) && unchanged(storage)
      ensures r.Ok? ==> r.value == pos && Elements() == Splice.Inserted(old(Elements()), pos.offset, [v])
      ensures r.Ok? ==> Capacity() == if old(size) == old(Capacity()) then 2 * old(Capacity()) else old(Capacity())
      ensures r.Ok? && old(size) < old(Capacity()) ==> storage == old(storage)
      ensures storage == old(storage) || fresh(storage)
    {
      if pos.Less(Begin()) || pos.Greater(End()) {
        return OutOfRange;
      }
      var k := pos.Distance(Begin());
      if size == storage.Length {
        Reserve(storage.Length * 2);
      }
      size := size + 1;
      SpliceInAbove(storage, k, size, [v]);
      r := Ok(Begin().Plus(k));
    }

    /**
     * insert(pos, first, last): pos must lie in [begin(), end()]. When the
     * elements of [first, last) do not fit, the capacity grows by exactly
     * their number; the tail moves right by that number and the range is
     * copied into the gap. The source's shift loop also fills the gap slots
     * from the slots last - first below them, which lie before begin() when
     * last - first exceeds the insertion offset plus one: the second
     * precondition excludes those inputs.
     */
    method InsertRange(pos: Iterator, src: seq<T>, first: nat, last: nat) returns (r: Result<Iterator>)
      requires Valid()
      requires first <= last <= |src|
      requires 0 <= pos.offset <= size ==> last - first <= pos.offset + 1
      modifies this, storage
      ensures Valid()
      ensures r.OutOfRange? <==> !(0 <= pos.offset <= old(size))
      ensures r.OutOfRange? ==> unchanged(this) && unchanged(storage)
      ensures r.Ok? ==> r.value == pos && Elements() == Splice.Inserted(old(Elements()), pos.offset, src[first..last])
      ensures r.Ok? ==>
                Capacity() == if old(size) + (last - first) > old(Capacity()) then old(Capacity()) + (last - first) else old(Capacity())
      ensures r.Ok? && old(size) + (last - first) <= old(Capacity()) ==> storage == old(storage)
      ensures storage == old(storage) || fresh(storage)
    {
      if pos.Less(Begin()) || pos.Greater(End()) {
        return OutOfRange;
      }
      var dif := last - first;
      var k := pos.Distance(Begin());
      if size == storage.Length || size + dif > storage.Length {
        Reserve(storage.Length + dif);
      }
      size := size + dif;
      SpliceInAbove(storage, k, size, src[first..last]);
      r := Ok(pos);
    }

    /**
     * insert(pos, ilist): pos must lie in [begin(), end()]. Only a full
     * buffer grows, by exactly the list's length; the tail moves right and
     * the list fills the gap. Two inputs make the source leave its buffer and
     * are excluded by the preconditions: a buffer that is not full but
     * lacks room (the writes run past its end), and a list longer than the
     * insertion offset (the shift loop reads before begin()).
     */
    method InsertList(pos: Iterator, ilist: seq<T>) returns (r: Result<Iterator>)
      requires Valid()
      requires 0 <= pos.offset <= size ==> size == storage.Length || size + |ilist| <= storage.Length
      requires 0 <= pos.offset <= size ==> |ilist| <= pos.offset
      modifies this, storage
      ensures Valid()
      ensures r.OutOfRange? <==> !(0 <= pos.offset <= old(size))
      ensures r.OutOfRange? ==> unchanged(this) && unchanged(storage)
      ensures r.Ok? ==> r.value == pos && Elements() == Splice.Inserted(old(Elements()), pos.offset, ilist)
      ensures r.Ok? ==>
                Capacity() == if old(size) == old(Capacity()) then old(Capacity()) + |ilist| else old(Capacity())
      ensures r.Ok? && old(size) < old(Capacity()) ==> storage == old(storage)
      ensures storage == old(storage) || fresh(storage)
    {
      var k := pos.Distance(Begin());
      var n := |ilist|;
      if pos.Less(Begin()) || pos.Greater(End()) {
        return OutOfRange;
      }
      if size == storage.Length {
        Reserve(storage.Length + n);
      }
      size := size + n;
      SpliceInFrom(storage, k, size, ilist);
      r := Ok(pos);
    }

    /**
     * assign(count, value): count copies of value. When count does not
     * exceed the current size they overwrite the buffer in place and the
     * capacity is kept; otherwise a buffer of exactly count slots replaces it.
     */
    method AssignFill(count: nat, value: T)
      requires Valid()
      modifies this, storage
      ensures Valid()
      ensures Elements() == seq(count, _ => value)
      ensures Capacity() == if count <= old(size) then old(Capacity()) else count
      ensures count <= old(size) ==> storage == old(storage)
      ensures count > old(size) ==> fresh(storage)
    {
      if count <= size {
        size := count;
        CopyInto(storage, seq(count, _ => value));
      } else {
        var filled := NewBuffer(seq(count, _ => value), count);
        size := count;
        storage := filled;
      }
    }

    /**
     * assign(ilist): the list's elements. The same size threshold as
     * assign(count, value) decides between overwriting in place and an
     * exact-fit fresh buffer.
     */
    method AssignList(il: seq<T>)
      requires Valid()
      modifies this, storage
      ensures Valid()
      ensures Elements() == il
      ensures Capacity() == if |il| <= old(size) then old(Capacity()) else |il|
      ensures |il| <= old(size) ==> storage == old(storage)
      ensures |il| > old(size) ==> fresh(storage)
    {
      if |il| <= size {
        size := |il|;
        CopyInto(storage, il);
      } else {
        var filled := NewBuffer(il, |il|);
        size := |il|;
        storage := filled;
      }
    }

    /** assign(first, last): the elements of [first, last), by the same steps as assign(ilist). */
    method AssignRange(src: seq<T>, first: nat, last: nat)
      requires Valid()
      requires first <= last <= |src|
      modifies this, storage
      ensures Valid()
      ensures Elements() == src[first..last]
      ensures Capacity() == if last - first <= old(size) then old(Capacity()) else last - first
      ensures last - first <= old(size) ==> storage == old(storage)
      ensures last - first > old(size) ==> fresh(storage)
    {
      AssignList(src[first..last]);
    }

    /**
     * erase(first, last): rejects a reversed range and one reaching outside
     * [begin(), end()]; otherwise the tail moves left over the range and
     * first is returned. The buffer and capacity stay.
     */
    method EraseRange(first: Iterator, last: Iterator) returns (r: Result<Iterator>)
      requires Valid()
      modifies this, storage
      ensures Valid() && storage == old(storage)
      ensures r.OutOfRange? <==> (first.Greater(last) || first.offset < 0 || last.offset > old(size))
      ensures r.OutOfRange? ==> unchanged(this) && unchanged(storage)
      ensures r.Ok? ==> r.value == first && Elements() == Splice.Removed(old(Elements()), first.offset, last.offset)
    {
      var dif := last.Distance(first);
      if first.Greater(last) || first.Less(Begin()) || last.Greater(End()) {
        return OutOfRange;
      }
      var a := storage;
      ShiftDown(a, first.offset, size, dif);
      size := size - dif;
      r := Ok(first);
    }

    /**
     * erase(pos): pos must lie in [begin(), end()); the elements after it
     * move one slot left and pos is returned.
     */
    method Erase(pos: Iterator) returns (r: Result<Iterator>)
      requires Valid()
      modifies this, storage
      ensures Valid() && storage == old(storage)
      ensures r.OutOfRange? <==> !(0 <= pos.offset < old(size))
      ensures r.OutOfRange? ==> unchanged(this) && unchanged(storage)
      ensures r.Ok? ==> r.value == pos && Elements() == Splice.Removed(old(Elements()), pos.offset, pos.offset + 1)
    {
      if pos.GreaterEq(Begin()) && pos.Less(End()) {
        var a := storage;
        ShiftDown(a, pos.offset, size, 1);
        size := size - 1;
        return Ok(pos);
      } else {
        return OutOfRange;
      }
    }

    /** back(): the last live element; throws on an empty vector. */
    function Back(): (r: Result<T>)
      reads this, storage
      requires Valid()
      ensures r.OutOfRange? <==> Elements() == []
      ensures r.Ok? ==> r.value == Elements()[|Elements()| - 1]
    {
      if size > 0 then Ok(storage[size - 1]) else OutOfRange
    }

    /** front(): the first live element; throws on an empty vector. */
    function Front(): (r: Result<T>)
      reads this, storage
      requires Valid()
      ensures r.OutOfRange? <==> Elements() == []
      ensures r.Ok? ==> r.value == Elements()[0]
    {
      if size > 0 then Ok(storage[0]) else OutOfRange
    }

    /** at(idx): checked access; throws exactly when idx is not below size(). */
    function At(idx: nat): (r: Result<T>)
      reads this, storage
      requires Valid()
      ensures r.OutOfRange? <==> idx >= |Elements()|
      ensures r.Ok? ==> r.value == Elements()[idx]
    {
      if idx < size then Ok(storage[idx]) else OutOfRange
    }
  }

  /** Dereferencing begin() + k reads the element at(k) returns, for every live offset k. */
  lemma DerefMatchesAt<T(0)>(v: Vector<T>, k: nat)
    requires v.Valid() && k < v.size
    ensures v.At(k) == Ok(v.Begin().Plus(k).Deref(v.Elements()))
  {
  }

  /** operator==: equal sizes and pairwise equal elements, compared through at(). */
  method Equal<T(0, ==)>(a: Vector<T>, b: Vector<T>) returns (eq: bool)
    requires a.Valid() && b.Valid()
    ensures eq <==> a.Elements() == b.Elements()
  {
    if a.size != b.size {
      return false;
    }
    var i := 0;
    while i < b.size
      invariant 0 <= i <= b.size
      invariant forall j :: 0 <= j < i ==> a.Elements()[j] == b.Elements()[j]
    {
      if a.At(i) != b.At(i) {
        return false;
      }
      i := i + 1;
    }
    return true;
  }

  /** operator!=: the negation of operator==. */
  method NotEqual<T(0, ==)>(a: Vector<T>, b: Vector<T>) returns (ne: bool)
    requires a.Valid() && b.Valid()
    ensures ne <==> a.Elements() != b.Elements()
  {
    var eq := Equal(a, b);
    ne := if eq then false else true;
  }

  /** swap(a, b): the two vectors exchange buffer, size and capacity. */
  method Swap<T(0)>(a: Vector<T>, b: Vector<T>)
    requires a.Valid() && b.Valid()
    modifies a, b
    ensures a.Valid() && b.Valid()
    ensures a.storage == old(b.storage) && a.size == old(b.size)
    ensures b.storage == old(a.storage) && b.size == old(a.size)
    ensures a.Elements() == old(b.Elements()) && b.Elements() == old(a.Elements())
  {
    var s := a.size;
    a.size := b.size;
    b.size := s;
    var buf := a.storage;
    a.storage := b.storage;
    b.storage := buf;
  }
}
