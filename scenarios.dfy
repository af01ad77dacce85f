/**
 * Clients of the vector that use its contracts alone: an insert, an erase
 * and an out-of-range at() on {10, 20, 30}, the capacity after eleven
 * push_back calls, the push/pop and insert/erase round trips and container
 * equality.
 */
module Scenarios {
  import opened Iterators
  import opened Vectors
  import Growth
  import Splice

  /** {10, 20, 30}; insert(begin() + 1, 99); erase(begin()); at(3). */
  method InsertEraseAt() returns (afterInsert: seq<int>, afterErase: seq<int>, probe: Result<int>)
    ensures afterInsert == [10, 99, 20, 30]
    ensures afterErase == [99, 20, 30]
    ensures probe == OutOfRange
  {
    var v := new Vector<int>.FromList([10, 20, 30]);
    var r := v.Insert(v.Begin().Plus(1), 99);
    afterInsert := v.storage[..v.size];
    assert afterInsert == Splice.Inserted([10, 20, 30], 1, [99]);
    assert afterInsert == [10, 99, 20, 30];
    r := v.Erase(v.Begin());
    afterErase := v.storage[..v.size];
    assert afterErase == Splice.Removed([10, 99, 20, 30], 0, 1);
    probe := v.At(3);
  }

  /** vector() followed by eleven push_back calls: capacity 10 after the first, 20 after the eleventh. */
  method PushBackGrowth() returns (first: nat, eleventh: nat)
    ensures first == 10
    ensures eleventh == 20
  {
    var v := new Vector<int>(0, 0);
    v.PushBack(0);
    first := v.Capacity();
    var i := 1;
    while i < 11
      invariant 1 <= i <= 11
      invariant v.Valid() && fresh(v.storage)
      invariant v.size == i && v.Capacity() == Growth.CapacityAfterPushes(i)
    {
      v.PushBack(i);
      i := i + 1;
    }
    Growth.FirstAndEleventhPush();
    eleventh := v.Capacity();
  }

  /** push_back followed by pop_back gives back the same elements (the capacity may have grown). */
  method PushThenPop(v: Vector<int>, x: int)
    requires v.Valid()
    modifies v, v.storage
    ensures v.Valid()
    ensures v.Elements() == old(v.Elements())
    ensures v.Capacity() == Growth.PushCapacity(old(v.Capacity()), old(v.size))
  {
    v.PushBack(x);
    v.PopBack();
  }

  /** insert(pos, x) followed by erase(pos) gives back the same elements. */
  method InsertThenErase(v: Vector<int>, pos: Iterator, x: int) returns (inserted: bool)
    requires v.Valid()
    requires 0 <= pos.offset <= v.size ==> 0 < v.Capacity()
    modifies v, v.storage
    ensures v.Valid()
    ensures inserted <==> 0 <= pos.offset <= old(v.size)
    ensures v.Elements() == old(v.Elements())
  {
    var r := v.Insert(pos, x);
    inserted := r.Ok?;
    if inserted {
      ghost var before := old(v.Elements());
      var e := v.Erase(pos);
      Splice.RemovedInserted(before, pos.offset, [x]);
    }
  }

  /** Two vectors built from {1, 2, 3} compare equal; {1, 2, 3} and {1, 2} compare unequal. */
  method EqualityExamples() returns (same: bool, different: bool)
    ensures same
    ensures different
  {
    var a := new Vector<int>.FromList([1, 2, 3]);
    var b := new Vector<int>.FromList([1, 2, 3]);
    var c := new Vector<int>.FromList([1, 2]);
    same := Equal(a, b);
    different := NotEqual(a, c);
  }
}
