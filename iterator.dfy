/**
 * The position iterator of sc::vector (MyForwardIterator). The source wraps a
 * raw pointer into the vector's buffer; here a position is its signed offset
 * from begin(), so pointer arithmetic becomes integer arithmetic and pointer
 * ordering becomes integer ordering. Offsets may lie outside the buffer: the
 * vector's insert and erase reject such positions themselves.
 */
module Iterators {

  datatype Iterator = Iterator(offset: int)
  {
    /** it + n, n + it and it += n: the cursor moved n slots forward. */
    function Plus(n: int): (r: Iterator)
      ensures r.Distance(this) == n
    {
      Iterator(offset + n)
    }

    /** it - n and it -= n: the cursor moved n slots backward. */
    function Minus(n: int): (r: Iterator)
      ensures this.Distance(r) == n
    {
      Iterator(offset - n)
    }

    /** The position one slot forward, where ++ leaves the cursor. */
    function Next(): (r: Iterator)
      ensures r.Distance(this) == 1
    {
      Plus(1)
    }

    /** The position one slot backward, where -- leaves the cursor. */
    function Prev(): (r: Iterator)
      ensures this.Distance(r) == 1
    {
      Minus(1)
    }

    /** this - other: the signed number of slots from other to this. */
    function Distance(other: Iterator): (d: int)
      ensures Iterator(other.offset + d) == this
      ensures d == 0 <==> this == other
    {
      offset - other.offset
    }

    /** Pre-increment: moves the cursor and yields (a copy of) the moved cursor. */
    function PreIncrement(): (r: Step)
      ensures r.cursor.Distance(this) == 1
      ensures r.value == r.cursor
    {
      Step(Next(), Next())
    }

    /** Post-increment: moves the cursor and yields the cursor as it was. */
    function PostIncrement(): (r: Step)
      ensures r.cursor.Distance(this) == 1
      ensures r.value == this
    {
      Step(Next(), this)
    }

    /** Pre-decrement: moves the cursor back and yields the moved cursor. */
    function PreDecrement(): (r: Step)
      ensures this.Distance(r.cursor) == 1
      ensures r.value == r.cursor
    {
      Step(Prev(), Prev())
    }

    /** Post-decrement: moves the cursor back and yields the cursor as it was. */
    function PostDecrement(): (r: Step)
      ensures this.Distance(r.cursor) == 1
      ensures r.value == this
    {
      Step(Prev(), this)
    }

    /** it < other: other lies a positive number of slots after it. */
    function Less(other: Iterator): (b: bool)
      ensures b <==> other.Distance(this) > 0
    {
      offset < other.offset
    }

    /** it > other: the converse of <. */
    function Greater(other: Iterator): (b: bool)
      ensures b <==> other.Less(this)
    {
      offset > other.offset
    }

    /** it <= other: the negation of >. */
    function LessEq(other: Iterator): (b: bool)
      ensures b <==> !Greater(other)
    {
      offset <= other.offset
    }

    /** it >= other: the negation of <. */
    function GreaterEq(other: Iterator): (b: bool)
      ensures b <==> !Less(other)
    {
      offset >= other.offset
    }

    /** Dereference (*it): the slot the cursor points at, which must lie inside the buffer. */
    function Deref<T>(buffer: seq<T>): (r: T)
      requires 0 <= offset < |buffer|
      ensures r == buffer[offset]
    {
      buffer[offset]
    }

    /**
     * it == other: the source compares the values the two iterators point at,
     * not their positions.
     */
    function ValueEqual<T(==)>(buffer: seq<T>, other: Iterator): (b: bool)
      requires 0 <= offset < |buffer| && 0 <= other.offset < |buffer|
      ensures this == other ==> b
      ensures b <==> buffer[offset] == buffer[other.offset]
    {
      Deref(buffer) == other.Deref(buffer)
    }

    /** it != other: again a comparison of the pointed-to values. */
    function ValueNotEqual<T(==)>(buffer: seq<T>, other: Iterator): (b: bool)
      requires 0 <= offset < |buffer| && 0 <= other.offset < |buffer|
      ensures b <==> !ValueEqual(buffer, other)
    {
      Deref(buffer) != other.Deref(buffer)
    }
  }

  /** What an increment or decrement expression does: where the cursor ends and what the expression yields. */
  datatype Step = Step(cursor: Iterator, value: Iterator)

  /** Moving forward and then back by the same amount returns to the start, and vice versa. */
  lemma PlusMinusInverse(it: Iterator, n: int)
    ensures it.Plus(n).Minus(n) == it
    ensures it.Minus(n).Plus(n) == it
    ensures it.Next().Prev() == it && it.Prev().Next() == it
  {
  }

  /** Offsets compose: (it + a) + b == it + (a + b), and it - n == it + (-n). */
  lemma PlusCompose(it: Iterator, a: int, b: int)
    ensures it.Plus(a).Plus(b) == it.Plus(a + b)
    ensures it.Minus(a) == it.Plus(-a)
  {
  }

  /** Iterator difference undoes offset arithmetic: (it + n) - it == n. */
  lemma DistanceOfPlus(it: Iterator, n: int)
    ensures it.Plus(n).Distance(it) == n
    ensures it.Distance(it.Plus(n)) == -n
  {
  }

  /** The four relational operators follow the sign of the difference and are each other's converses. */
  lemma OrderByDistance(a: Iterator, b: Iterator)
    ensures a.Less(b) <==> b.Distance(a) > 0
    ensures a.Greater(b) <==> b.Less(a)
    ensures a.LessEq(b) <==> !a.Greater(b)
    ensures a.GreaterEq(b) <==> !a.Less(b)
    ensures a.LessEq(b) && b.LessEq(a) <==> a == b
  {
  }

  /** Dereferencing it + n reads the slot n places after the one it points at; so does *(++it) for n == 1. */
  lemma DerefAfterPlus<T>(buffer: seq<T>, it: Iterator, n: int)
    requires 0 <= it.offset + n < |buffer|
    ensures it.Plus(n).Deref(buffer) == buffer[it.offset + n]
    ensures n == 1 ==> it.PreIncrement().value.Deref(buffer) == buffer[it.offset + 1]
  {
  }

  /** Pre- and post-increment leave the cursor at the same place; only what they yield differs. */
  lemma IncrementForms(it: Iterator)
    ensures it.PreIncrement().cursor == it.PostIncrement().cursor
    ensures it.PreIncrement().value == it.PostIncrement().value.Next()
    ensures it.PreDecrement().cursor == it.PostDecrement().cursor
    ensures it.PreDecrement().value == it.PostDecrement().value.Prev()
  {
  }

  /** Two iterators at the same position always compare equal, and != is the negation of ==. */
  lemma ValueEqualReflexive<T>(buffer: seq<T>, a: Iterator, b: Iterator)
    requires 0 <= a.offset < |buffer| && 0 <= b.offset < |buffer|
    ensures a == b ==> a.ValueEqual(buffer, b)
    ensures a.ValueNotEqual(buffer, b) <==> !a.ValueEqual(buffer, b)
  {
  }

  /**
   * The value-based == is not position equality: iterators at different
   * positions holding equal values compare equal, and a difference of values
   * is the only way two iterators compare unequal.
   */
  lemma ValueEqualIgnoresPosition<T>(buffer: seq<T>, a: Iterator, b: Iterator)
    requires 0 <= a.offset < |buffer| && 0 <= b.offset < |buffer|
    requires buffer[a.offset] == buffer[b.offset]
    ensures a.ValueEqual(buffer, b)
    ensures !a.ValueNotEqual(buffer, b)
  {
  }

  /** A concrete instance of the deviation: in the buffer [7, 7], begin() == begin() + 1. */
  lemma EqualAtDifferentPositions()
    ensures Iterator(0) != Iterator(1)
    ensures Iterator(0).ValueEqual([7, 7], Iterator(1))
  {
  }
}
