/**
 * The capacity policy of sc::vector: reserve never shrinks and allocates
 * exactly what is asked for; push_back and push_front seed an empty buffer
 * with 10 slots and double a full one.
 */
module Growth {

  /** The capacity a vector starts its first growth with. */
  const Seed: nat := 10

  /** Capacity after reserve(request) on a buffer of cap slots. */
  function Reserved(cap: nat, request: nat): (r: nat)
    ensures cap <= r && request <= r
    ensures r == cap || r == request
  {
    if request <= cap then cap else request
  }

  /** Capacity after push_back or push_front on a vector of size elements in cap slots. */
  function PushCapacity(cap: nat, size: nat): (r: nat)
    requires size <= cap
    ensures size < r
    ensures cap <= r
    ensures size < cap ==> r == cap
    ensures cap == 0 ==> r == Seed
    ensures 0 < cap == size ==> r == 2 * cap
  {
    if cap == 0 then Reserved(cap, Seed)
    else if size == cap then Reserved(cap, 2 * cap)
    else cap
  }

  /** Capacity of a vector created as vector() (no slots) after n calls of push_back. */
  function CapacityAfterPushes(n: nat): (c: nat)
    ensures n <= c
  {
    if n == 0 then 0 else PushCapacity(CapacityAfterPushes(n - 1), n - 1)
  }

  /**
   * The doubling policy keeps the buffer less than twice as large as the
   * content once the seed is outgrown: the first ten pushes run in the seed
   * buffer, and afterwards n <= capacity < 2 * n.
   */
  lemma {:induction false} PushesFromEmpty(n: nat)
    ensures n == 0 ==> CapacityAfterPushes(n) == 0
    ensures 0 < n <= Seed ==> CapacityAfterPushes(n) == Seed
    ensures Seed < n ==> n <= CapacityAfterPushes(n) < 2 * n
    ensures 0 < n ==> Seed <= CapacityAfterPushes(n)
  {
    if n > 0 {
      PushesFromEmpty(n - 1);
    }
  }

  /** The first push_back on vector() gives capacity 10; the eleventh gives 20. */
  lemma FirstAndEleventhPush()
    ensures CapacityAfterPushes(1) == 10
    ensures CapacityAfterPushes(11) == 20
  {
    PushesFromEmpty(10);
  }
}
