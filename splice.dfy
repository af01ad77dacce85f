/**
 * What the vector's insert and erase do to its live sequence, stated on
 * sequences. The shift loops of the vector are proved against these.
 */
module Splice {

  /** s with items placed in front of position k: the effect of inserting at begin() + k. */
  function Inserted<T>(s: seq<T>, k: nat, items: seq<T>): (r: seq<T>)
    requires k <= |s|
    ensures |r| == |s| + |items|
    ensures forall i :: 0 <= i < |r| ==>
              r[i] == if i < k then s[i] else if i < k + |items| then items[i - k] else s[i - |items|]
  {
    s[..k] + items + s[k..]
  }

  /** s without the elements at positions f up to (excluding) l: the effect of erasing [begin() + f, begin() + l). */
  function Removed<T>(s: seq<T>, f: nat, l: nat): (r: seq<T>)
    requires f <= l <= |s|
    ensures |r| == |s| - (l - f)
    ensures forall i :: 0 <= i < |r| ==> r[i] == if i < f then s[i] else s[i + (l - f)]
  {
    s[..f] + s[l..]
  }

  /** A sequence that agrees with s before k, with items from k on and with the rest of s after them is Inserted(s, k, items). */
  lemma InsertedByParts<T>(r: seq<T>, s: seq<T>, k: nat, items: seq<T>)
    requires k <= |s| && |r| == |s| + |items|
    requires forall t :: 0 <= t < k ==> r[t] == s[t]
    requires forall t :: k <= t < k + |items| ==> r[t] == items[t - k]
    requires forall t :: k + |items| <= t < |r| ==> r[t] == s[t - |items|]
    ensures r == Inserted(s, k, items)
  {
    var q := Inserted(s, k, items);
    assert forall t :: 0 <= t < |r| ==> r[t] == q[t];
  }

  /** Erasing what was just inserted gives back the original sequence. */
  lemma RemovedInserted<T>(s: seq<T>, k: nat, items: seq<T>)
    requires k <= |s|
    ensures Removed(Inserted(s, k, items), k, k + |items|) == s
  {
    var r := Removed(Inserted(s, k, items), k, k + |items|);
    assert forall i :: 0 <= i < |s| ==> r[i] == s[i];
  }

  /** Inserting back what was erased, at the same place, gives back the original sequence. */
  lemma InsertedRemoved<T>(s: seq<T>, f: nat, l: nat)
    requires f <= l <= |s|
    ensures Inserted(Removed(s, f, l), f, s[f..l]) == s
  {
    var r := Inserted(Removed(s, f, l), f, s[f..l]);
    assert forall i :: 0 <= i < |s| ==> r[i] == s[i];
  }

  /** An erase of an empty range leaves the sequence as it is; so does an insert of nothing. */
  lemma EmptySplices<T>(s: seq<T>, k: nat)
    requires k <= |s|
    ensures Removed(s, k, k) == s
    ensures Inserted(s, k, []) == s
  {
    assert forall i :: 0 <= i < |s| ==> Removed(s, k, k)[i] == s[i];
  }
}
