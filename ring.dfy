// `Ring<T>`: a deque of elements with a focused index. The focus is a plain
// index that may point past the end; `focused()` then yields nothing. The
// lock-respecting operations are the same algorithms as on a lockable deque and
// reuse them on the ring's `elements`.

module Rings {

  import opened Wrappers
  import opened LockableSequences

  class Ring<T> {
    var elements: seq<Lockable<T>>
    var focused: nat

    /** `Ring::default()`: no elements, focus on index 0. */
    constructor ()
      ensures elements == [] && focused == 0
    {
      elements := [];
      focused := 0;
    }

    /** `focus`: sets the focused index, whether or not it is in range. */
    method Focus(idx: nat)
      modifies this
      ensures FocusedIdx() == idx && elements == old(elements)
    {
      focused := idx;
    }

    function FocusedIdx(): nat
      reads this
    {
      focused
    }

    /** `focused()`: the element at the focused index, if there is one. */
    function Focused(): (r: Option<Lockable<T>>)
      reads this
      ensures r.None? <==> focused >= |elements|
      ensures r.Some? ==> r.value == elements[focused]
    {
      if focused < |elements| then Some(elements[focused]) else None
    }

    function Len(): nat
      reads this
    {
      |elements|
    }

    function IsEmpty(): (b: bool)
      reads this
      ensures b <==> Len() == 0
    {
      |elements| == 0
    }

    /** `last_index`: the index of the last element, 0 for an empty ring. */
    function LastIndex(): (i: nat)
      reads this
      ensures Len() > 0 ==> i == Len() - 1 && i < Len()
      ensures Len() == 0 ==> i == 0
    {
      if |elements| == 0 then 0 else |elements| - 1
    }

    /** `next_index`: the index a pushed element would get. */
    function NextIndex(): (i: nat)
      reads this
      ensures i == Len() && i == LastIndex() + (if IsEmpty() then 0 else 1)
    {
      |elements|
    }

    /** `get`: the element at `index`, if it is in range. */
    function Get(index: nat): (r: Option<Lockable<T>>)
      reads this
      ensures r.Some? <==> index < Len()
      ensures r.Some? ==> r.value == elements[index]
    {
      if index < |elements| then Some(elements[index]) else None
    }

    /** `insert_respecting_locks`: returns where the value ended up; the focus is not moved. */
    method InsertRespectingLocks(idx: nat, value: Lockable<T>) returns (pos: nat)
      modifies this
      ensures elements == Inserted(old(elements), idx, value)
      ensures pos == InsertedIndex(old(elements), idx, value)
      ensures elements[pos] == value
      ensures idx >= |old(elements)| ==> pos == LastIndex()
      ensures focused == old(focused)
    {
      InsertedPlacesValue(elements, idx, value);
      elements, pos := LockableSequences.InsertRespectingLocks(elements, idx, value);
    }

    /** `remove_respecting_locks`: nothing changes when `idx` is out of range. */
    method RemoveRespectingLocks(idx: nat) returns (removed: Option<Lockable<T>>)
      modifies this
      ensures idx >= |old(elements)| ==> removed == None && elements == old(elements)
      ensures idx < |old(elements)| ==> removed == Some(old(elements)[idx]) && elements == Removed(old(elements), idx)
      ensures focused == old(focused)
    {
      elements, removed := LockableSequences.RemoveRespectingLocks(elements, idx);
    }

    /** `swap_respecting_locks`: the lock flags stay with the positions. */
    method SwapRespectingLocks(i: nat, j: nat)
      requires i < Len() && j < Len()
      modifies this
      ensures elements == LockableSequences.SwapRespectingLocks(old(elements), i, j)
      ensures forall k :: 0 <= k < |elements| ==> elements[k].locked == old(elements)[k].locked
      ensures focused == old(focused)
    {
      elements := LockableSequences.SwapRespectingLocks(elements, i, j);
    }
  }
}
