// `LockableSequence` for a deque of lockable elements: insertion and removal
// that keep locked elements at their absolute positions, and a swap that leaves
// the lock flags with the positions. The deque is a sequence value; each
// operation takes the current contents and returns the new ones, so the
// `&mut VecDeque` of the source becomes an in/out pair.

module LockableSequences {

  import opened Wrappers

  /** An element together with its lock flag (`Lockable::locked` and `set_locked`). */
  datatype Lockable<T> = Lockable(value: T, locked: bool)

  /** `VecDeque::insert`: `v` at `idx`, the later elements one place to the right. */
  function InsertAt<T>(s: seq<T>, idx: nat, v: T): (t: seq<T>)
    requires idx <= |s|
    ensures |t| == |s| + 1 && t[idx] == v
    ensures forall k :: 0 <= k < idx ==> t[k] == s[k]
    ensures forall k :: idx <= k < |s| ==> t[k + 1] == s[k]
  {
    s[..idx] + [v] + s[idx..]
  }

  lemma InsertAtMultiset<T>(s: seq<T>, idx: nat, v: T)
    requires idx <= |s|
    ensures multiset(InsertAt(s, idx, v)) == multiset(s) + multiset{v}
  {
    assert s == s[..idx] + s[idx..];
  }

  /** `VecDeque::remove`: the element at `idx` is dropped, the later ones move left. */
  function RemoveAt<T>(s: seq<T>, idx: nat): (t: seq<T>)
    requires idx < |s|
    ensures |t| == |s| - 1
    ensures forall k :: 0 <= k < idx ==> t[k] == s[k]
    ensures forall k :: idx <= k < |t| ==> t[k] == s[k + 1]
  {
    s[..idx] + s[idx + 1..]
  }

  lemma RemoveAtMultiset<T>(s: seq<T>, idx: nat)
    requires idx < |s|
    ensures multiset(RemoveAt(s, idx)) + multiset{s[idx]} == multiset(s)
  {
    assert s == s[..idx] + [s[idx]] + s[idx + 1..];
  }

  /** `VecDeque::swap`. */
  function Swap<T>(s: seq<T>, i: nat, j: nat): (r: seq<T>)
    requires i < |s| && j < |s|
    ensures |r| == |s| && r[i] == s[j] && r[j] == s[i]
    ensures forall k :: 0 <= k < |s| && k != i && k != j ==> r[k] == s[k]
  {
    s[i := s[j]][j := s[i]]
  }

  lemma SwapMultiset<T>(s: seq<T>, i: nat, j: nat)
    requires i < |s| && j < |s|
    ensures multiset(Swap(s, i, j)) == multiset(s)
  {
  }

  /** The first position at or after `i` that is past the end or holds an unlocked element. */
  function FreeSlot<T>(s: seq<Lockable<T>>, i: nat): (f: nat)
    requires i <= |s|
    ensures i <= f <= |s|
    ensures forall k :: i <= k < f ==> s[k].locked
    ensures f < |s| ==> !s[f].locked
    decreases |s| - i
  {
    if i == |s| || !s[i].locked then i else FreeSlot(s, i + 1)
  }

  // ------------------------------------------------------------------ insert

  /** The last position in `lo..p` (inclusive) holding an unlocked element, or -1. */
  function LastUnlocked<T>(t: seq<Lockable<T>>, lo: nat, p: int): (u: int)
    requires p < |t|
    ensures u == -1 || (lo <= u <= p && !t[u].locked)
    ensures u == -1 ==> forall q :: lo <= q <= p ==> t[q].locked
    decreases p
  {
    if p < lo then -1 else if !t[p].locked then p else LastUnlocked(t, lo, p - 1)
  }

  /**
   * The element at `p` once the left-to-right pass of `insert_respecting_locks`
   * has looked at the positions `lo + 1 .. j - 1`. Before the first unlocked
   * element from `lo` on nothing moves; after it, every locked element has been
   * pulled one place left, each freed place holds the latest unlocked element
   * seen, and the most recent one is carried at `j - 1`.
   */
  function ForwardAt<T>(t: seq<Lockable<T>>, lo: nat, j: nat, p: nat): Lockable<T>
    requires lo < j <= |t| && p < |t|
  {
    if p < lo || p >= j then t[p]
    else
      var u := LastUnlocked(t, lo, p);
      if u < 0 then t[p]
      else if p + 1 < j && t[p + 1].locked then t[p + 1]
      else t[u]
  }

  /** One step of the left-to-right pass: position `j` is compared with the one before it. */
  function ForwardStep<T>(r: seq<Lockable<T>>, j: nat): (r': seq<Lockable<T>>)
    requires 0 < j < |r|
    ensures |r'| == |r|
  {
    if r[j].locked && !r[j - 1].locked then Swap(r, j - 1, j) else r
  }

  /** The deque once the pass has looked at the positions `lo + 1 .. j - 1`, one step at a time. */
  function Forwarded<T>(t: seq<Lockable<T>>, lo: nat, j: nat): (r: seq<Lockable<T>>)
    requires lo < j <= |t|
    ensures |r| == |t|
    decreases j
  {
    if j == lo + 1 then t else ForwardStep(Forwarded(t, lo, j - 1), j - 1)
  }

  /** The pass so far, position by position. */
  lemma {:induction false} ForwardedAt<T>(t: seq<Lockable<T>>, lo: nat, j: nat)
    requires lo < j <= |t|
    ensures forall p :: 0 <= p < |t| ==> Forwarded(t, lo, j)[p] == ForwardAt(t, lo, j, p)
    decreases j
  {
    if j == lo + 1 {
      forall p | 0 <= p < |t|
        ensures t[p] == ForwardAt(t, lo, j, p)
      {
        if p == lo {
          var u := LastUnlocked(t, lo, lo);
        }
      }
    } else {
      ForwardedAt(t, lo, j - 1);
      ForwardStepAt(t, lo, j - 1, Forwarded(t, lo, j - 1));
    }
  }

  /** The pass only swaps. */
  lemma {:induction false} ForwardedMultiset<T>(t: seq<Lockable<T>>, lo: nat, j: nat)
    requires lo < j <= |t|
    ensures multiset(Forwarded(t, lo, j)) == multiset(t)
    decreases j
  {
    if j > lo + 1 {
      ForwardedMultiset(t, lo, j - 1);
      ForwardedStepMultiset(t, lo, j);
    }
  }

  lemma ForwardedStepMultiset<T>(t: seq<Lockable<T>>, lo: nat, j: nat)
    requires lo + 1 < j <= |t|
    ensures multiset(Forwarded(t, lo, j)) == multiset(Forwarded(t, lo, j - 1))
  {
    StepMultiset(Forwarded(t, lo, j - 1), j - 1);
  }

  /** Either pass's step swaps two neighbours or changes nothing. */
  lemma StepMultiset<T>(r: seq<Lockable<T>>, j: nat)
    requires 0 < j < |r|
    ensures multiset(ForwardStep(r, j)) == multiset(r)
    ensures multiset(BackwardStep(r, j - 1)) == multiset(r)
  {
    SwapMultiset(r, j - 1, j);
  }

  /** The pass has not yet touched the positions from `j` on. */
  lemma {:induction false} ForwardedAhead<T>(t: seq<Lockable<T>>, lo: nat, j: nat, p: nat)
    requires lo < j <= p < |t|
    ensures Forwarded(t, lo, j)[p] == t[p]
    decreases j
  {
    if j > lo + 1 {
      ForwardedAhead(t, lo, j - 1, p);
    }
  }

  lemma ForwardStepAt<T>(t: seq<Lockable<T>>, lo: nat, j: nat, r: seq<Lockable<T>>)
    requires lo < j < |t| == |r|
    requires forall p :: 0 <= p < |r| ==> r[p] == ForwardAt(t, lo, j, p)
    ensures forall p :: 0 <= p < |r| ==> ForwardStep(r, j)[p] == ForwardAt(t, lo, j + 1, p)
  {
    var r' := ForwardStep(r, j);
    forall p | 0 <= p < |r|
      ensures r'[p] == ForwardAt(t, lo, j + 1, p)
    {
      if p == j - 1 || p == j {
        assert r[j - 1] == ForwardAt(t, lo, j, j - 1);
        assert r[j] == t[j];
      } else {
        assert r[p] == ForwardAt(t, lo, j, p);
      }
    }
  }

  /** The contents after `insert_respecting_locks(idx, v)`. */
  function Inserted<T>(s: seq<Lockable<T>>, idx: nat, v: Lockable<T>): (r: seq<Lockable<T>>)
    ensures |r| == |s| + 1
  {
    if idx >= |s| then s + [v]
    else Forwarded(InsertAt(s, idx, v), idx, |s| + 1)
  }

  /**
   * The index `insert_respecting_locks(idx, v)` returns: the end when `idx` is
   * out of range, `idx` itself for a locked value, and otherwise the first
   * position from `idx` on that held no locked element.
   */
  function InsertedIndex<T>(s: seq<Lockable<T>>, idx: nat, v: Lockable<T>): (pos: nat)
    ensures pos <= |s|
    ensures idx < |s| ==> idx <= pos
  {
    if idx >= |s| then |s| else if v.locked then idx else FreeSlot(s, idx)
  }

  /** `insert_respecting_locks`: a `VecDeque::insert` followed by one left-to-right swap pass. */
  method InsertRespectingLocks<T>(s: seq<Lockable<T>>, idx: nat, v: Lockable<T>)
    returns (r: seq<Lockable<T>>, pos: nat)
    ensures r == Inserted(s, idx, v) && pos == InsertedIndex(s, idx, v)
  {
    if idx >= |s| {
      r := s + [v];
      pos := |r| - 1;
      return;
    }
    r := InsertAt(s, idx, v);
    ghost var t := r;
    pos := idx;
    var index := idx + 1;
    while index < |r|
      invariant |r| == |s| + 1 && index <= |r|
      invariant Passing(s, idx, v, t, r, pos, index)
    {
      PassingStep(s, idx, v, t, r, pos, index);
      if r[index].locked && !r[index - 1].locked {
        r := Swap(r, index - 1, index);
        if pos == index - 1 {
          pos := index;
        }
      }
      index := index + 1;
    }
    PassingDone(s, idx, v, t, r, pos);
  }

  /** The loop invariant of `InsertRespectingLocks` after the pass has looked at `idx + 1 .. index - 1`. */
  ghost predicate Passing<T>(s: seq<Lockable<T>>, idx: nat, v: Lockable<T>, t: seq<Lockable<T>>,
                             r: seq<Lockable<T>>, pos: nat, index: nat)
  {
    idx < |s| && t == InsertAt(s, idx, v) && idx < index <= |t|
    && r == Forwarded(t, idx, index)
    && idx <= pos < index && r[pos] == v
    && (v.locked ==> pos == idx)
    && (!v.locked ==> pos == CarriedTo(s, idx, index))
  }

  /** Where the inserted value is after the pass looks at `index`. */
  function NextPos<T>(r: seq<Lockable<T>>, pos: nat, index: nat): nat
    requires 0 < index < |r|
  {
    if r[index].locked && !r[index - 1].locked && pos == index - 1 then index else pos
  }

  lemma PassingStep<T>(s: seq<Lockable<T>>, idx: nat, v: Lockable<T>, t: seq<Lockable<T>>,
                             r: seq<Lockable<T>>, pos: nat, index: nat)
    requires Passing(s, idx, v, t, r, pos, index) && index < |t|
    ensures Passing(s, idx, v, t, ForwardStep(r, index), NextPos(r, pos, index), index + 1)
  {
    ForwardedAhead(t, idx, index, index);
    CarriedStep(s, idx, index);
  }

  lemma PassingDone<T>(s: seq<Lockable<T>>, idx: nat, v: Lockable<T>, t: seq<Lockable<T>>,
                       r: seq<Lockable<T>>, pos: nat)
    requires Passing(s, idx, v, t, r, pos, |s| + 1)
    ensures r == Inserted(s, idx, v) && pos == InsertedIndex(s, idx, v)
  {
  }

  /** Insertion adds the value and loses nothing. */
  lemma InsertedMultiset<T>(s: seq<Lockable<T>>, idx: nat, v: Lockable<T>)
    ensures multiset(Inserted(s, idx, v)) == multiset(s) + multiset{v}
  {
    if idx < |s| {
      var t := InsertAt(s, idx, v);
      assert Inserted(s, idx, v) == Forwarded(t, idx, |s| + 1);
      ForwardedMultiset(t, idx, |s| + 1);
      InsertAtMultiset(s, idx, v);
    } else {
      assert Inserted(s, idx, v) == s + [v];
    }
  }

  /** Where the pass has carried an unlocked value by the time it reaches `j`. */
  function CarriedTo<T>(s: seq<Lockable<T>>, idx: nat, j: nat): nat
    requires idx <= |s| && j > 0
  {
    if FreeSlot(s, idx) < j - 1 then FreeSlot(s, idx) else j - 1
  }

  /** Reaching `j`, the pass carries the value on exactly when the element it meets is locked. */
  lemma CarriedStep<T>(s: seq<Lockable<T>>, idx: nat, j: nat)
    requires idx < j <= |s|
    ensures CarriedTo(s, idx, j + 1) ==
      if CarriedTo(s, idx, j) < j - 1 then CarriedTo(s, idx, j) else if s[j - 1].locked then j else j - 1
  {
    if FreeSlot(s, idx) >= j - 1 && !s[j - 1].locked {
      assert FreeSlot(s, idx) == j - 1;
    }
  }

  /** The run of locked elements right after an unlocked one carries it along. */
  lemma {:induction false} LastUnlockedOverLockedRun<T>(t: seq<Lockable<T>>, lo: nat, p: nat)
    requires lo <= p < |t| && !t[lo].locked
    requires forall q :: lo < q <= p ==> t[q].locked
    ensures LastUnlocked(t, lo, p) == lo
    decreases p
  {
    if p > lo {
      LastUnlockedOverLockedRun(t, lo, p - 1);
    }
  }

  /**
   * The returned index holds the inserted value, and the elements before the
   * insertion point keep their places.
   */
  lemma InsertedPlacesValue<T>(s: seq<Lockable<T>>, idx: nat, v: Lockable<T>)
    ensures Inserted(s, idx, v)[InsertedIndex(s, idx, v)] == v
    ensures forall k :: 0 <= k < idx && k < |s| ==> Inserted(s, idx, v)[k] == s[k]
  {
    if idx < |s| {
      var t := InsertAt(s, idx, v);
      ForwardedAt(t, idx, |s| + 1);
      if !v.locked {
        LastUnlockedOverLockedRun(t, idx, FreeSlot(s, idx));
      }
    }
  }

  /** An unlocked value never displaces a locked element: every locked element stays where it was. */
  lemma InsertedKeepsLocks<T>(s: seq<Lockable<T>>, idx: nat, v: Lockable<T>)
    requires !v.locked
    ensures forall k :: 0 <= k < |s| && s[k].locked ==> Inserted(s, idx, v)[k] == s[k]
  {
    if idx < |s| {
      ForwardedAt(InsertAt(s, idx, v), idx, |s| + 1);
    }
  }

  /** Inserting past the end appends and reports the last index. */
  lemma InsertedPastEndAppends<T>(s: seq<Lockable<T>>, idx: nat, v: Lockable<T>)
    requires idx >= |s|
    ensures Inserted(s, idx, v) == s + [v] && InsertedIndex(s, idx, v) == |s|
  {
  }

  /** The deque of the source's tests: five unlocked elements but for a locked one at index 2. */
  const LockedAtTwo: seq<Lockable<int>> :=
    [Lockable(0, false), Lockable(1, false), Lockable(2, true), Lockable(3, false), Lockable(4, false)]

  /**
   * The source's first two insertion tests: inserting before the locked
   * element leaves it at index 2, and inserting at the locked index places
   * the value just after it.
   */
  lemma InsertAtLockedIndexExample()
    ensures Inserted(LockedAtTwo, 0, Lockable(99, false))
         == [Lockable(99, false), Lockable(0, false), Lockable(2, true), Lockable(1, false), Lockable(3, false), Lockable(4, false)]
    ensures InsertedIndex(LockedAtTwo, 2, Lockable(99, false)) == 3
    ensures Inserted(LockedAtTwo, 2, Lockable(99, false))
         == [Lockable(0, false), Lockable(1, false), Lockable(2, true), Lockable(99, false), Lockable(3, false), Lockable(4, false)]
  {
    ForwardedAt(InsertAt(LockedAtTwo, 0, Lockable(99, false)), 0, 6);
    ForwardedAt(InsertAt(LockedAtTwo, 2, Lockable(99, false)), 2, 6);
  }

  // ------------------------------------------------------------------ remove

  /**
   * The element at `p` once the right-to-left pass of `remove_respecting_locks`
   * has looked at the positions `j .. |t| - 2`. Nothing moves in a trailing run
   * of locked elements; before an unlocked element, each locked element has
   * been pushed one place right, back to where it was before the removal, and
   * the unlocked elements move left into the freed places.
   */
  function BackwardAt<T>(t: seq<Lockable<T>>, j: nat, p: nat): Lockable<T>
    requires j < |t| && p < |t|
  {
    if p < j then t[p]
    else
      var n := FreeSlot(t, p);
      if n == |t| then t[p]
      else if p > j && t[p - 1].locked then t[p - 1]
      else t[n]
  }

  /** One step of the right-to-left pass: position `j` is compared with the one after it. */
  function BackwardStep<T>(r: seq<Lockable<T>>, j: nat): (r': seq<Lockable<T>>)
    requires j + 1 < |r|
    ensures |r'| == |r|
  {
    if r[j].locked && !r[j + 1].locked then Swap(r, j, j + 1) else r
  }

  lemma BackwardStepAt<T>(t: seq<Lockable<T>>, j: nat, r: seq<Lockable<T>>)
    requires j + 1 < |t| == |r|
    requires forall p :: 0 <= p < |r| ==> r[p] == BackwardAt(t, j + 1, p)
    ensures forall p :: 0 <= p < |r| ==> BackwardStep(r, j)[p] == BackwardAt(t, j, p)
  {
    var r' := BackwardStep(r, j);
    forall p | 0 <= p < |r|
      ensures r'[p] == BackwardAt(t, j, p)
    {
      if p == j || p == j + 1 {
        assert r[j + 1] == BackwardAt(t, j + 1, j + 1);
        assert r[j] == t[j];
      } else {
        assert r[p] == BackwardAt(t, j + 1, p);
      }
    }
  }

  /** The deque once the pass has looked at the positions `j .. |t| - 2`, one step at a time. */
  function Backwarded<T>(t: seq<Lockable<T>>, j: nat): (r: seq<Lockable<T>>)
    requires j < |t|
    ensures |r| == |t|
    decreases |t| - j
  {
    if j == |t| - 1 then t else BackwardStep(Backwarded(t, j + 1), j)
  }

  /** The pass so far, position by position. */
  lemma {:induction false} BackwardedAt<T>(t: seq<Lockable<T>>, j: nat)
    requires j < |t|
    ensures forall p :: 0 <= p < |t| ==> Backwarded(t, j)[p] == BackwardAt(t, j, p)
    decreases |t| - j
  {
    if j == |t| - 1 {
      forall p | 0 <= p < |t|
        ensures t[p] == BackwardAt(t, j, p)
      {
        if p == j {
          var n := FreeSlot(t, p);
        }
      }
    } else {
      BackwardedAt(t, j + 1);
      BackwardStepAt(t, j, Backwarded(t, j + 1));
    }
  }

  /** The pass only swaps. */
  lemma {:induction false} BackwardedMultiset<T>(t: seq<Lockable<T>>, j: nat)
    requires j < |t|
    ensures multiset(Backwarded(t, j)) == multiset(t)
    decreases |t| - j
  {
    if j < |t| - 1 {
      BackwardedMultiset(t, j + 1);
      StepMultiset(Backwarded(t, j + 1), j + 1);
    }
  }

  /** Where the pass of `remove_respecting_locks(idx)` stops: at `idx`, or at the last index when `idx` was the end. */
  function PassEnd(n: nat, idx: nat): (j: nat)
    requires n > 0
    ensures j < n && (idx < n ==> j == idx)
  {
    if idx < n then idx else n - 1
  }

  /** The contents after `remove_respecting_locks(idx)` with `idx` in range. */
  function Removed<T>(s: seq<Lockable<T>>, idx: nat): (r: seq<Lockable<T>>)
    requires idx < |s|
    ensures |r| == |s| - 1
  {
    var t := RemoveAt(s, idx);
    if |t| < 2 then t else Backwarded(t, PassEnd(|t|, idx))
  }

  /** `remove_respecting_locks`: a `VecDeque::remove` followed by one right-to-left swap pass. */
  method RemoveRespectingLocks<T>(s: seq<Lockable<T>>, idx: nat)
    returns (r: seq<Lockable<T>>, removed: Option<Lockable<T>>)
    ensures idx >= |s| ==> removed == None && r == s
    ensures idx < |s| ==> removed == Some(s[idx]) && r == Removed(s, idx)
  {
    if idx >= |s| {
      return s, None;
    }
    r := RemoveAt(s, idx);
    removed := Some(s[idx]);
    if |r| < 2 {
      return;
    }
    ghost var t := r;
    var index := |r| - 1;
    while index > idx
      invariant index < |r| == |t| == |s| - 1
      invariant index >= idx || index == |r| - 1
      invariant r == Backwarded(t, index)
    {
      index := index - 1;
      if r[index].locked && !r[index + 1].locked {
        r := Swap(r, index, index + 1);
      }
    }
  }

  /** Removal drops exactly the removed element. */
  lemma RemovedMultiset<T>(s: seq<Lockable<T>>, idx: nat)
    requires idx < |s|
    ensures multiset(Removed(s, idx)) + multiset{s[idx]} == multiset(s)
  {
    var t := RemoveAt(s, idx);
    RemoveAtMultiset(s, idx);
    if |t| >= 2 {
      BackwardedMultiset(t, PassEnd(|t|, idx));
    }
  }

  /** Removal keeps the elements before `idx`. */
  lemma RemovedKeepsPrefix<T>(s: seq<Lockable<T>>, idx: nat)
    requires idx < |s|
    ensures forall k :: 0 <= k < idx ==> Removed(s, idx)[k] == s[k]
  {
    var t := RemoveAt(s, idx);
    if |t| >= 2 {
      BackwardedAt(t, PassEnd(|t|, idx));
    }
  }

  /** Every locked element after `idx` with an unlocked element somewhere after it stays in place. */
  lemma RemovedKeepsLocks<T>(s: seq<Lockable<T>>, idx: nat)
    requires idx < |s|
    ensures forall k :: idx < k < |s| && s[k].locked && FreeSlot(s, k) < |s| ==> Removed(s, idx)[k] == s[k]
  {
    var t := RemoveAt(s, idx);
    if |t| >= 2 {
      var j := PassEnd(|t|, idx);
      BackwardedAt(t, j);
      forall k | idx < k < |s| && s[k].locked && FreeSlot(s, k) < |s|
        ensures Removed(s, idx)[k] == s[k]
      {
        FreeSlotShift(s, t, k + 1);
        assert Removed(s, idx)[k] == BackwardAt(t, j, k);
      }
    }
  }

  /** A trailing run of locked elements moves one place left, closing the gap. */
  lemma RemovedShiftsTrailingLocks<T>(s: seq<Lockable<T>>, idx: nat)
    requires idx < |s|
    ensures forall k :: idx < k < |s| && FreeSlot(s, k) == |s| ==> Removed(s, idx)[k - 1] == s[k]
  {
    var t := RemoveAt(s, idx);
    if |t| >= 2 {
      var j := PassEnd(|t|, idx);
      BackwardedAt(t, j);
      forall k | idx < k < |s| && FreeSlot(s, k) == |s|
        ensures Removed(s, idx)[k - 1] == s[k]
      {
        FreeSlotShift(s, t, k);
        assert Removed(s, idx)[k - 1] == BackwardAt(t, j, k - 1);
      }
    }
  }

  /** Removing before a locked element keeps it in place (the source's first removal test). */
  lemma RemoveBeforeLockedExample()
    ensures |Removed(LockedAtTwo, 0)| == 4
    ensures Removed(LockedAtTwo, 0)[0] == Lockable(1, false) && Removed(LockedAtTwo, 0)[1] == Lockable(3, false)
    ensures Removed(LockedAtTwo, 0)[2] == Lockable(2, true) && Removed(LockedAtTwo, 0)[3] == Lockable(4, false)
  {
    var t := RemoveAt(LockedAtTwo, 0);
    assert t == [Lockable(1, false), Lockable(2, true), Lockable(3, false), Lockable(4, false)];
    assert FreeSlot(t, 3) == 3;
    assert FreeSlot(t, 2) == 2;
    assert FreeSlot(t, 1) == 2;
    assert FreeSlot(t, 0) == 0;
    var r := Removed(LockedAtTwo, 0);
    BackwardedAt(t, 0);
    assert r[0] == BackwardAt(t, 0, 0);
    assert r[1] == BackwardAt(t, 0, 1);
    assert r[2] == BackwardAt(t, 0, 2);
    assert r[3] == BackwardAt(t, 0, 3);
  }

  /** Scanning the shorter deque from `k - 1` meets the same elements as the original from `k`. */
  lemma {:induction false} FreeSlotShift<T>(s: seq<Lockable<T>>, t: seq<Lockable<T>>, k: nat)
    requires 0 < k <= |s| && |t| == |s| - 1
    requires forall q :: k - 1 <= q < |t| ==> t[q] == s[q + 1]
    ensures FreeSlot(t, k - 1) == FreeSlot(s, k) - 1
    decreases |s| - k
  {
    if k < |s| && s[k].locked {
      FreeSlotShift(s, t, k + 1);
    }
  }

  // -------------------------------------------------------------------- swap

  /**
   * `swap_respecting_locks`: the values trade places and the lock flags stay
   * with the positions.
   */
  function SwapRespectingLocks<T>(s: seq<Lockable<T>>, i: nat, j: nat): (r: seq<Lockable<T>>)
    requires i < |s| && j < |s|
    ensures |r| == |s|
    ensures forall k :: 0 <= k < |s| ==> r[k].locked == s[k].locked
    ensures r[i].value == s[j].value && r[j].value == s[i].value
    ensures forall k :: 0 <= k < |s| && k != i && k != j ==> r[k] == s[k]
  {
    var w := Swap(s, i, j);
    var lockedI := w[i].locked;
    var lockedJ := w[j].locked;
    w[i := w[i].(locked := lockedJ)][j := w[j].(locked := lockedI)]
  }

  /** Swapping the same two positions again restores the deque. */
  lemma SwapRespectingLocksInvolution<T>(s: seq<Lockable<T>>, i: nat, j: nat)
    requires i < |s| && j < |s|
    ensures SwapRespectingLocks(SwapRespectingLocks(s, i, j), i, j) == s
  {
    var r := SwapRespectingLocks(SwapRespectingLocks(s, i, j), i, j);
    assert forall k :: 0 <= k < |s| ==> r[k] == s[k];
  }
}
