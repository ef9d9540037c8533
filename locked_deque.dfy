// `LockedDeque`: a plain deque paired with an ordered set of locked indices.
// Insertion and removal set the locked elements aside, work on the others,
// and put the locked elements back at their indices. The `BTreeSet<usize>` is
// a strictly increasing sequence of indices (its iteration order), and the
// `&mut` deque and set become values passed in and returned.

module LockedDeques {

  import opened Wrappers
  import opened LockableSequences

  /** A `BTreeSet` in iteration order: strictly increasing. */
  predicate Increasing(ls: seq<nat>)
  {
    forall a, b :: 0 <= a < b < |ls| ==> Below(ls, a, b)
  }

  /**
   * One pair of the order. `Increasing` is stated through it so that the
   * solver compares two members only when a proof names the pair.
   */
  predicate Below(ls: seq<nat>, a: nat, b: nat)
    requires a < b < |ls|
  {
    ls[a] < ls[b]
  }

  lemma Before(ls: seq<nat>, a: nat, b: nat)
    requires Increasing(ls) && a < b < |ls|
    ensures ls[a] < ls[b]
  {
    assert Below(ls, a, b);
  }

  lemma {:induction false} IncreasingGap(ls: seq<nat>, a: nat, b: nat)
    requires Increasing(ls) && a <= b < |ls|
    ensures ls[b] - ls[a] >= b - a
    decreases b - a
  {
    if a < b {
      Before(ls, a, a + 1);
      IncreasingGap(ls, a + 1, b);
    }
  }

  lemma IncreasingPrefix(ls: seq<nat>, n: nat)
    requires Increasing(ls) && n <= |ls|
    ensures Increasing(ls[..n])
  {
    forall a, b | 0 <= a < b < n
      ensures Below(ls[..n], a, b)
    {
      Before(ls, a, b);
    }
  }

  /** How many members of the set are below `x`; also the position of the first one at or above it. */
  function CountBelow(ls: seq<nat>, x: int): (c: nat)
    requires Increasing(ls)
    ensures c <= |ls|
  {
    if |ls| == 0 || ls[|ls| - 1] < x then |ls|
    else
      IncreasingPrefix(ls, |ls| - 1);
      CountBelow(ls[..|ls| - 1], x)
  }

  /** The members before the count are below `x`, the others at or above it. */
  lemma {:induction false} CountBelowSpec(ls: seq<nat>, x: int)
    requires Increasing(ls)
    ensures forall k :: 0 <= k < CountBelow(ls, x) ==> ls[k] < x
    ensures forall k :: CountBelow(ls, x) <= k < |ls| ==> ls[k] >= x
    decreases |ls|
  {
    if |ls| > 0 && ls[|ls| - 1] >= x {
      IncreasingPrefix(ls, |ls| - 1);
      CountBelowSpec(ls[..|ls| - 1], x);
    } else {
      forall k | 0 <= k < |ls| - 1
        ensures ls[k] < x
      {
        Before(ls, k, |ls| - 1);
      }
    }
  }

  lemma CountBelowUnique(ls: seq<nat>, x: int, c: nat)
    requires Increasing(ls) && c <= |ls|
    requires forall k :: 0 <= k < c ==> ls[k] < x
    requires forall k :: c <= k < |ls| ==> ls[k] >= x
    ensures CountBelow(ls, x) == c
  {
    CountBelowSpec(ls, x);
    var d := CountBelow(ls, x);
    assert d < |ls| ==> ls[d] >= x;
    assert c < |ls| ==> ls[c] >= x;
  }

  /** Passing `i` adds one to the count exactly when `i` is in the set, and then `i` sits at the old count. */
  lemma CountBelowStep(ls: seq<nat>, i: int)
    requires Increasing(ls)
    ensures CountBelow(ls, i + 1) == CountBelow(ls, i) + (if i in ls then 1 else 0)
    ensures i in ls ==> ls[CountBelow(ls, i)] == i
  {
    var c := CountBelow(ls, i);
    CountBelowSpec(ls, i);
    if i in ls {
      var k :| 0 <= k < |ls| && ls[k] == i;
      if c < k {
        Before(ls, c, k);
      }
      assert ls[c] == i;
      forall k | c + 1 <= k < |ls|
        ensures ls[k] >= i + 1
      {
        Before(ls, c, k);
      }
      CountBelowUnique(ls, i + 1, c + 1);
    } else {
      CountBelowUnique(ls, i + 1, c);
    }
  }

  /** Membership read off the count: `x` is in the set when it sits where the count points. */
  predicate At(ls: seq<nat>, x: int)
    requires Increasing(ls)
  {
    CountBelow(ls, x) < |ls| && ls[CountBelow(ls, x)] == x
  }

  lemma AtIsMember(ls: seq<nat>, x: int)
    requires Increasing(ls)
    ensures At(ls, x) <==> x in ls
  {
    CountBelowStep(ls, x);
  }

  lemma CountBelowNext(ls: seq<nat>, x: int)
    requires Increasing(ls)
    ensures CountBelow(ls, x + 1) == CountBelow(ls, x) + (if At(ls, x) then 1 else 0)
  {
    CountBelowStep(ls, x);
    AtIsMember(ls, x);
  }

  /** A member's count is its own position. */
  lemma CountBelowMember(ls: seq<nat>, q: nat)
    requires Increasing(ls) && q < |ls|
    ensures CountBelow(ls, ls[q]) == q && At(ls, ls[q])
  {
    forall k | 0 <= k < q
      ensures ls[k] < ls[q]
    {
      Before(ls, k, q);
    }
    forall k | q < k < |ls|
      ensures ls[k] >= ls[q]
    {
      Before(ls, q, k);
    }
    CountBelowUnique(ls, ls[q], q);
  }

  /** The set without `x`. */
  function Without(ls: seq<nat>, x: int): (w: seq<nat>)
    requires Increasing(ls)
    ensures Increasing(w)
  {
    CountBelowStep(ls, x);
    if x in ls then
      IncreasingRemoveAt(ls, CountBelow(ls, x));
      RemoveAt(ls, CountBelow(ls, x))
    else ls
  }

  lemma IncreasingRemoveAt(ls: seq<nat>, c: nat)
    requires Increasing(ls) && c < |ls|
    ensures Increasing(RemoveAt(ls, c))
  {
    var w := RemoveAt(ls, c);
    forall a, b | 0 <= a < b < |w|
      ensures Below(w, a, b)
    {
      Before(ls, if a < c then a else a + 1, if b < c then b else b + 1);
    }
  }

  lemma WithoutMember(ls: seq<nat>, x: int, l: int)
    requires Increasing(ls)
    ensures l in Without(ls, x) <==> l in ls && l != x
  {
    if x in ls {
      CountBelowStep(ls, x);
      var c := CountBelow(ls, x);
      var w := Without(ls, x);
      if l in w {
        var k :| 0 <= k < |w| && w[k] == l;
        if k < c {
          Before(ls, k, c);
          assert w[k] == ls[k];
        } else {
          Before(ls, c, k + 1);
          assert w[k] == ls[k + 1];
        }
      }
      if l in ls && l != x {
        var k :| 0 <= k < |ls| && ls[k] == l;
        if k < c {
          assert w[k] == l;
        } else {
          assert w[k - 1] == l;
        }
      }
    }
  }

  /** The members below `size` (popping the last member while it is at least `size`). */
  function Trim(ls: seq<nat>, size: int): (r: seq<nat>)
    requires Increasing(ls)
    ensures Increasing(r)
  {
    IncreasingPrefix(ls, CountBelow(ls, size));
    ls[..CountBelow(ls, size)]
  }

  lemma TrimMember(ls: seq<nat>, size: int)
    requires Increasing(ls)
    ensures forall l :: l in Trim(ls, size) <==> l in ls && l < size
  {
    CountBelowSpec(ls, size);
    var c := CountBelow(ls, size);
    forall l | l in ls && l < size
      ensures l in ls[..c]
    {
      var k :| 0 <= k < |ls| && ls[k] == l;
      assert k < c;
    }
  }

  /**
   * The set after removing the locked index `idx`: `split_off(&idx)`, drop
   * `idx` itself, and put the members above it back one lower.
   */
  function ShiftLocks(ls: seq<nat>, idx: nat): (r: seq<nat>)
    requires Increasing(ls) && idx in ls
    ensures Increasing(r)
    ensures |r| == |Without(ls, idx)|
  {
    var w := Without(ls, idx);
    IncreasingShift(ls, idx);
    seq(|w|, q requires 0 <= q < |w| => if w[q] > idx then w[q] - 1 else w[q])
  }

  lemma IncreasingShift(ls: seq<nat>, idx: nat)
    requires Increasing(ls)
    ensures var w := Without(ls, idx);
      Increasing(seq(|w|, q requires 0 <= q < |w| => if w[q] > idx then w[q] - 1 else w[q]))
  {
    var w := Without(ls, idx);
    var r := seq(|w|, q requires 0 <= q < |w| => if w[q] > idx then w[q] - 1 else w[q]);
    forall a, b | 0 <= a < b < |r|
      ensures Below(r, a, b)
    {
      Before(w, a, b);
      WithoutSkips(ls, idx, a);
    }
  }

  /** The lock set `remove_respecting_locks(idx)` leaves for a deque of `size` elements. */
  function LocksAfterRemove(ls: seq<nat>, idx: nat, size: nat): (r: seq<nat>)
    requires Increasing(ls)
    ensures Increasing(r)
  {
    Trim(if idx in ls then ShiftLocks(ls, idx) else ls, size - 1)
  }

  /** After the locked index `idx` is removed, `l` is locked when `l` was (below `idx`) or `l + 1` was (from `idx` up). */
  predicate ShiftedLock(ls: seq<nat>, idx: nat, l: nat)
  {
    (l < idx && l in ls) || (l >= idx && l + 1 in ls)
  }

  /**
   * Removing a locked index drops it and moves every higher lock down by
   * one; removing an unlocked index leaves the set alone. Afterwards every
   * lock is below the new length.
   */
  lemma LocksAfterRemoveSpec(ls: seq<nat>, idx: nat, size: nat)
    requires Increasing(ls) && idx < size
    ensures idx in ls ==> forall l: nat :: l in LocksAfterRemove(ls, idx, size) <==> l < size - 1 && ShiftedLock(ls, idx, l)
    ensures idx !in ls ==> forall l: nat :: l in LocksAfterRemove(ls, idx, size) <==> l < size - 1 && l in ls
  {
    if idx in ls {
      ShiftedTrimmed(ls, idx, size - 1);
    } else {
      TrimMember(ls, size - 1);
    }
  }

  lemma ShiftedTrimmed(ls: seq<nat>, idx: nat, n: nat)
    requires Increasing(ls) && idx in ls
    ensures forall l: nat :: l in Trim(ShiftLocks(ls, idx), n) <==> l < n && ShiftedLock(ls, idx, l)
  {
    TrimMember(ShiftLocks(ls, idx), n);
    forall l: nat
      ensures l in ShiftLocks(ls, idx) <==> ShiftedLock(ls, idx, l)
    {
      ShiftedMember(ls, idx, l);
    }
  }

  lemma ShiftedMember(ls: seq<nat>, idx: nat, l: nat)
    requires Increasing(ls) && idx in ls
    ensures l in ShiftLocks(ls, idx) <==> ShiftedLock(ls, idx, l)
  {
    if l in ShiftLocks(ls, idx) {
      ShiftedFrom(ls, idx, l);
    }
    if ShiftedLock(ls, idx, l) {
      ShiftedTo(ls, idx, l);
    }
  }

  lemma ShiftedFrom(ls: seq<nat>, idx: nat, l: nat)
    requires Increasing(ls) && idx in ls && l in ShiftLocks(ls, idx)
    ensures ShiftedLock(ls, idx, l)
  {
    var w := Without(ls, idx);
    var r := ShiftLocks(ls, idx);
    var q :| 0 <= q < |r| && r[q] == l;
    assert w[q] in w;
    WithoutMember(ls, idx, w[q]);
    if w[q] > idx {
      assert l + 1 == w[q] && l + 1 in ls;
    } else {
      assert l == w[q] && l < idx && l in ls;
    }
  }

  lemma ShiftedTo(ls: seq<nat>, idx: nat, l: nat)
    requires Increasing(ls) && idx in ls && ShiftedLock(ls, idx, l)
    ensures l in ShiftLocks(ls, idx)
  {
    var w := Without(ls, idx);
    var r := ShiftLocks(ls, idx);
    var m := if l < idx then l else l + 1;
    WithoutMember(ls, idx, m);
    assert m in w;
    var q :| 0 <= q < |w| && w[q] == m;
    assert r[q] == l;
  }

  // ------------------------------------------------------ setting aside

  /** The elements of `deque[..n]` that are neither at `skip` nor locked, in order. */
  function FreeUpTo<T>(deque: seq<T>, locks: seq<nat>, skip: int, n: nat): seq<T>
    requires n <= |deque|
  {
    if n == 0 then []
    else FreeUpTo(deque, locks, skip, n - 1) + (if n - 1 != skip && n - 1 !in locks then [deque[n - 1]] else [])
  }

  /** The locked elements of `deque[..n]` other than the one at `skip`, in order. */
  function LockedUpTo<T>(deque: seq<T>, locks: seq<nat>, skip: int, n: nat): seq<T>
    requires n <= |deque|
  {
    if n == 0 then []
    else LockedUpTo(deque, locks, skip, n - 1) + (if n - 1 != skip && n - 1 in locks then [deque[n - 1]] else [])
  }

  /** The set-aside locked elements are those at the locked indices, in index order. */
  lemma {:induction false} LockedUpToAt<T>(deque: seq<T>, locks: seq<nat>, skip: int, n: nat)
    requires Increasing(locks) && n <= |deque|
    ensures |LockedUpTo(deque, locks, skip, n)| == CountBelow(Without(locks, skip), n)
    ensures forall m :: 0 <= m < |LockedUpTo(deque, locks, skip, n)| ==>
      Without(locks, skip)[m] < n && LockedUpTo(deque, locks, skip, n)[m] == deque[Without(locks, skip)[m]]
    decreases n
  {
    if n > 0 {
      var i := n - 1;
      var w := Without(locks, skip);
      LockedUpToAt(deque, locks, skip, i);
      CountBelowStep(w, i);
      WithoutMember(locks, skip, i);
      var l := LockedUpTo(deque, locks, skip, i);
      if i != skip && i in locks {
        assert i in w;
        assert LockedUpTo(deque, locks, skip, n) == l + [deque[i]];
      } else {
        assert i !in w;
        assert LockedUpTo(deque, locks, skip, n) == l + [];
        assert l + [] == l;
      }
    } else {
      CountBelowUnique(Without(locks, skip), 0, 0);
    }
  }

  /** The element at `skip`, once `n` has passed it. */
  function SkippedUpTo<T>(deque: seq<T>, skip: int, n: nat): multiset<T>
    requires n <= |deque|
  {
    if 0 <= skip < n then multiset{deque[skip]} else multiset{}
  }

  /** Setting aside loses nothing but the skipped element. */
  lemma {:induction false} PartitionMultiset<T>(deque: seq<T>, locks: seq<nat>, skip: int, n: nat)
    requires n <= |deque|
    ensures multiset(FreeUpTo(deque, locks, skip, n)) + multiset(LockedUpTo(deque, locks, skip, n))
      + SkippedUpTo(deque, skip, n) == multiset(deque[..n])
    decreases n
  {
    if n > 0 {
      var i := n - 1;
      PartitionMultiset(deque, locks, skip, i);
      PartitionStep(deque, locks, skip, i);
      MultisetStep([], deque, i);
    } else {
      assert deque[..n] == [] && FreeUpTo(deque, locks, skip, n) == [] && LockedUpTo(deque, locks, skip, n) == [];
      assert SkippedUpTo(deque, skip, n) == multiset{};
    }
  }

  lemma {:induction false} PartitionLength<T>(deque: seq<T>, locks: seq<nat>, skip: int, n: nat)
    requires n <= |deque|
    ensures |FreeUpTo(deque, locks, skip, n)| + |LockedUpTo(deque, locks, skip, n)|
      + (if 0 <= skip < n then 1 else 0) == n
    decreases n
  {
    if n > 0 {
      PartitionLength(deque, locks, skip, n - 1);
    }
  }

  lemma PartitionStep<T>(deque: seq<T>, locks: seq<nat>, skip: int, i: nat)
    requires i < |deque|
    ensures multiset(FreeUpTo(deque, locks, skip, i + 1)) + multiset(LockedUpTo(deque, locks, skip, i + 1))
      + SkippedUpTo(deque, skip, i + 1)
      == multiset(FreeUpTo(deque, locks, skip, i)) + multiset(LockedUpTo(deque, locks, skip, i))
      + SkippedUpTo(deque, skip, i) + multiset{deque[i]}
  {
    var f, l := FreeUpTo(deque, locks, skip, i), LockedUpTo(deque, locks, skip, i);
    var f', l' := FreeUpTo(deque, locks, skip, i + 1), LockedUpTo(deque, locks, skip, i + 1);
    var x := multiset{deque[i]};
    if i == skip {
      assert f' == f && l' == l;
      assert SkippedUpTo(deque, skip, i + 1) == x && SkippedUpTo(deque, skip, i) == multiset{};
    } else if i in locks {
      assert f' == f && l' == l + [deque[i]];
      assert multiset(l') == multiset(l) + x;
      assert SkippedUpTo(deque, skip, i + 1) == SkippedUpTo(deque, skip, i);
    } else {
      assert f' == f + [deque[i]] && l' == l;
      assert multiset(f') == multiset(f) + x;
      assert SkippedUpTo(deque, skip, i + 1) == SkippedUpTo(deque, skip, i);
    }
  }

  // ------------------------------------------------------------------ insert

  /** The locks that hold an element of a deque of length `size`: those below it. */
  function LocksBelow(locks: seq<nat>, size: nat): (r: seq<nat>)
    requires Increasing(locks)
    ensures Increasing(r) && |r| <= |locks|
  {
    IncreasingPrefix(locks, CountBelow(locks, size));
    locks[..CountBelow(locks, size)]
  }

  /** The place of `idx` among the unlocked elements: how many unlocked elements come before it. */
  function Rank<T>(deque: seq<T>, locks: seq<nat>, idx: nat): nat
    requires idx <= |deque|
  {
    |FreeUpTo(deque, locks, -1, idx)|
  }

  /** Scanning further never sets fewer elements aside. */
  lemma {:induction false} FreeUpToGrows<T>(deque: seq<T>, locks: seq<nat>, skip: int, n: nat, n': nat)
    requires n <= n' <= |deque|
    ensures |FreeUpTo(deque, locks, skip, n)| <= |FreeUpTo(deque, locks, skip, n')|
    decreases n' - n
  {
    if n < n' {
      FreeUpToGrows(deque, locks, skip, n, n' - 1);
    }
  }

  /** Putting back into the unlocked elements with the value inserted fits the lengths and indices. */
  lemma InsertFits<T>(deque: seq<T>, locks: seq<nat>, idx: nat, value: T)
    requires Increasing(locks) && idx < |deque|
    ensures Rank(deque, locks, idx) <= |FreeUpTo(deque, locks, -1, |deque|)|
    ensures MergeFits(InsertAt(FreeUpTo(deque, locks, -1, |deque|), Rank(deque, locks, idx), value),
      LockedUpTo(deque, locks, -1, |deque|), LocksBelow(locks, |deque|), |deque| + 1)
  {
    FreeUpToGrows(deque, locks, -1, idx, |deque|);
    SetAsideAll(deque, locks);
    CountBelowSpec(locks, |deque|);
  }

  /**
   * The deque `insert_respecting_locks` produces for an index in range: each
   * lock below the length keeps its element, and the other positions take
   * the unlocked elements in order, with the value inserted among them at
   * the place of `idx`.
   */
  function InsertedKeepingLocks<T>(deque: seq<T>, locks: seq<nat>, idx: nat, value: T): (r: seq<T>)
    requires Increasing(locks) && idx < |deque|
    ensures |r| == |deque| + 1
  {
    InsertFits(deque, locks, idx, value);
    Merged(InsertAt(FreeUpTo(deque, locks, -1, |deque|), Rank(deque, locks, idx), value),
      LockedUpTo(deque, locks, -1, |deque|), LocksBelow(locks, |deque|), |deque| + 1)
  }

  /** Every locked element stays at its index. */
  lemma InsertedKeepsLocks<T>(deque: seq<T>, locks: seq<nat>, idx: nat, value: T)
    requires Increasing(locks) && idx < |deque|
    ensures forall l :: l in locks && l < |deque| ==> InsertedKeepingLocks(deque, locks, idx, value)[l] == deque[l]
  {
    InsertFits(deque, locks, idx, value);
    SetAsideAll(deque, locks);
    CountBelowSpec(locks, |deque|);
    var free := InsertAt(FreeUpTo(deque, locks, -1, |deque|), Rank(deque, locks, idx), value);
    var temp, below := LockedUpTo(deque, locks, -1, |deque|), LocksBelow(locks, |deque|);
    forall l | l in locks && l < |deque|
      ensures InsertedKeepingLocks(deque, locks, idx, value)[l] == deque[l]
    {
      var k :| 0 <= k < |locks| && locks[k] == l;
      assert below[k] == l;
      MergedAnchor(free, temp, below, |deque| + 1, k);
    }
  }

  /**
   * The other positions, in order, hold the unlocked elements with the
   * value inserted at the place of `idx`: position `x` takes the element
   * numbered by the unlocked positions before it.
   */
  lemma InsertedFillsFree<T>(deque: seq<T>, locks: seq<nat>, idx: nat, value: T)
    requires Increasing(locks) && idx < |deque|
    ensures Rank(deque, locks, idx) <= |FreeUpTo(deque, locks, -1, |deque|)|
    ensures forall x :: 0 <= x <= |deque| && x !in LocksBelow(locks, |deque|) ==>
      0 <= x - CountBelow(LocksBelow(locks, |deque|), x) <= |FreeUpTo(deque, locks, -1, |deque|)|
      && InsertedKeepingLocks(deque, locks, idx, value)[x]
        == InsertAt(FreeUpTo(deque, locks, -1, |deque|), Rank(deque, locks, idx), value)[x - CountBelow(LocksBelow(locks, |deque|), x)]
  {
    InsertFits(deque, locks, idx, value);
    SetAsideAll(deque, locks);
    var free := InsertAt(FreeUpTo(deque, locks, -1, |deque|), Rank(deque, locks, idx), value);
    var temp, below := LockedUpTo(deque, locks, -1, |deque|), LocksBelow(locks, |deque|);
    assert free + temp[|below|..] == free;
    forall x | 0 <= x <= |deque| && x !in below
      ensures 0 <= x - CountBelow(below, x) < |free|
      && InsertedKeepingLocks(deque, locks, idx, value)[x] == free[x - CountBelow(below, x)]
    {
      MergedPool(free, temp, below, |deque| + 1, x);
    }
  }

  /** The unlocked position whose rank is the place of `idx` holds the value. */
  lemma InsertedValueAt<T>(deque: seq<T>, locks: seq<nat>, idx: nat, value: T, x: nat)
    requires Increasing(locks) && idx < |deque|
    requires x <= |deque| && x !in LocksBelow(locks, |deque|)
    requires x - CountBelow(LocksBelow(locks, |deque|), x) == Rank(deque, locks, idx)
    ensures InsertedKeepingLocks(deque, locks, idx, value)[x] == value
  {
    InsertedFillsFree(deque, locks, idx, value);
  }

  /** Insertion adds the value and loses nothing. */
  lemma InsertedMultiset<T>(deque: seq<T>, locks: seq<nat>, idx: nat, value: T)
    requires Increasing(locks) && idx < |deque|
    ensures multiset(InsertedKeepingLocks(deque, locks, idx, value)) == multiset(deque) + multiset{value}
  {
    InsertFits(deque, locks, idx, value);
    SetAsideAll(deque, locks);
    var free := FreeUpTo(deque, locks, -1, |deque|);
    var temp := LockedUpTo(deque, locks, -1, |deque|);
    var inserted := InsertAt(free, Rank(deque, locks, idx), value);
    InsertAtMultiset(free, Rank(deque, locks, idx), value);
    MergedMultiset(inserted, temp, LocksBelow(locks, |deque|), |deque| + 1, InsertedKeepingLocks(deque, locks, idx, value));
  }

  /** Counting from `a` to `b` meets at most `b - a` members. */
  lemma {:induction false} CountBelowGrowth(ls: seq<nat>, a: int, b: int)
    requires Increasing(ls) && a <= b
    ensures CountBelow(ls, a) <= CountBelow(ls, b) <= CountBelow(ls, a) + (b - a)
    decreases b - a
  {
    if a < b {
      CountBelowGrowth(ls, a, b - 1);
      CountBelowStep(ls, b - 1);
    }
  }

  /** Distinct unlocked positions have distinct ranks, so the rank names one position. */
  lemma UnlockedRankUnique(ls: seq<nat>, x: nat, y: nat)
    requires Increasing(ls) && x !in ls && y !in ls
    requires x - CountBelow(ls, x) == y - CountBelow(ls, y)
    ensures x == y
  {
    if x < y {
      CountBelowStep(ls, x);
      CountBelowGrowth(ls, x + 1, y);
    } else if y < x {
      CountBelowStep(ls, y);
      CountBelowGrowth(ls, y + 1, x);
    }
  }

  /** With every index locked, nothing is left unlocked. */
  lemma {:induction false} FreeUpToAllLocked<T>(deque: seq<T>, locks: seq<nat>, n: nat)
    requires n <= |deque| && forall i :: 0 <= i < |deque| ==> i in locks
    ensures FreeUpTo(deque, locks, -1, n) == []
  {
    if n > 0 {
      FreeUpToAllLocked(deque, locks, n - 1);
    }
  }

  /** The locks below `size` are exactly the members of the set below it. */
  lemma LocksBelowMember(locks: seq<nat>, size: nat)
    requires Increasing(locks)
    ensures forall k :: 0 <= k < |LocksBelow(locks, size)| ==> LocksBelow(locks, size)[k] < size
    ensures forall x :: x in locks && x < size ==> x in LocksBelow(locks, size)
  {
    CountBelowSpec(locks, size);
    var below := LocksBelow(locks, size);
    forall x | x in locks && x < size
      ensures x in below
    {
      var k :| 0 <= k < |locks| && locks[k] == x;
      assert below[k] == x;
    }
  }

  /** With every index locked, every index is a lock below the length, and the length is not. */
  lemma AllLockedBelow<T>(deque: seq<T>, locks: seq<nat>)
    requires Increasing(locks) && forall i :: 0 <= i < |deque| ==> i in locks
    ensures forall i :: 0 <= i < |deque| ==> i in LocksBelow(locks, |deque|)
    ensures |deque| !in LocksBelow(locks, |deque|)
    ensures CountBelow(LocksBelow(locks, |deque|), |deque|) == |deque|
  {
    LocksBelowMember(locks, |deque|);
    var below := LocksBelow(locks, |deque|);
    CountBelowUnique(below, |deque|, |below|);
    AllLockedCount(deque, locks);
  }

  lemma AllLockedCount<T>(deque: seq<T>, locks: seq<nat>)
    requires Increasing(locks) && forall i :: 0 <= i < |deque| ==> i in locks
    ensures |LocksBelow(locks, |deque|)| == |deque|
  {
    SetAsideAll(deque, locks);
    FreeUpToAllLocked(deque, locks, |deque|);
  }

  /** With every index locked, insertion appends the value whatever the index. */
  lemma InsertAllLocked<T>(deque: seq<T>, locks: seq<nat>, idx: nat, value: T)
    requires Increasing(locks) && idx < |deque|
    requires forall i :: 0 <= i < |deque| ==> i in locks
    ensures InsertedKeepingLocks(deque, locks, idx, value) == deque + [value]
  {
    AllLockedKeeps(deque, locks, idx, value);
    AllLockedLast(deque, locks, idx, value);
    var r := InsertedKeepingLocks(deque, locks, idx, value);
    assert forall i :: 0 <= i < |deque| ==> r[i] == (deque + [value])[i];
  }

  lemma AllLockedKeeps<T>(deque: seq<T>, locks: seq<nat>, idx: nat, value: T)
    requires Increasing(locks) && idx < |deque|
    requires forall i :: 0 <= i < |deque| ==> i in locks
    ensures forall i :: 0 <= i < |deque| ==> InsertedKeepingLocks(deque, locks, idx, value)[i] == deque[i]
  {
    InsertedKeepsLocks(deque, locks, idx, value);
  }

  lemma AllLockedLast<T>(deque: seq<T>, locks: seq<nat>, idx: nat, value: T)
    requires Increasing(locks) && idx < |deque|
    requires forall i :: 0 <= i < |deque| ==> i in locks
    ensures InsertedKeepingLocks(deque, locks, idx, value)[|deque|] == value
  {
    FreeUpToAllLocked(deque, locks, idx);
    AllLockedBelow(deque, locks);
    InsertedValueAt(deque, locks, idx, value, |deque|);
  }

  /** With every index locked, the value's index is the old length. */
  lemma InsertAllLockedIndex<T>(deque: seq<T>, locks: seq<nat>, idx: nat, pos: nat)
    requires Increasing(locks) && idx < |deque|
    requires forall i :: 0 <= i < |deque| ==> i in locks
    requires pos <= |deque| && pos !in LocksBelow(locks, |deque|)
    ensures pos == |deque|
  {
    AllLockedBelow(deque, locks);
  }

  /**
   * `insert_respecting_locks`: appends when `idx` is the length; otherwise
   * sets the locked elements aside, inserts the value among the others at the
   * place of `idx`, and puts each locked element back at its index, moving
   * the reported position along. `VecDeque::insert` panics past the end, so
   * `idx` may not exceed the length.
   */
  method InsertRespectingLocks<T>(deque: seq<T>, locks: seq<nat>, idx: nat, value: T)
    returns (r: seq<T>, pos: nat)
    requires Increasing(locks)
    requires idx <= |deque|
    ensures |r| == |deque| + 1 && pos < |r| && r[pos] == value
    ensures forall l :: l in locks && l < |deque| ==> r[l] == deque[l]
    ensures multiset(r) == multiset(deque) + multiset{value}
    ensures idx == |deque| ==> r == deque + [value] && pos == idx
    ensures idx < |deque| ==> r == InsertedKeepingLocks(deque, locks, idx, value)
    ensures idx < |deque| ==>
      pos !in LocksBelow(locks, |deque|) && pos - CountBelow(LocksBelow(locks, |deque|), pos) == Rank(deque, locks, idx)
  {
    if idx == |deque| {
      return deque + [value], idx;
    }
    var free, temp, corrected := SetAside(deque, locks, idx);
    PutBackFits(deque, locks);
    r, pos := PutBack(free, corrected, value, temp, locks);
    InsertedSummary(deque, locks, idx, value, pos);
  }

  /** The set-aside lists meet what putting back needs, and the locks zipped with them are those below the length. */
  lemma PutBackFits<T>(deque: seq<T>, locks: seq<nat>)
    requires Increasing(locks)
    ensures var free, temp := FreeUpTo(deque, locks, -1, |deque|), LockedUpTo(deque, locks, -1, |deque|);
      && |temp| <= |locks| && |free| + |temp| == |deque|
      && (forall m :: 0 <= m < |temp| ==> locks[m] + |temp| - m <= |free| + |temp|)
      && locks[..|temp|] == LocksBelow(locks, |deque|)
  {
    SetAsideAll(deque, locks);
  }

  /** What the insertion promises, read off `InsertedKeepingLocks` and the rank of the returned index. */
  lemma InsertedSummary<T>(deque: seq<T>, locks: seq<nat>, idx: nat, value: T, pos: nat)
    requires Increasing(locks) && idx < |deque|
    requires pos <= |deque| && pos !in LocksBelow(locks, |deque|)
    requires pos - CountBelow(LocksBelow(locks, |deque|), pos) == Rank(deque, locks, idx)
    ensures var r := InsertedKeepingLocks(deque, locks, idx, value);
      && r[pos] == value
      && (forall l :: l in locks && l < |deque| ==> r[l] == deque[l])
      && multiset(r) == multiset(deque) + multiset{value}
  {
    InsertedKeepsLocks(deque, locks, idx, value);
    InsertedValueAt(deque, locks, idx, value, pos);
    InsertedMultiset(deque, locks, idx, value);
  }

  /**
   * The first half of `insert_respecting_locks`: the unlocked and the locked
   * elements in two lists, and the place `idx` has among the unlocked ones.
   */
  method SetAside<T>(deque: seq<T>, locks: seq<nat>, idx: nat) returns (free: seq<T>, temp: seq<T>, corrected: nat)
    requires idx < |deque|
    ensures free == FreeUpTo(deque, locks, -1, |deque|) && temp == LockedUpTo(deque, locks, -1, |deque|)
    ensures corrected == Rank(deque, locks, idx) && corrected <= |free|
  {
    free, temp := [], [];
    corrected := idx;
    var i := 0;
    while i < |deque|
      invariant i <= |deque|
      invariant free == FreeUpTo(deque, locks, -1, i) && temp == LockedUpTo(deque, locks, -1, i)
      invariant i <= idx ==> corrected == idx
      invariant i > idx ==> corrected == Rank(deque, locks, idx) && corrected <= |free|
    {
      if i == idx {
        corrected := |free|;
      }
      if i in locks {
        temp := temp + [deque[i]];
      } else {
        free := free + [deque[i]];
      }
      i := i + 1;
    }
  }

  /** What setting aside every locked element of `deque` leaves to put back. */
  lemma SetAsideAll<T>(deque: seq<T>, locks: seq<nat>)
    requires Increasing(locks)
    ensures |FreeUpTo(deque, locks, -1, |deque|)| + |LockedUpTo(deque, locks, -1, |deque|)| == |deque|
    ensures |LockedUpTo(deque, locks, -1, |deque|)| == CountBelow(locks, |deque|) <= |locks|
    ensures multiset(FreeUpTo(deque, locks, -1, |deque|)) + multiset(LockedUpTo(deque, locks, -1, |deque|)) == multiset(deque)
    ensures forall m :: 0 <= m < |LockedUpTo(deque, locks, -1, |deque|)| ==>
      locks[m] + |LockedUpTo(deque, locks, -1, |deque|)| - m <= |deque|
      && LockedUpTo(deque, locks, -1, |deque|)[m] == deque[locks[m]]
    ensures forall k :: 0 <= k < |locks| && locks[k] < |deque| ==> k < |LockedUpTo(deque, locks, -1, |deque|)|
  {
    var temp := LockedUpTo(deque, locks, -1, |deque|);
    LockedUpToAt(deque, locks, -1, |deque|);
    CountBelowSpec(locks, |deque|);
    PartitionMultiset(deque, locks, -1, |deque|);
    PartitionLength(deque, locks, -1, |deque|);
    assert deque[..|deque|] == deque;
    assert Without(locks, -1) == locks;
    forall m | 0 <= m < |temp|
      ensures locks[m] + |temp| - m <= |deque|
    {
      IncreasingGap(locks, m, |temp| - 1);
    }
  }

  /**
   * The second half of `insert_respecting_locks`: the value goes in at
   * `pos`, then each set-aside element at its lock index, in increasing
   * order; an insertion at or before the value moves the value along. The
   * result is the merge of the unlocked elements, with the value inserted,
   * around the locks that were zipped with a set-aside element.
   */
  method PutBack<T>(free: seq<T>, pos: nat, value: T, temp: seq<T>, locks: seq<nat>)
    returns (r: seq<T>, at: nat)
    requires Increasing(locks) && pos <= |free| && |temp| <= |locks|
    requires forall m :: 0 <= m < |temp| ==> locks[m] + |temp| - m <= |free| + |temp|
    ensures MergeFits(InsertAt(free, pos, value), temp, locks[..|temp|], |free| + 1 + |temp|)
    ensures r == Merged(InsertAt(free, pos, value), temp, locks[..|temp|], |free| + 1 + |temp|)
    ensures at < |r| && at !in locks[..|temp|] && at - CountBelow(locks[..|temp|], at) == pos
  {
    ghost var inserted := InsertAt(free, pos, value);
    r := InsertAt(free, pos, value);
    MergedNothing(inserted);
    at := pos;
    var m := 0;
    while m < |temp|
      invariant m <= |temp| && PutBackState(inserted, temp, locks, m, r, at, pos)
    {
      PutBackStep(inserted, temp, locks, m, r, at, pos);
      r := InsertAt(r, locks[m], temp[m]);
      at := if locks[m] <= at then at + 1 else at;
      m := m + 1;
    }
    assert temp[..m] == temp && |inserted| == |free| + 1;
  }

  /**
   * What the put-back loop keeps after `m` set-aside elements: the merge so
   * far, and the value at an unlocked index of rank `pos`.
   */
  ghost predicate PutBackState<T>(inserted: seq<T>, temp: seq<T>, locks: seq<nat>, m: nat, r: seq<T>, at: nat, pos: nat)
    requires m <= |temp| && m <= |locks|
  {
    && MergeFits(inserted, temp[..m], locks[..m], |inserted| + m)
    && r == Merged(inserted, temp[..m], locks[..m], |inserted| + m)
    && at < |r| && at !in locks[..m] && at - CountBelow(locks[..m], at) == pos
  }

  /** One turn of the put-back loop keeps it a merge, with the value at the same rank. */
  lemma PutBackStep<T>(inserted: seq<T>, temp: seq<T>, locks: seq<nat>, m: nat, r: seq<T>, at: nat, pos: nat)
    requires Increasing(locks) && m < |temp| <= |locks|
    requires forall k :: 0 <= k < |temp| ==> locks[k] + |temp| - k <= |inserted| - 1 + |temp|
    requires PutBackState(inserted, temp, locks, m, r, at, pos)
    ensures PutBackState(inserted, temp, locks, m + 1, InsertAt(r, locks[m], temp[m]), if locks[m] <= at then at + 1 else at, pos)
  {
    assert locks[m] + |temp| - m <= |inserted| - 1 + |temp|;
    MergeInsertStep(inserted, temp, locks, m, |inserted| + m);
    RankStep(locks, m, at, pos);
  }

  /** With nothing set aside, merging gives the unlocked elements back. */
  lemma MergedNothing<T>(free: seq<T>)
    ensures MergeFits(free, [], [], |free|) && Merged(free, [], [], |free|) == free
  {
    assert Increasing([]);
    forall x | 0 <= x < |free|
      ensures Merged(free, [], [], |free|)[x] == free[x]
    {
      assert CountBelow([], x) == 0;
    }
  }

  // ------------------------------------------------- merging lock by lock

  /** Below the next lock, adding it to the locks before it changes no count. */
  lemma CountBelowUnder(locks: seq<nat>, m: nat, x: int)
    requires Increasing(locks) && m < |locks| && x <= locks[m]
    ensures Increasing(locks[..m]) && Increasing(locks[..m + 1])
    ensures CountBelow(locks[..m + 1], x) == CountBelow(locks[..m], x)
  {
    IncreasingPrefix(locks, m);
    IncreasingPrefix(locks, m + 1);
    CountBelowSpec(locks[..m], x);
    CountBelowUnique(locks[..m + 1], x, CountBelow(locks[..m], x));
  }

  /** Past the next lock, every lock up to it is below. */
  lemma CountBelowOver(locks: seq<nat>, m: nat, x: int)
    requires Increasing(locks) && m < |locks| && x > locks[m]
    ensures Increasing(locks[..m]) && Increasing(locks[..m + 1])
    ensures CountBelow(locks[..m + 1], x) == m + 1 && CountBelow(locks[..m], x - 1) == m
    ensures forall k :: 0 <= k <= m ==> locks[k] < x
  {
    IncreasingPrefix(locks, m);
    IncreasingPrefix(locks, m + 1);
    forall k | 0 <= k < m
      ensures locks[k] < locks[m]
    {
      Before(locks, k, m);
    }
    CountBelowUnique(locks[..m + 1], x, m + 1);
    CountBelowUnique(locks[..m], x - 1, m);
  }

  lemma MergeStepBelow<T>(free: seq<T>, temp: seq<T>, locks: seq<nat>, m: nat, size: nat, x: nat)
    requires Increasing(locks) && m < |locks| && m < |temp| && x < locks[m] <= size
    requires MergeFits(free, temp[..m], locks[..m], size) && MergeFits(free, temp[..m + 1], locks[..m + 1], size + 1)
    ensures MergedAt(free, temp[..m], locks[..m], size, x) == MergedAt(free, temp[..m + 1], locks[..m + 1], size + 1, x)
  {
    CountBelowUnder(locks, m, x);
    var c := CountBelow(locks[..m], x);
    if c < m {
      assert locks[..m][c] == locks[..m + 1][c];
    }
    assert temp[..m][m..] == [] && temp[..m + 1][m + 1..] == [];
  }

  lemma MergeStepAt<T>(free: seq<T>, temp: seq<T>, locks: seq<nat>, m: nat, size: nat)
    requires Increasing(locks) && m < |locks| && m < |temp| && locks[m] <= size
    requires MergeFits(free, temp[..m + 1], locks[..m + 1], size + 1)
    ensures MergedAt(free, temp[..m + 1], locks[..m + 1], size + 1, locks[m]) == temp[m]
  {
    CountBelowMember(locks[..m + 1], m);
  }

  lemma MergeStepAbove<T>(free: seq<T>, temp: seq<T>, locks: seq<nat>, m: nat, size: nat, x: nat)
    requires Increasing(locks) && m < |locks| && m < |temp| && locks[m] < x <= size
    requires MergeFits(free, temp[..m], locks[..m], size) && MergeFits(free, temp[..m + 1], locks[..m + 1], size + 1)
    ensures MergedAt(free, temp[..m], locks[..m], size, x - 1) == MergedAt(free, temp[..m + 1], locks[..m + 1], size + 1, x)
  {
    CountBelowOver(locks, m, x);
    assert temp[..m][m..] == [] && temp[..m + 1][m + 1..] == [];
  }

  /**
   * Inserting the next set-aside element at its lock index into what has
   * been merged so far is merging with that lock added.
   */
  lemma MergeInsertStep<T>(free: seq<T>, temp: seq<T>, locks: seq<nat>, m: nat, size: nat)
    requires Increasing(locks) && m < |locks| && m < |temp| && locks[m] <= size
    requires MergeFits(free, temp[..m], locks[..m], size)
    ensures MergeFits(free, temp[..m + 1], locks[..m + 1], size + 1)
    ensures InsertAt(Merged(free, temp[..m], locks[..m], size), locks[m], temp[m])
      == Merged(free, temp[..m + 1], locks[..m + 1], size + 1)
  {
    IncreasingPrefix(locks, m + 1);
    forall q | 0 <= q < m
      ensures locks[q] < size
    {
      assert locks[..m][q] == locks[q];
    }
    var r := InsertAt(Merged(free, temp[..m], locks[..m], size), locks[m], temp[m]);
    forall x | 0 <= x < size + 1
      ensures r[x] == MergedAt(free, temp[..m + 1], locks[..m + 1], size + 1, x)
    {
      if x < locks[m] {
        MergeStepBelow(free, temp, locks, m, size, x);
      } else if x == locks[m] {
        MergeStepAt(free, temp, locks, m, size);
      } else {
        MergeStepAbove(free, temp, locks, m, size, x);
      }
    }
  }

  /**
   * The value's place moves past a lock put back at or before it, and its
   * rank among the positions that are not locks stays the same.
   */
  lemma RankStep(locks: seq<nat>, m: nat, at: nat, rank: int)
    requires Increasing(locks) && m < |locks| && Increasing(locks[..m])
    requires at !in locks[..m] && at - CountBelow(locks[..m], at) == rank
    ensures Increasing(locks[..m + 1])
    ensures var next := if locks[m] <= at then at + 1 else at;
      next !in locks[..m + 1] && next - CountBelow(locks[..m + 1], next) == rank
  {
    if locks[m] <= at {
      CountBelowOver(locks, m, at + 1);
    } else {
      CountBelowUnder(locks, m, at);
    }
  }

  // ------------------------------------------------------------------ remove

  /** What a removal yields: a panic, or the new deque, the new lock set and the removed element. */
  datatype Outcome<T> = Panic | Done(deque: seq<T>, locks: seq<nat>, removed: Option<T>)

  /** The zip of elements with target indices, each inserted in turn; `VecDeque::insert` panics past the end. */
  function InsertEach<T>(cur: seq<T>, els: seq<T>, at: seq<nat>): Option<seq<T>>
    decreases |els|
  {
    if |els| == 0 || |at| == 0 then Some(cur)
    else if at[0] > |cur| then None
    else InsertEach(InsertAt(cur, at[0], els[0]), els[1..], at[1..])
  }

  /** Every member of the new lock set stands for one set-aside locked element. */
  lemma KeptLocksFit<T>(deque: seq<T>, locks: seq<nat>, idx: nat)
    requires Increasing(locks) && idx < |deque|
    ensures |LocksAfterRemove(locks, idx, |deque|)| <= |LockedUpTo(deque, locks, idx, |deque|)|
  {
    LockedUpToAt(deque, locks, idx, |deque|);
    var w := Without(locks, idx);
    var k := |LocksAfterRemove(locks, idx, |deque|)|;
    if k > 0 {
      KeptLockAt(locks, idx, |deque|, k - 1);
      assert w[k - 1] < |deque|;
      CountBelowSpec(w, |deque|);
    }
  }

  /**
   * The `q`-th kept lock is the `q`-th member of the set without `idx`,
   * lowered by one when it sat above a removed locked `idx`.
   */
  lemma KeptLockAt(locks: seq<nat>, idx: nat, size: nat, q: nat)
    requires Increasing(locks) && idx < size && q < |LocksAfterRemove(locks, idx, size)|
    ensures q < |Without(locks, idx)| && LocksAfterRemove(locks, idx, size)[q] < size - 1
    ensures LocksAfterRemove(locks, idx, size)[q] ==
      if idx in locks && Without(locks, idx)[q] > idx then Without(locks, idx)[q] - 1 else Without(locks, idx)[q]
  {
    var s := if idx in locks then ShiftLocks(locks, idx) else locks;
    var c := CountBelow(s, size - 1);
    assert LocksAfterRemove(locks, idx, size) == s[..c];
    CountBelowSpec(s, size - 1);
    assert s[q] < size - 1;
  }

  /** The `m`-th set-aside locked element sits at the `m`-th lock other than `skip`. */
  lemma LockedAt<T>(deque: seq<T>, locks: seq<nat>, skip: int, n: nat, m: nat)
    requires Increasing(locks) && n <= |deque| && m < |LockedUpTo(deque, locks, skip, n)|
    ensures m < |Without(locks, skip)| && Without(locks, skip)[m] < n
    ensures LockedUpTo(deque, locks, skip, n)[m] == deque[Without(locks, skip)[m]]
  {
    LockedUpToAt(deque, locks, skip, n);
  }

  lemma WithoutSkips(ls: seq<nat>, x: int, q: nat)
    requires Increasing(ls) && q < |Without(ls, x)|
    ensures Without(ls, x)[q] != x
  {
    WithoutMember(ls, x, Without(ls, x)[q]);
  }

  /**
   * `remove_respecting_locks` as written: the indices of the elements whose
   * locks were trimmed off the end are computed before the kept locked
   * elements are put back, and are zipped after them.
   */
  function RemoveAsWritten<T>(deque: seq<T>, locks: seq<nat>, idx: nat): Outcome<T>
    requires Increasing(locks)
  {
    if idx >= |deque| then Done(deque, locks, None)
    else
      PutBackAsWritten(FreeUpTo(deque, locks, idx, |deque|), LockedUpTo(deque, locks, idx, |deque|),
        LocksAfterRemove(locks, idx, |deque|), deque[idx])
  }

  /**
   * The put-back step of the removal as written: the extra indices run from
   * the number of unlocked elements up to that number plus the set-aside
   * elements less the kept locks, and the zip stops at the shorter list. The
   * `usize` subtraction panics only when the kept locks outnumber the
   * unlocked and set-aside elements together; with fewer set-aside elements
   * than kept locks the range is merely empty.
   */
  function PutBackAsWritten<T>(free: seq<T>, temp: seq<T>, kept: seq<nat>, removed: T): Outcome<T>
  {
    if |free| + |temp| < |kept| then Panic
    else
      var n := if |temp| >= |kept| then |temp| - |kept| else 0;
      var extra := seq(n, k requires 0 <= k < n => |free| + k);
      match InsertEach(free, temp, kept + extra)
      case None => Panic
      case Some(r) => Done(r, kept, Some(removed))
  }

  /**
   * Where no lock is trimmed, every set-aside element has a kept lock, no
   * extra index is used, and the removal as written is the corrected one.
   */
  lemma RemoveAsWrittenAgrees<T>(deque: seq<T>, locks: seq<nat>, idx: nat)
    requires Increasing(locks) && idx < |deque|
    requires |LocksAfterRemove(locks, idx, |deque|)| == |LockedUpTo(deque, locks, idx, |deque|)|
    ensures RemoveAsWritten(deque, locks, idx)
      == Done(RemovedKeepingLocks(deque, locks, idx), LocksAfterRemove(locks, idx, |deque|), Some(deque[idx]))
  {
    RemovedFits(deque, locks, idx);
    var free, temp := FreeUpTo(deque, locks, idx, |deque|), LockedUpTo(deque, locks, idx, |deque|);
    var kept := LocksAfterRemove(locks, idx, |deque|);
    var extra := seq(0, k requires 0 <= k < 0 => |free| + k);
    assert kept + extra == kept;
    MergedByInserting(free, temp, kept);
  }

  /** With one set-aside element per lock, merging is inserting each at its lock, in order. */
  lemma MergedByInserting<T>(free: seq<T>, temp: seq<T>, kept: seq<nat>)
    requires MergeFits(free, temp, kept, |free| + |temp|) && |kept| == |temp|
    ensures InsertEach(free, temp, kept) == Some(Merged(free, temp, kept, |free| + |temp|))
  {
    MergedNothing(free);
    assert temp[..0] == [] && kept[..0] == [] && temp[0..] == temp && kept[0..] == kept;
    InsertEachMerges(free, temp, kept, 0, free);
  }

  /** Inserting the remaining set-aside elements at their locks, one by one, completes the merge. */
  lemma {:induction false} InsertEachMerges<T>(free: seq<T>, temp: seq<T>, kept: seq<nat>, m: nat, cur: seq<T>)
    requires MergeFits(free, temp, kept, |free| + |temp|) && |kept| == |temp| && m <= |temp|
    requires MergeFits(free, temp[..m], kept[..m], |free| + m)
    requires cur == Merged(free, temp[..m], kept[..m], |free| + m)
    ensures InsertEach(cur, temp[m..], kept[m..]) == Some(Merged(free, temp, kept, |free| + |temp|))
    decreases |temp| - m
  {
    if m == |temp| {
      assert temp[..m] == temp && kept[..m] == kept && temp[m..] == [];
    } else {
      IncreasingGap(kept, m, |kept| - 1);
      MergeInsertStep(free, temp, kept, m, |free| + m);
      assert temp[m..][1..] == temp[m + 1..] && kept[m..][1..] == kept[m + 1..];
      InsertEachMerges(free, temp, kept, m + 1, InsertAt(cur, kept[m], temp[m]));
    }
  }

  lemma InsertAtSplits<T>(s: seq<T>, i: nat, v: T)
    requires i <= |s|
    ensures InsertAt(s, i, v) == s[..i] + [v] + s[i..]
  {
  }

  /**
   * With locks on 2 and 4, removing index 0 trims the lock on 4 and then
   * puts element 4 at index 2, pushing the still locked element 2 to index 3.
   */
  lemma RemoveAsWrittenMisplaces()
    ensures RemoveAsWritten([0, 1, 2, 3, 4], [2, 4], 0) == Done([1, 3, 4, 2], [2], Some(0))
  {
    SetAsideOfFive();
    LocksOfFive();
    assert RemoveAsWritten([0, 1, 2, 3, 4], [2, 4], 0) == PutBackAsWritten([1, 3], [2, 4], [2], 0);
    PutBackTwiceAtTwo();
  }

  /**
   * The corrected removal on the same input keeps element 2 at its lock and
   * fills the other positions with 1, 3 and the element whose lock was trimmed.
   */
  lemma RemoveKeepingLocksOfFive()
    ensures RemovedKeepingLocks([0, 1, 2, 3, 4], [2, 4], 0) == [1, 3, 2, 4]
    ensures LocksAfterRemove([2, 4], 0, 5) == [2]
  {
    SetAsideOfFive();
    LocksOfFive();
    MergedOfFive();
  }

  lemma MergedOfFive()
    ensures MergeFits([1, 3], [2, 4], [2], 4)
    ensures Merged([1, 3], [2, 4], [2], 4) == [1, 3, 2, 4]
  {
    var r := Merged([1, 3], [2, 4], [2], 4);
    CountBelowUnique([2], 0, 0);
    CountBelowUnique([2], 1, 0);
    CountBelowUnique([2], 3, 1);
    MergedPool([1, 3], [2, 4], [2], 4, 0);
    MergedPool([1, 3], [2, 4], [2], 4, 1);
    MergedAnchor([1, 3], [2, 4], [2], 4, 0);
    MergedPool([1, 3], [2, 4], [2], 4, 3);
    assert [1, 3] + [2, 4][1..] == [1, 3, 4];
  }

  lemma SetAsideOfFive()
    ensures FreeUpTo([0, 1, 2, 3, 4], [2, 4], 0, 5) == [1, 3]
    ensures LockedUpTo([0, 1, 2, 3, 4], [2, 4], 0, 5) == [2, 4]
  {
  }

  lemma LocksOfFive()
    ensures LocksAfterRemove([2, 4], 0, 5) == [2]
  {
    assert 0 !in [2, 4];
    CountBelowUnique([2, 4], 4, 1);
  }

  lemma PutBackTwiceAtTwo()
    ensures PutBackAsWritten([1, 3], [2, 4], [2], 0) == Done([1, 3, 4, 2], [2], Some(0))
  {
    var extra := seq(1, k requires 0 <= k < 1 => 2 + k);
    assert [2] + extra == [2, 2];
    assert (if |[2, 4]| >= |[2]| then |[2, 4]| - |[2]| else 0) == 1;
    InsertTwoAtTwo();
    InsertFourAtTwo();
    assert [2, 4][1..] == [4] && [2, 2][1..] == [2];
    assert InsertEach([1, 3], [2, 4], [2, 2]) == InsertEach([1, 3, 2], [4], [2]);
  }

  lemma InsertTwoAtTwo()
    ensures InsertAt([1, 3], 2, 2) == [1, 3, 2]
  {
    InsertAtSplits([1, 3], 2, 2);
    assert [1, 3][..2] == [1, 3] && [1, 3][2..] == [];
  }

  lemma InsertFourAtTwo()
    ensures InsertAt([1, 3, 2], 2, 4) == [1, 3, 4, 2]
  {
    InsertAtSplits([1, 3, 2], 2, 4);
    assert [1, 3, 2][..2] == [1, 3] && [1, 3, 2][2..] == [2];
  }

  /** With locks on 2 and 3, removing index 0 asks to insert at index 2 of a one-element deque. */
  lemma RemoveAsWrittenPanics()
    ensures RemoveAsWritten([0, 1, 2, 3], [2, 3], 0) == Panic
  {
    SetAsideOfFour();
    LocksOfFour();
    assert RemoveAsWritten([0, 1, 2, 3], [2, 3], 0) == PutBackAsWritten([1], [2, 3], [2], 0);
    PutBackPastTheEnd();
  }

  lemma PutBackPastTheEnd()
    ensures PutBackAsWritten([1], [2, 3], [2], 0) == Panic
  {
    var extra := seq(1, k requires 0 <= k < 1 => 1 + k);
    assert [2] + extra == [2, 1];
    assert (if |[2, 3]| >= |[2]| then |[2, 3]| - |[2]| else 0) == 1;
  }

  lemma SetAsideOfFour()
    ensures FreeUpTo([0, 1, 2, 3], [2, 3], 0, 4) == [1]
    ensures LockedUpTo([0, 1, 2, 3], [2, 3], 0, 4) == [2, 3]
  {
  }

  lemma LocksOfFour()
    ensures LocksAfterRemove([2, 3], 0, 4) == [2]
  {
    assert 0 !in [2, 3];
    CountBelowUnique([2, 3], 3, 1);
  }

  /**
   * The elements that fill the unlocked positions after a removal: the
   * unlocked ones in order, then the locked ones whose locks were trimmed.
   */
  function Pool<T>(deque: seq<T>, locks: seq<nat>, idx: nat): seq<T>
    requires Increasing(locks) && idx < |deque|
  {
    KeptLocksFit(deque, locks, idx);
    FreeUpTo(deque, locks, idx, |deque|)
      + LockedUpTo(deque, locks, idx, |deque|)[|LocksAfterRemove(locks, idx, |deque|)|..]
  }

  /** What merging needs: the locks fit the positions, and there is a set-aside element for each. */
  predicate MergeFits<T>(free: seq<T>, temp: seq<T>, locks: seq<nat>, size: nat)
  {
    Increasing(locks) && |locks| <= |temp| && |free| + |temp| == size
    && forall q :: 0 <= q < |locks| ==> locks[q] < size
  }

  /**
   * The element merging puts at position `x`: at a lock, the set-aside
   * element of that lock; elsewhere the next of `free`, then of the
   * set-aside elements left over.
   */
  function MergedAt<T>(free: seq<T>, temp: seq<T>, locks: seq<nat>, size: nat, x: nat): T
    requires MergeFits(free, temp, locks, size) && x < size
  {
    if At(locks, x) then temp[CountBelow(locks, x)]
    else
      FreeRoom(locks, x, size);
      (free + temp[|locks|..])[x - CountBelow(locks, x)]
  }

  function Merged<T>(free: seq<T>, temp: seq<T>, locks: seq<nat>, size: nat): (r: seq<T>)
    requires MergeFits(free, temp, locks, size)
    ensures |r| == size
  {
    seq(size, x requires 0 <= x < size => MergedAt(free, temp, locks, size, x))
  }

  /** Each lock receives the element set aside for it. */
  lemma MergedAnchor<T>(free: seq<T>, temp: seq<T>, locks: seq<nat>, size: nat, q: nat)
    requires MergeFits(free, temp, locks, size) && q < |locks|
    ensures Merged(free, temp, locks, size)[locks[q]] == temp[q]
  {
    CountBelowMember(locks, q);
  }

  /** An unlocked position receives the pooled element numbered by the unlocked positions before it. */
  lemma MergedPool<T>(free: seq<T>, temp: seq<T>, locks: seq<nat>, size: nat, x: nat)
    requires MergeFits(free, temp, locks, size) && x < size && x !in locks
    ensures 0 <= x - CountBelow(locks, x) < |free + temp[|locks|..]|
    ensures Merged(free, temp, locks, size)[x] == (free + temp[|locks|..])[x - CountBelow(locks, x)]
  {
    AtIsMember(locks, x);
    FreeRoom(locks, x, size);
  }

  /** The first `n` merged positions hold the set-aside elements of the locks below `n` and the pooled elements for the rest. */
  lemma {:induction false} MergedPrefix<T>(free: seq<T>, temp: seq<T>, locks: seq<nat>, size: nat, n: nat)
    requires MergeFits(free, temp, locks, size) && n <= size
    ensures CountBelow(locks, n) <= n && n - CountBelow(locks, n) <= |free + temp[|locks|..]|
    ensures multiset(Merged(free, temp, locks, size)[..n])
      == multiset(temp[..CountBelow(locks, n)]) + multiset((free + temp[|locks|..])[..n - CountBelow(locks, n)])
    decreases n
  {
    var r := Merged(free, temp, locks, size);
    var pool := free + temp[|locks|..];
    if n == 0 {
      CountBelowUnique(locks, 0, 0);
      assert r[..0] == [] && temp[..0] == [] && pool[..0] == [];
    } else {
      var i := n - 1;
      MergedPrefix(free, temp, locks, size, i);
      CountBelowNext(locks, i);
      MergedPosition(free, temp, locks, size, i);
      PrefixStep(r, i, temp, CountBelow(locks, i), pool, i - CountBelow(locks, i));
    }
  }

  /** Position `x` of the merge holds the next set-aside element at a lock, and the next pooled element elsewhere. */
  lemma MergedPosition<T>(free: seq<T>, temp: seq<T>, locks: seq<nat>, size: nat, x: nat)
    requires MergeFits(free, temp, locks, size) && x < size
    ensures At(locks, x) ==> CountBelow(locks, x) < |temp| && Merged(free, temp, locks, size)[x] == temp[CountBelow(locks, x)]
    ensures !At(locks, x) ==>
              0 <= x - CountBelow(locks, x) < |free + temp[|locks|..]|
              && Merged(free, temp, locks, size)[x] == (free + temp[|locks|..])[x - CountBelow(locks, x)]
  {
    if !At(locks, x) {
      FreeRoom(locks, x, size);
    }
  }

  /** Taking position `i` of `r` from the next element of `xs` or of `ys` extends the multiset of the prefixes. */
  lemma PrefixStep<T>(r: seq<T>, i: nat, xs: seq<T>, a: nat, ys: seq<T>, b: nat)
    requires i < |r| && a <= |xs| && b <= |ys|
    requires multiset(r[..i]) == multiset(xs[..a]) + multiset(ys[..b])
    ensures a < |xs| && r[i] == xs[a] ==> multiset(r[..i + 1]) == multiset(xs[..a + 1]) + multiset(ys[..b])
    ensures b < |ys| && r[i] == ys[b] ==> multiset(r[..i + 1]) == multiset(xs[..a]) + multiset(ys[..b + 1])
  {
    MultisetStep([], r, i);
    if a < |xs| && r[i] == xs[a] {
      MultisetStep([], xs, a);
      MultisetShuffle(multiset(xs[..a]), multiset(ys[..b]), xs[a]);
    }
    if b < |ys| && r[i] == ys[b] {
      MultisetStep([], ys, b);
    }
  }

  /** Merging loses and gains nothing. */
  lemma MergedMultiset<T>(free: seq<T>, temp: seq<T>, locks: seq<nat>, size: nat, r: seq<T>)
    requires MergeFits(free, temp, locks, size) && r == Merged(free, temp, locks, size)
    ensures multiset(r) == multiset(free) + multiset(temp)
  {
    MergedPrefix(free, temp, locks, size, size);
    CountBelowUnique(locks, size, |locks|);
    assert r[..size] == r;
    var pool := free + temp[|locks|..];
    assert pool[..size - |locks|] == pool;
    assert temp[..|locks|] + temp[|locks|..] == temp;
  }

  /**
   * Fills positions `0..size` in order: a lock position takes the next
   * set-aside element, any other position the next element of `free`, then
   * of the set-aside elements left over.
   */
  method Merge<T>(free: seq<T>, temp: seq<T>, locks: seq<nat>, size: nat) returns (r: seq<T>)
    requires MergeFits(free, temp, locks, size)
    ensures r == Merged(free, temp, locks, size)
  {
    var pool := free + temp[|locks|..];
    r := [];
    CountBelowUnique(locks, 0, 0);
    var a := 0;
    var b := 0;
    while |r| < size
      invariant |r| <= size
      invariant a == CountBelow(locks, |r|) && b == |r| - a
      invariant forall x :: 0 <= x < |r| ==> r[x] == MergedAt(free, temp, locks, size, x)
    {
      CountBelowNext(locks, |r|);
      if a < |locks| && locks[a] == |r| {
        r := r + [temp[a]];
        a := a + 1;
      } else {
        FreeRoom(locks, |r|, size);
        r := r + [pool[b]];
        b := b + 1;
      }
    }
  }

  /**
   * The deque the removal evidently intends: every kept lock holds the
   * element locked there before (one index higher when it sat above a
   * removed locked index), the other positions take `Pool` in order.
   */
  function RemovedKeepingLocks<T>(deque: seq<T>, locks: seq<nat>, idx: nat): (r: seq<T>)
    requires Increasing(locks) && idx < |deque|
    ensures |r| == |deque| - 1
  {
    RemovedFits(deque, locks, idx);
    Merged(FreeUpTo(deque, locks, idx, |deque|), LockedUpTo(deque, locks, idx, |deque|),
      LocksAfterRemove(locks, idx, |deque|), |deque| - 1)
  }

  /** Removal takes out exactly the element at `idx`. */
  lemma RemovedMultiset<T>(deque: seq<T>, locks: seq<nat>, idx: nat)
    requires Increasing(locks) && idx < |deque|
    ensures multiset(RemovedKeepingLocks(deque, locks, idx)) + multiset{deque[idx]} == multiset(deque)
  {
    RemovedFits(deque, locks, idx);
    var free, temp := FreeUpTo(deque, locks, idx, |deque|), LockedUpTo(deque, locks, idx, |deque|);
    var kept := LocksAfterRemove(locks, idx, |deque|);
    var r := RemovedKeepingLocks(deque, locks, idx);
    MergedMultiset(free, temp, kept, |deque| - 1, r);
    RemovedSetAside(deque, locks, idx);
    MultisetTake(multiset(r), multiset(free), multiset(temp), multiset(deque), deque[idx]);
  }

  lemma RemovedFits<T>(deque: seq<T>, locks: seq<nat>, idx: nat)
    requires Increasing(locks) && idx < |deque|
    ensures MergeFits(FreeUpTo(deque, locks, idx, |deque|), LockedUpTo(deque, locks, idx, |deque|),
      LocksAfterRemove(locks, idx, |deque|), |deque| - 1)
  {
    PartitionLength(deque, locks, idx, |deque|);
    KeptLocksFit(deque, locks, idx);
    forall q | 0 <= q < |LocksAfterRemove(locks, idx, |deque|)|
      ensures LocksAfterRemove(locks, idx, |deque|)[q] < |deque| - 1
    {
      KeptLockAt(locks, idx, |deque|, q);
    }
  }

  /** Every kept lock is below the new length and still holds the element locked there. */
  lemma RemovedKeepsLocks<T>(deque: seq<T>, locks: seq<nat>, idx: nat)
    requires Increasing(locks) && idx < |deque|
    ensures forall l :: l in LocksAfterRemove(locks, idx, |deque|) ==>
      l < |deque| - 1 && RemovedKeepingLocks(deque, locks, idx)[l] == deque[if idx in locks && l >= idx then l + 1 else l]
  {
    var kept := LocksAfterRemove(locks, idx, |deque|);
    RemovedFits(deque, locks, idx);
    forall l | l in kept
      ensures l < |deque| - 1 && RemovedKeepingLocks(deque, locks, idx)[l] == deque[if idx in locks && l >= idx then l + 1 else l]
    {
      var q :| 0 <= q < |kept| && kept[q] == l;
      RemovedKeepsLockAt(deque, locks, idx, q);
    }
  }

  /** The `q`-th kept lock holds the element locked there before. */
  lemma RemovedKeepsLockAt<T>(deque: seq<T>, locks: seq<nat>, idx: nat, q: nat)
    requires Increasing(locks) && idx < |deque| && q < |LocksAfterRemove(locks, idx, |deque|)|
    ensures var l := LocksAfterRemove(locks, idx, |deque|)[q];
      l < |deque| - 1 && RemovedKeepingLocks(deque, locks, idx)[l] == deque[if idx in locks && l >= idx then l + 1 else l]
  {
    RemovedFits(deque, locks, idx);
    RemovedAnchorAt(deque, locks, idx, q);
    MergedAnchor(FreeUpTo(deque, locks, idx, |deque|), LockedUpTo(deque, locks, idx, |deque|),
      LocksAfterRemove(locks, idx, |deque|), |deque| - 1, q);
  }

  lemma RemovedAnchorAt<T>(deque: seq<T>, locks: seq<nat>, idx: nat, q: nat)
    requires Increasing(locks) && idx < |deque|
    requires q < |LocksAfterRemove(locks, idx, |deque|)|
    ensures q < |LockedUpTo(deque, locks, idx, |deque|)| && LocksAfterRemove(locks, idx, |deque|)[q] < |deque| - 1
    ensures var l := LocksAfterRemove(locks, idx, |deque|)[q];
      LockedUpTo(deque, locks, idx, |deque|)[q] == deque[if idx in locks && l >= idx then l + 1 else l]
  {
    KeptLocksFit(deque, locks, idx);
    var l, w := LocksAfterRemove(locks, idx, |deque|)[q], Without(locks, idx);
    KeptLockAt(locks, idx, |deque|, q);
    LockedAt(deque, locks, idx, |deque|, q);
    WithoutSkips(locks, idx, q);
    ShiftBack(idx in locks, idx, w[q], l);
    assert LockedUpTo(deque, locks, idx, |deque|)[q] == deque[w[q]];
  }

  /** Moving an index other than `idx` down past `idx`, and back up. */
  lemma ShiftBack(shifted: bool, idx: nat, w: nat, l: nat)
    requires w != idx && l == (if shifted && w > idx then w - 1 else w)
    ensures w == (if shifted && l >= idx then l + 1 else l)
  {
  }

  /** The other positions take the pooled elements in order. */
  lemma RemovedFillsPool<T>(deque: seq<T>, locks: seq<nat>, idx: nat)
    requires Increasing(locks) && idx < |deque|
    ensures forall x :: 0 <= x < |deque| - 1 && x !in LocksAfterRemove(locks, idx, |deque|) ==>
      0 <= x - CountBelow(LocksAfterRemove(locks, idx, |deque|), x) < |Pool(deque, locks, idx)|
      && RemovedKeepingLocks(deque, locks, idx)[x] == Pool(deque, locks, idx)[x - CountBelow(LocksAfterRemove(locks, idx, |deque|), x)]
  {
    RemovedFits(deque, locks, idx);
    var free, temp := FreeUpTo(deque, locks, idx, |deque|), LockedUpTo(deque, locks, idx, |deque|);
    var kept := LocksAfterRemove(locks, idx, |deque|);
    assert Pool(deque, locks, idx) == free + temp[|kept|..];
    forall x | 0 <= x < |deque| - 1 && x !in kept
      ensures 0 <= x - CountBelow(kept, x) < |free + temp[|kept|..]|
      && RemovedKeepingLocks(deque, locks, idx)[x] == (free + temp[|kept|..])[x - CountBelow(kept, x)]
    {
      MergedPool(free, temp, kept, |deque| - 1, x);
    }
  }

  /**
   * `remove_respecting_locks`, with the placement corrected: nothing changes
   * when `idx` is out of range; otherwise the element at `idx` comes out and
   * the rest is merged around the kept locks.
   */
  method RemoveRespectingLocks<T>(deque: seq<T>, locks: seq<nat>, idx: nat)
    returns (r: seq<T>, newLocks: seq<nat>, removed: Option<T>)
    requires Increasing(locks)
    ensures idx >= |deque| ==> r == deque && newLocks == locks && removed == None
    ensures idx < |deque| ==> removed == Some(deque[idx]) && newLocks == LocksAfterRemove(locks, idx, |deque|)
    ensures idx < |deque| ==> r == RemovedKeepingLocks(deque, locks, idx)
  {
    if idx >= |deque| {
      return deque, locks, None;
    }
    var free, temp, removedLocked;
    free, temp, removed, removedLocked := SetAsideRemoving(deque, locks, idx);
    var shifted := if removedLocked then ShiftLocks(locks, idx) else locks;
    newLocks := TrimLocks(shifted, |deque| - 1);
    RemovedFits(deque, locks, idx);
    r := Merge(free, temp, newLocks, |deque| - 1);
  }

  /** The first loop of `remove_respecting_locks`: the element at `idx` is taken out, the others set aside. */
  method SetAsideRemoving<T>(deque: seq<T>, locks: seq<nat>, idx: nat)
    returns (free: seq<T>, temp: seq<T>, removed: Option<T>, removedLocked: bool)
    requires idx < |deque|
    ensures free == FreeUpTo(deque, locks, idx, |deque|) && temp == LockedUpTo(deque, locks, idx, |deque|)
    ensures removed == Some(deque[idx]) && removedLocked == (idx in locks)
  {
    free, temp := [], [];
    removed, removedLocked := None, false;
    var i := 0;
    while i < |deque|
      invariant i <= |deque|
      invariant free == FreeUpTo(deque, locks, idx, i) && temp == LockedUpTo(deque, locks, idx, i)
      invariant removed == if i > idx then Some(deque[idx]) else None
      invariant removedLocked == (i > idx && idx in locks)
    {
      if i == idx {
        removed := Some(deque[i]);
        removedLocked := i in locks;
      } else if i in locks {
        temp := temp + [deque[i]];
      } else {
        free := free + [deque[i]];
      }
      i := i + 1;
    }
  }

  /** Pops the last lock while it is not below `size`. */
  method TrimLocks(shifted: seq<nat>, size: nat) returns (newLocks: seq<nat>)
    requires Increasing(shifted)
    ensures newLocks == Trim(shifted, size)
  {
    newLocks := shifted;
    CountBelowSpec(shifted, size);
    while |newLocks| > 0 && newLocks[|newLocks| - 1] >= size
      invariant |newLocks| <= |shifted| && newLocks == shifted[..|newLocks|]
      invariant CountBelow(shifted, size) <= |newLocks|
    {
      newLocks := newLocks[..|newLocks| - 1];
    }
    CountBelowUnique(shifted, size, |newLocks|);
  }

  /** What setting aside around the removed `idx` leaves to merge. */
  lemma RemovedSetAside<T>(deque: seq<T>, locks: seq<nat>, idx: nat)
    requires Increasing(locks) && idx < |deque|
    ensures |FreeUpTo(deque, locks, idx, |deque|)| + |LockedUpTo(deque, locks, idx, |deque|)| == |deque| - 1
    ensures multiset(FreeUpTo(deque, locks, idx, |deque|)) + multiset(LockedUpTo(deque, locks, idx, |deque|))
      + multiset{deque[idx]} == multiset(deque)
  {
    PartitionMultiset(deque, locks, idx, |deque|);
    PartitionLength(deque, locks, idx, |deque|);
    assert deque[..|deque|] == deque;
  }

  lemma MultisetTake<T>(r: multiset<T>, a: multiset<T>, b: multiset<T>, all: multiset<T>, x: T)
    requires r == a + b && a + b + multiset{x} == all
    ensures r + multiset{x} == all
  {
  }

  lemma MultisetShuffle<T>(a: multiset<T>, b: multiset<T>, x: T)
    ensures a + b + multiset{x} == (a + multiset{x}) + b
  {
  }

  /** Appending the next element of `s` to `r` adds it to the multiset of the prefix taken so far. */
  lemma MultisetStep<T>(r: seq<T>, s: seq<T>, n: nat)
    requires n < |s|
    ensures multiset(r + [s[n]]) == multiset(r) + multiset{s[n]}
    ensures multiset(s[..n + 1]) == multiset(s[..n]) + multiset{s[n]}
  {
    assert s[..n + 1] == s[..n] + [s[n]];
  }

  /** An unlocked position below `size` always finds an element left to place there. */
  lemma FreeRoom(ls: seq<nat>, p: nat, size: nat)
    requires Increasing(ls) && p < size && !At(ls, p)
    requires forall q :: 0 <= q < |ls| ==> ls[q] < size
    ensures 0 <= p - CountBelow(ls, p) < size - |ls|
  {
    var c := CountBelow(ls, p);
    CountBelowSpec(ls, p);
    if c > 0 {
      IncreasingGap(ls, 0, c - 1);
    }
    if c < |ls| {
      IncreasingGap(ls, c, |ls| - 1);
    }
  }

  // ------------------------------------------------------------ the source's tests

  /** Inserting 99 at index 0 with index 2 locked gives 99, 0, 2, 1, 3, 4. */
  lemma InsertBeforeLockExample()
    ensures InsertedKeepingLocks([0, 1, 2, 3, 4], [2], 0, 99) == [99, 0, 2, 1, 3, 4]
  {
    OneLockOfFive();
    assert Rank([0, 1, 2, 3, 4], [2], 0) == 0;
    assert InsertAt([0, 1, 3, 4], 0, 99) == [99, 0, 1, 3, 4];
    MergedByInserting([99, 0, 1, 3, 4], [2], [2]);
    assert InsertAt([99, 0, 1, 3, 4], 2, 2) == [99, 0, 2, 1, 3, 4];
  }

  /** Inserting 99 at the locked index 2 gives 0, 1, 2, 99, 3, 4. */
  lemma InsertAtLockExample()
    ensures InsertedKeepingLocks([0, 1, 2, 3, 4], [2], 2, 99) == [0, 1, 2, 99, 3, 4]
  {
    OneLockOfFive();
    assert Rank([0, 1, 2, 3, 4], [2], 2) == 2;
    assert InsertAt([0, 1, 3, 4], 2, 99) == [0, 1, 99, 3, 4];
    MergedByInserting([0, 1, 99, 3, 4], [2], [2]);
    assert InsertAt([0, 1, 99, 3, 4], 2, 2) == [0, 1, 2, 99, 3, 4];
  }

  /** Inserting at the locked index 2 reports index 3: the only unlocked position of rank 2. */
  lemma InsertAtLockIndex(pos: nat)
    requires pos <= 5 && pos !in LocksBelow([2], 5)
    requires pos - CountBelow(LocksBelow([2], 5), pos) == Rank([0, 1, 2, 3, 4], [2], 2)
    ensures pos == 3
  {
    OneLockOfFive();
    assert Rank([0, 1, 2, 3, 4], [2], 2) == 2;
    CountBelowUnique([2], 3, 1);
    UnlockedRankUnique([2], pos, 3);
  }

  lemma OneLockOfFive()
    ensures FreeUpTo([0, 1, 2, 3, 4], [2], -1, 5) == [0, 1, 3, 4]
    ensures LockedUpTo([0, 1, 2, 3, 4], [2], -1, 5) == [2]
    ensures LocksBelow([2], 5) == [2]
  {
    CountBelowUnique([2], 5, 1);
  }

  /** Inserting 99 at index 0 with indices 1 and 3 locked gives 99, 1, 0, 3, 2, 4. */
  lemma InsertBeforeTwoLocksExample()
    ensures InsertedKeepingLocks([0, 1, 2, 3, 4], [1, 3], 0, 99) == [99, 1, 0, 3, 2, 4]
  {
    SetAsideAroundOneAndThree();
    MergedByInserting([99, 0, 2, 4], [1, 3], [1, 3]);
    InsertsAtOneAndThree();
  }

  lemma SetAsideAroundOneAndThree()
    ensures FreeUpTo([0, 1, 2, 3, 4], [1, 3], -1, 5) == [0, 2, 4]
    ensures LockedUpTo([0, 1, 2, 3, 4], [1, 3], -1, 5) == [1, 3]
    ensures LocksBelow([1, 3], 5) == [1, 3] && Rank([0, 1, 2, 3, 4], [1, 3], 0) == 0
    ensures InsertAt([0, 2, 4], 0, 99) == [99, 0, 2, 4]
  {
    CountBelowUnique([1, 3], 5, 2);
  }

  lemma InsertsAtOneAndThree()
    ensures InsertEach([99, 0, 2, 4], [1, 3], [1, 3]) == Some([99, 1, 0, 3, 2, 4])
  {
    assert InsertAt([99, 0, 2, 4], 1, 1) == [99, 1, 0, 2, 4];
    assert InsertAt([99, 1, 0, 2, 4], 3, 3) == [99, 1, 0, 3, 2, 4];
    assert [1, 3][1..] == [3];
  }

  /** With every index locked, inserting 99 at index 2 appends it, at index 5. */
  lemma InsertAllLockedExample()
    ensures InsertedKeepingLocks([0, 1, 2, 3, 4], [0, 1, 2, 3, 4], 2, 99) == [0, 1, 2, 3, 4, 99]
  {
    var all: seq<int>, locks: seq<nat> := [0, 1, 2, 3, 4], [0, 1, 2, 3, 4];
    AllFiveLocked();
    InsertAllLocked(all, locks, 2, 99);
    assert all + [99] == [0, 1, 2, 3, 4, 99];
  }

  /** That insertion reports index 5. */
  lemma InsertAllLockedExampleIndex(pos: nat)
    requires pos <= 5 && pos !in LocksBelow([0, 1, 2, 3, 4], 5)
    ensures pos == 5
  {
    AllFiveLocked();
    InsertAllLockedIndex([0, 1, 2, 3, 4], [0, 1, 2, 3, 4], 2, pos);
  }

  lemma AllFiveLocked()
    ensures Increasing([0, 1, 2, 3, 4])
    ensures forall i :: 0 <= i < 5 ==> i in [0, 1, 2, 3, 4]
  {
  }

  /** Inserting 99 at index 1 with indices 2 and 3 locked gives 0, 99, 2, 3, 1, 4. */
  lemma InsertBeforeConsecutiveLocksExample()
    ensures InsertedKeepingLocks([0, 1, 2, 3, 4], [2, 3], 1, 99) == [0, 99, 2, 3, 1, 4]
  {
    SetAsideAroundTwoAndThree();
    MergedByInserting([0, 99, 1, 4], [2, 3], [2, 3]);
    InsertsAtTwoAndThree();
  }

  lemma SetAsideAroundTwoAndThree()
    ensures FreeUpTo([0, 1, 2, 3, 4], [2, 3], -1, 5) == [0, 1, 4]
    ensures LockedUpTo([0, 1, 2, 3, 4], [2, 3], -1, 5) == [2, 3]
    ensures LocksBelow([2, 3], 5) == [2, 3] && Rank([0, 1, 2, 3, 4], [2, 3], 1) == 1
    ensures InsertAt([0, 1, 4], 1, 99) == [0, 99, 1, 4]
  {
    CountBelowUnique([2, 3], 5, 2);
  }

  lemma InsertsAtTwoAndThree()
    ensures InsertEach([0, 99, 1, 4], [2, 3], [2, 3]) == Some([0, 99, 2, 3, 1, 4])
  {
    assert InsertAt([0, 99, 1, 4], 2, 2) == [0, 99, 2, 1, 4];
    assert InsertAt([0, 99, 2, 1, 4], 3, 3) == [0, 99, 2, 3, 1, 4];
    assert [2, 3][1..] == [3];
  }

  /**
   * Removing index 1 with indices 2 and 4 locked gives 0, 3, 2, 5, 4 and
   * keeps both locks; no lock is trimmed, so the removal as written agrees.
   */
  lemma RemoveBeforeTwoLocksExample()
    ensures LocksAfterRemove([2, 4], 1, 6) == [2, 4]
    ensures RemovedKeepingLocks([0, 1, 2, 3, 4, 5], [2, 4], 1) == [0, 3, 2, 5, 4]
    ensures RemoveAsWritten([0, 1, 2, 3, 4, 5], [2, 4], 1) == Done([0, 3, 2, 5, 4], [2, 4], Some(1))
  {
    SetAsideRemovingOne();
    RemovedFits([0, 1, 2, 3, 4, 5], [2, 4], 1);
    MergedByInserting([0, 3, 5], [2, 4], [2, 4]);
    InsertsAtTwoAndFour();
    RemoveAsWrittenAgrees([0, 1, 2, 3, 4, 5], [2, 4], 1);
  }

  lemma SetAsideRemovingOne()
    ensures LocksAfterRemove([2, 4], 1, 6) == [2, 4]
    ensures FreeUpTo([0, 1, 2, 3, 4, 5], [2, 4], 1, 6) == [0, 3, 5]
    ensures LockedUpTo([0, 1, 2, 3, 4, 5], [2, 4], 1, 6) == [2, 4]
  {
    assert 1 !in [2, 4];
    CountBelowUnique([2, 4], 5, 2);
  }

  lemma InsertsAtTwoAndFour()
    ensures InsertEach([0, 3, 5], [2, 4], [2, 4]) == Some([0, 3, 2, 5, 4])
  {
    assert InsertAt([0, 3, 5], 2, 2) == [0, 3, 2, 5];
    assert InsertAt([0, 3, 2, 5], 4, 4) == [0, 3, 2, 5, 4];
    assert [2, 4][1..] == [4];
  }
}
