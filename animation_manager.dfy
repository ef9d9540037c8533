// The bookkeeping of running animations, keyed by name: whether each is in
// progress, how many cancellations were issued for it, and how many of those
// are still pending. The manager's map is updated in place; each update is
// specified by a function on maps, and the lemmas below are about those.

module Animations {

  import Strings

  datatype AnimationState = AnimationState(inProgress: bool, cancelIdxCounter: nat, pendingCancelCount: nat)

  type Animations = map<string, AnimationState>

  /** Every pending cancellation was issued: the issued count never falls behind. */
  predicate Consistent(m: Animations)
  {
    forall k :: k in m ==> m[k].pendingCancelCount <= m[k].cancelIdxCounter
  }

  /** The map after `start`: a new key starts fresh, a known one is marked in progress. */
  function Started(m: Animations, key: string): Animations
  {
    if key !in m then m[key := AnimationState(true, 0, 0)]
    else m[key := m[key].(inProgress := true)]
  }

  /** The map after `end`: the key stops, and is dropped unless cancellations are pending. */
  function Ended(m: Animations, key: string): Animations
  {
    if key !in m then m
    else if m[key].pendingCancelCount == 0 then m - {key}
    else m[key := m[key].(inProgress := false)]
  }

  /** The map after `cancel`. */
  function Cancelled(m: Animations, key: string): Animations
  {
    if key !in m then m else m[key := m[key].(inProgress := false)]
  }

  /** The map after `init_cancel`: one more cancellation issued and pending. */
  function CancelIssued(m: Animations, key: string): Animations
  {
    if key !in m then m
    else m[key := m[key].(pendingCancelCount := m[key].pendingCancelCount + 1,
                          cancelIdxCounter := m[key].cancelIdxCounter + 1)]
  }

  /** The map after `end_cancel`: one pending cancellation fewer. */
  function CancelEnded(m: Animations, key: string): Animations
    requires key in m ==> m[key].pendingCancelCount > 0
  {
    if key !in m then m
    else m[key := m[key].(pendingCancelCount := m[key].pendingCancelCount - 1)]
  }

  class AnimationManager {
    var animations: Animations

    /** `AnimationManager::new`: no animations. */
    constructor ()
      ensures animations == map[]
    {
      animations := map[];
    }

    /** `is_cancelled`: a cancellation is pending; unknown keys are not cancelled. */
    function IsCancelled(key: string): (b: bool)
      reads this
      ensures b <==> key in animations && animations[key].pendingCancelCount > 0
    {
      if key in animations then animations[key].pendingCancelCount > 0 else false
    }

    /** `in_progress`: unknown keys are not in progress. */
    function InProgress(key: string): (b: bool)
      reads this
      ensures b <==> key in animations && animations[key].inProgress
    {
      if key in animations then animations[key].inProgress else false
    }

    /** `latest_cancel_idx`: the last index handed out by `init_cancel`, 0 for an unknown key. */
    function LatestCancelIdx(key: string): (idx: nat)
      reads this
      ensures key in animations ==> idx == animations[key].cancelIdxCounter
      ensures key !in animations ==> idx == 0
    {
      if key in animations then animations[key].cancelIdxCounter else 0
    }

    /** `init_cancel`: issues a cancellation and returns its index, 0 for an unknown key. */
    method InitCancel(key: string) returns (idx: nat)
      modifies this
      ensures animations == CancelIssued(old(animations), key)
      ensures key in animations ==> idx == animations[key].cancelIdxCounter && idx > 0
      ensures key !in animations ==> idx == 0
    {
      if key in animations {
        var state := animations[key];
        state := state.(pendingCancelCount := state.pendingCancelCount + 1);
        state := state.(cancelIdxCounter := state.cancelIdxCounter + 1);
        animations := animations[key := state];
        idx := state.cancelIdxCounter;
      } else {
        idx := 0;
      }
    }

    /** `end_cancel`; the source's unsigned count underflows when nothing is pending. */
    method EndCancel(key: string)
      requires key in animations ==> animations[key].pendingCancelCount > 0
      modifies this
      ensures animations == CancelEnded(old(animations), key)
    {
      if key in animations {
        var state := animations[key];
        animations := animations[key := state.(pendingCancelCount := state.pendingCancelCount - 1)];
      }
    }

    /** `cancel`: marks the animation as no longer in progress. */
    method Cancel(key: string)
      modifies this
      ensures animations == Cancelled(old(animations), key)
    {
      if key in animations {
        animations := animations[key := animations[key].(inProgress := false)];
      }
    }

    /** `start`. */
    method Start(key: string)
      modifies this
      ensures animations == Started(old(animations), key)
    {
      if key !in animations {
        animations := animations[key := AnimationState(true, 0, 0)];
        return;
      }
      animations := animations[key := animations[key].(inProgress := true)];
    }

    /** `end`. */
    method End(key: string)
      modifies this
      ensures animations == Ended(old(animations), key)
    {
      if key in animations {
        var state := animations[key].(inProgress := false);
        animations := animations[key := state];
        if state.pendingCancelCount == 0 {
          animations := animations - {key};
        }
      }
    }

    /** `count_in_progress`: how many keys start with the prefix's name. */
    function CountInProgress(prefix: string): (n: nat)
      reads this
      ensures n <= |animations|
    {
      var keys := set k | k in animations && Strings.IsPrefix(prefix, k);
      assert keys <= animations.Keys;
      SubsetCard(keys, animations.Keys);
      |keys|
    }

    /** `count`: the number of animations known. */
    function Count(): (n: nat)
      reads this
      ensures n == |animations.Keys|
    {
      |animations|
    }
  }

  lemma SubsetCard<T>(a: set<T>, b: set<T>)
    requires a <= b
    ensures |a| <= |b|
  {
    if a != {} {
      var x :| x in a;
      SubsetCard(a - {x}, b - {x});
    }
  }

  /** Every update keeps each pending count within the issued count. */
  lemma UpdatesStayConsistent(m: Animations, key: string)
    requires Consistent(m)
    ensures Consistent(Started(m, key)) && Consistent(Ended(m, key)) && Consistent(Cancelled(m, key))
    ensures Consistent(CancelIssued(m, key))
    ensures key in m ==> m[key].pendingCancelCount > 0 ==> Consistent(CancelEnded(m, key))
  {
  }

  /** Starting a new animation adds exactly its key, in progress with no cancellations. */
  lemma StartNew(m: Animations, key: string)
    requires key !in m
    ensures Started(m, key).Keys == m.Keys + {key}
    ensures Started(m, key)[key] == AnimationState(true, 0, 0)
    ensures |Started(m, key)| == |m| + 1
  {
  }

  /** An animation started and ended with no cancellation in between leaves no trace. */
  lemma StartThenEnd(m: Animations, key: string)
    requires key !in m
    ensures Ended(Started(m, key), key) == m
  {
    assert Ended(Started(m, key), key).Keys == m.Keys;
  }

  /**
   * Ending keeps the key exactly when cancellations are pending, and then no
   * longer in progress; other keys are untouched.
   */
  lemma EndKeepsOnlyPending(m: Animations, key: string)
    ensures key in Ended(m, key) <==> key in m && m[key].pendingCancelCount > 0
    ensures key in Ended(m, key) ==> !Ended(m, key)[key].inProgress
    ensures forall k :: k != key ==> (k in Ended(m, key) <==> k in m)
    ensures forall k :: k != key && k in m ==> Ended(m, key)[k] == m[k]
  {
  }

  /** Issuing a cancellation makes the animation cancelled until that cancellation ends. */
  lemma IssueThenEndCancel(m: Animations, key: string)
    requires key in m
    ensures key in CancelIssued(m, key) && CancelIssued(m, key)[key].pendingCancelCount > 0
    ensures CancelEnded(CancelIssued(m, key), key)[key]
      == m[key].(cancelIdxCounter := m[key].cancelIdxCounter + 1)
  {
  }

  /** Cancelling changes only whether the animation is in progress, and never the set of keys. */
  lemma CancelOnlyStops(m: Animations, key: string)
    ensures Cancelled(m, key).Keys == m.Keys
    ensures forall k :: k in m ==>
      (Cancelled(m, key)[k].cancelIdxCounter == m[k].cancelIdxCounter
       && Cancelled(m, key)[k].pendingCancelCount == m[k].pendingCancelCount
       && Cancelled(m, key)[k].inProgress == (m[k].inProgress && k != key))
  {
  }
}
