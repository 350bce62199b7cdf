/**
 * The value-level algebra of a grow-only counter: the current vector clock a
 * replica reads, the pointwise maximum that merge stores, and what these do
 * to the counter's value.
 */
module VectorClock {
  import opened MapSum

  /** `kotlin.math.max` on two counts. */
  function Max(a: int, b: int): (r: int)
    ensures r >= a && r >= b
    ensures r == a || r == b
  {
    if a >= b then a else b
  }

  /**
   * The current vector clock (`getCurrentVectorClock`): the stored view with
   * this replica's own entry overwritten by its local count.
   */
  function CurrentClock<R>(stale: map<R, int>, replicaId: R, replicaValue: int): (clock: map<R, int>)
  {
    stale[replicaId := replicaValue]
  }

  /**
   * The counter's `value`: the sum of its current clock. When no other
   * replica's stored entry is negative, it is at least the local count.
   */
  ghost function ClockValue<R>(stale: map<R, int>, replicaId: R, replicaValue: int): (v: int)
    ensures (forall r :: r in stale && r != replicaId ==> stale[r] >= 0) ==> v >= replicaValue
  {
    var clock := CurrentClock(stale, replicaId, replicaValue);
    SumSplit(clock, replicaId);
    assert clock - {replicaId} == stale - {replicaId};
    Sum(clock)
  }

  /**
   * The view a successful merge stores: over the union of both clocks' keys,
   * the larger of the two entries, a missing entry read as 0.
   */
  function PointwiseMax<R>(a: map<R, int>, b: map<R, int>): (m: map<R, int>)
    ensures m.Keys == a.Keys + b.Keys
  {
    map k | k in a.Keys + b.Keys :: Max(Get(a, k), Get(b, k))
  }

  /** `clock` knows no more of replica `r` than `r`'s own local count `v`. */
  ghost predicate Authoritative<R>(clock: map<R, int>, r: R, v: int)
  {
    Get(clock, r) <= v
  }

  // ---------------------------------------------------------------------------
  // Reading the counter

  /** The stored own entry never counts: the value is the local count plus the other stored entries. */
  lemma ValueIgnoresOwnStaleEntry<R>(stale: map<R, int>, replicaId: R, replicaValue: int)
    ensures ClockValue(stale, replicaId, replicaValue) == replicaValue + Sum(stale - {replicaId})
  {
    var c := CurrentClock(stale, replicaId, replicaValue);
    SumSplit(c, replicaId);
    assert c - {replicaId} == stale - {replicaId};
  }

  /** A new counter, whose stored view is empty, reads its initial value. */
  lemma NewCounterValue<R>(replicaId: R, initialValue: int)
    ensures ClockValue(map[], replicaId, initialValue) == initialValue
  {
    ValueIgnoresOwnStaleEntry(map[], replicaId, initialValue);
  }

  /** Adding `delta` to the local count adds exactly `delta` to the value. */
  lemma IncAddsDelta<R>(stale: map<R, int>, replicaId: R, replicaValue: int, delta: int)
    ensures ClockValue(stale, replicaId, replicaValue + delta)
         == ClockValue(stale, replicaId, replicaValue) + delta
  {
    var others := Sum(stale - {replicaId});
    assert ClockValue(stale, replicaId, replicaValue) == replicaValue + others by {
      ValueIgnoresOwnStaleEntry(stale, replicaId, replicaValue);
    }
    assert ClockValue(stale, replicaId, replicaValue + delta) == replicaValue + delta + others by {
      ValueIgnoresOwnStaleEntry(stale, replicaId, replicaValue + delta);
    }
  }

  // ---------------------------------------------------------------------------
  // The pointwise maximum is a join

  /** The merged view covers both clocks' keys and bounds both from above. */
  lemma PointwiseMaxUpperBound<R>(a: map<R, int>, b: map<R, int>)
    ensures PointwiseMax(a, b).Keys == a.Keys + b.Keys
    ensures Below(a, PointwiseMax(a, b)) && Below(b, PointwiseMax(a, b))
  {
  }

  /** Every clock above both `a` and `b` is above their pointwise maximum. */
  lemma PointwiseMaxLeast<R>(a: map<R, int>, b: map<R, int>, c: map<R, int>)
    requires Below(a, c) && Below(b, c)
    ensures Below(PointwiseMax(a, b), c)
  {
    var m := PointwiseMax(a, b);
    forall k | k in m.Keys + c.Keys
      ensures Get(m, k) <= Get(c, k)
    {
      if k in m {
        assert Get(a, k) <= Get(c, k) && Get(b, k) <= Get(c, k);
      }
    }
  }

  lemma PointwiseMaxCommutative<R>(a: map<R, int>, b: map<R, int>)
    ensures PointwiseMax(a, b) == PointwiseMax(b, a)
  {
  }

  lemma PointwiseMaxAssociative<R>(a: map<R, int>, b: map<R, int>, c: map<R, int>)
    ensures PointwiseMax(PointwiseMax(a, b), c) == PointwiseMax(a, PointwiseMax(b, c))
  {
  }

  lemma PointwiseMaxIdempotent<R>(a: map<R, int>)
    ensures PointwiseMax(a, a) == a
  {
  }

  // ---------------------------------------------------------------------------
  // What a successful merge does to the value

  /**
   * A merge never lowers an entry of the current clock, so the value after it
   * is at least the value before it.
   */
  lemma MergeMonotone<R>(stale: map<R, int>, replicaId: R, replicaValue: int, otherClock: map<R, int>)
    ensures var merged := PointwiseMax(CurrentClock(stale, replicaId, replicaValue), otherClock);
      && Below(CurrentClock(stale, replicaId, replicaValue), CurrentClock(merged, replicaId, replicaValue))
      && ClockValue(merged, replicaId, replicaValue) >= ClockValue(stale, replicaId, replicaValue)
  {
    var before := CurrentClock(stale, replicaId, replicaValue);
    var merged := PointwiseMax(before, otherClock);
    var after := CurrentClock(merged, replicaId, replicaValue);
    forall k | k in before.Keys + after.Keys
      ensures Get(before, k) <= Get(after, k)
    {
    }
    SumMonotone(before, after);
  }

  /**
   * When this replica is the authority on its own entry, the clock after the
   * merge is above the other replica's clock, so the value is at least the
   * other replica's value.
   */
  lemma MergeCoversOther<R>(stale: map<R, int>, replicaId: R, replicaValue: int, otherClock: map<R, int>)
    requires Authoritative(otherClock, replicaId, replicaValue)
    ensures var merged := PointwiseMax(CurrentClock(stale, replicaId, replicaValue), otherClock);
      && Below(otherClock, CurrentClock(merged, replicaId, replicaValue))
      && ClockValue(merged, replicaId, replicaValue) >= Sum(otherClock)
  {
    var merged := PointwiseMax(CurrentClock(stale, replicaId, replicaValue), otherClock);
    var after := CurrentClock(merged, replicaId, replicaValue);
    forall k | k in otherClock.Keys + after.Keys
      ensures Get(otherClock, k) <= Get(after, k)
    {
    }
    SumMonotone(otherClock, after);
  }

  /**
   * Merging a replica that was never incremented (its clock is just its own
   * id at 0) leaves the value unchanged, provided no stored entry of another
   * replica is negative.
   */
  lemma MergeUnusedReplicaKeepsValue<R>(stale: map<R, int>, replicaId: R, replicaValue: int, otherId: R)
    requires forall r :: r in stale && r != replicaId ==> stale[r] >= 0
    ensures var merged := PointwiseMax(CurrentClock(stale, replicaId, replicaValue), CurrentClock(map[], otherId, 0));
      ClockValue(merged, replicaId, replicaValue) == ClockValue(stale, replicaId, replicaValue)
  {
    var before := CurrentClock(stale, replicaId, replicaValue);
    var merged := PointwiseMax(before, CurrentClock(map[], otherId, 0));
    var after := CurrentClock(merged, replicaId, replicaValue);
    forall k | k in before.Keys + after.Keys
      ensures Get(before, k) == Get(after, k)
    {
    }
    SumAgree(before, after);
  }

  /** Merging the same clock a second time stores exactly the same view. */
  lemma MergeIdempotent<R>(stale: map<R, int>, replicaId: R, replicaValue: int, otherClock: map<R, int>)
    ensures var once := PointwiseMax(CurrentClock(stale, replicaId, replicaValue), otherClock);
      PointwiseMax(CurrentClock(once, replicaId, replicaValue), otherClock) == once
  {
    var once := PointwiseMax(CurrentClock(stale, replicaId, replicaValue), otherClock);
    var twice := PointwiseMax(CurrentClock(once, replicaId, replicaValue), otherClock);
    assert twice.Keys == once.Keys;
    forall k | k in once
      ensures twice[k] == once[k]
    {
    }
  }

  /**
   * The authority of any replica `r`, this one included, over its own entry
   * survives a merge of two clocks that both respect it.
   */
  lemma MergeKeepsAuthority<R>(stale: map<R, int>, replicaId: R, replicaValue: int, otherClock: map<R, int>, r: R, v: int)
    requires Authoritative(CurrentClock(stale, replicaId, replicaValue), r, v)
    requires Authoritative(otherClock, r, v)
    ensures var merged := PointwiseMax(CurrentClock(stale, replicaId, replicaValue), otherClock);
      Authoritative(CurrentClock(merged, replicaId, replicaValue), r, v)
  {
  }

  /** A clock that already holds `v` for `r` is its own current clock. */
  lemma ShadowIsNoop<R>(clock: map<R, int>, r: R, v: int)
    requires r in clock && clock[r] == v
    ensures CurrentClock(clock, r, v) == clock
  {
  }

  /**
   * Two replicas that are each the authority on their own entry read the same
   * value whichever of them merges the other.
   */
  lemma MergeCommutesOnValue<R>(staleA: map<R, int>, ra: R, va: int, staleB: map<R, int>, rb: R, vb: int)
    requires Authoritative(CurrentClock(staleB, rb, vb), ra, va)
    requires Authoritative(CurrentClock(staleA, ra, va), rb, vb)
    ensures ClockValue(PointwiseMax(CurrentClock(staleA, ra, va), CurrentClock(staleB, rb, vb)), ra, va)
         == ClockValue(PointwiseMax(CurrentClock(staleB, rb, vb), CurrentClock(staleA, ra, va)), rb, vb)
  {
    var a, b := CurrentClock(staleA, ra, va), CurrentClock(staleB, rb, vb);
    PointwiseMaxCommutative(a, b);
    var m := PointwiseMax(a, b);
    ShadowIsNoop(m, ra, va);
    ShadowIsNoop(m, rb, vb);
  }

  /**
   * Three replicas, each the authority on its own entry: merging 1 into 3
   * after 2 into 1 reads the same value as merging 2 into 1 after 3 into 2.
   */
  lemma MergeAssociativeOnValue<R>(
    s1: map<R, int>, r1: R, v1: int,
    s2: map<R, int>, r2: R, v2: int,
    s3: map<R, int>, r3: R, v3: int)
    requires Authoritative(CurrentClock(s2, r2, v2), r1, v1) && Authoritative(CurrentClock(s3, r3, v3), r1, v1)
    requires Authoritative(CurrentClock(s1, r1, v1), r2, v2) && Authoritative(CurrentClock(s3, r3, v3), r2, v2)
    requires Authoritative(CurrentClock(s1, r1, v1), r3, v3) && Authoritative(CurrentClock(s2, r2, v2), r3, v3)
    ensures
      var a, b, c := CurrentClock(s1, r1, v1), CurrentClock(s2, r2, v2), CurrentClock(s3, r3, v3);
      ClockValue(PointwiseMax(c, CurrentClock(PointwiseMax(a, b), r1, v1)), r3, v3)
      == ClockValue(PointwiseMax(a, CurrentClock(PointwiseMax(b, c), r2, v2)), r1, v1)
  {
    var a, b, c := CurrentClock(s1, r1, v1), CurrentClock(s2, r2, v2), CurrentClock(s3, r3, v3);
    var ab, bc := PointwiseMax(a, b), PointwiseMax(b, c);
    ShadowIsNoop(ab, r1, v1);
    ShadowIsNoop(bc, r2, v2);
    var left, right := PointwiseMax(c, ab), PointwiseMax(a, bc);
    ShadowIsNoop(left, r3, v3);
    ShadowIsNoop(right, r1, v1);
    PointwiseMaxCommutative(c, ab);
    PointwiseMaxAssociative(a, b, c);
  }
}
