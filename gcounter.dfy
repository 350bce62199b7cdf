/**
 * The grow-only counter object: a local count that `Inc` raises and a stored
 * view of all replicas' counts that `Merge` replaces.
 */
module Counter {
  import opened MapSum
  import opened VectorClock

  class GCounter<T(==), R(==)> {
    /** Which logical counter this replica belongs to. */
    const id: T
    /** Which replica of that counter this object is. */
    const replicaId: R
    /** This replica's own count. */
    var replicaValue: int
    /** The view stored by the last successful merge; its own entry is shadowed on read. */
    var stale: map<R, int>

    constructor (id: T, replicaId: R, initialValue: int)
      ensures this.id == id && this.replicaId == replicaId
      ensures replicaValue == initialValue && stale == map[]
      ensures ClockValue(stale, replicaId, replicaValue) == initialValue
    {
      this.id := id;
      this.replicaId := replicaId;
      replicaValue := initialValue;
      stale := map[];
      NewCounterValue(replicaId, initialValue);
    }

    /** `value`: the sum of the entries of the current clock. */
    method Value() returns (v: int)
      ensures v == ClockValue(stale, replicaId, replicaValue)
    {
      var clock := CurrentClock(stale, replicaId, replicaValue);
      var rest := clock;
      v := 0;
      while rest != map[]
        invariant v + Sum(rest) == Sum(clock)
        decreases |rest|
      {
        var k :| k in rest;
        SumSplit(rest, k);
        v := v + rest[k];
        assert (rest - {k}).Keys == rest.Keys - {k};
        rest := rest - {k};
      }
    }

    /** `inc`: adds `delta` to the local count; the stored view is untouched. */
    method Inc(delta: int)
      modifies this
      ensures replicaValue == old(replicaValue) + delta
      ensures stale == old(stale)
      ensures ClockValue(stale, replicaId, replicaValue) == old(ClockValue(stale, replicaId, replicaValue)) + delta
    {
      IncAddsDelta(stale, replicaId, replicaValue, delta);
      replicaValue := replicaValue + delta;
    }

    /**
     * `merge`: refuses another logical counter or the same replica id without
     * changing anything; otherwise stores the pointwise maximum of both
     * current clocks. The local count and `other` are never changed.
     */
    method Merge(other: GCounter<T, R>) returns (merged: bool)
      modifies this
      ensures merged <==> (id == other.id && replicaId != other.replicaId)
      ensures replicaValue == old(replicaValue)
      ensures other.replicaValue == old(other.replicaValue) && other.stale == old(other.stale)
      ensures !merged ==> stale == old(stale)
      ensures merged ==> stale == PointwiseMax(
                old(CurrentClock(stale, replicaId, replicaValue)),
                old(CurrentClock(other.stale, other.replicaId, other.replicaValue)))
      ensures merged ==> ClockValue(stale, replicaId, replicaValue) >= old(ClockValue(stale, replicaId, replicaValue))
    {
      if id != other.id || replicaId == other.replicaId {
        return false;
      }
      var thisState := CurrentClock(stale, replicaId, replicaValue);
      var otherState := CurrentClock(other.stale, other.replicaId, other.replicaValue);
      var keys := thisState.Keys + otherState.Keys;
      var vectorClock: map<R, int> := map[];
      var todo := keys;
      while todo != {}
        invariant todo <= keys
        invariant vectorClock.Keys == keys - todo
        invariant forall k :: k in vectorClock ==> vectorClock[k] == Max(Get(thisState, k), Get(otherState, k))
        decreases todo
      {
        var key :| key in todo;
        vectorClock := vectorClock[key := Max(Get(thisState, key), Get(otherState, key))];
        todo := todo - {key};
      }
      MergeMonotone(stale, replicaId, replicaValue, otherState);
      stale := vectorClock;
      return true;
    }
  }
}
