/**
 * Clients of the counter that restate the repository's unit-test scenarios
 * (convergent/src/test/kotlin/crdt/counter/GCounterTest.kt) on replica ids
 * and counter ids of type int. Each postcondition includes what that test
 * asserts; where the test only compares two values, it also names the value
 * both sides reach.
 */
module Scenarios {
  import opened MapSum
  import opened VectorClock
  import opened Counter

  lemma SumOfOne(a: int, x: int)
    ensures Sum(map[a := x]) == x
  {
    SumSplit(map[a := x], a);
    assert map[a := x] - {a} == map[];
  }

  lemma SumOfTwo(a: int, x: int, b: int, y: int)
    requires a != b
    ensures Sum(map[a := x, b := y]) == x + y
  {
    SumSplit(map[a := x, b := y], a);
    assert map[a := x, b := y] - {a} == map[b := y];
    SumOfOne(b, y);
  }

  lemma SumOfThree(a: int, x: int, b: int, y: int, c: int, z: int)
    requires a != b && a != c && b != c
    ensures Sum(map[a := x, b := y, c := z]) == x + y + z
  {
    SumSplit(map[a := x, b := y, c := z], a);
    assert map[a := x, b := y, c := z] - {a} == map[b := y, c := z];
    SumOfTwo(b, y, c, z);
  }

  /** A replica whose stored view already holds its own count reads the sum of that view. */
  lemma ReadsStoredView(stale: map<int, int>, r: int, v: int)
    requires r in stale && stale[r] == v
    ensures ClockValue(stale, r, v) == Sum(stale)
  {
    ShadowIsNoop(stale, r, v);
  }

  // The stored views the scenarios' merges produce, with their entries written out.

  lemma ViewTenSeven()
    ensures PointwiseMax(CurrentClock(map[], 1, 10), CurrentClock(map[], 2, 7)) == map[1 := 10, 2 := 7]
  {
  }

  lemma ViewSevenTen()
    ensures PointwiseMax(CurrentClock(map[], 2, 7), CurrentClock(map[], 1, 10)) == map[1 := 10, 2 := 7]
  {
  }

  lemma ViewTenSevenAgain()
    ensures PointwiseMax(CurrentClock(map[1 := 10, 2 := 7], 1, 10), CurrentClock(map[], 2, 7)) == map[1 := 10, 2 := 7]
  {
  }

  lemma ViewTenTwelve()
    ensures PointwiseMax(CurrentClock(map[1 := 10, 2 := 7], 1, 10), CurrentClock(map[], 2, 12)) == map[1 := 10, 2 := 12]
  {
  }

  lemma ViewFiveTenSeven()
    ensures PointwiseMax(CurrentClock(map[], 3, 5), CurrentClock(map[1 := 10, 2 := 7], 1, 10)) == map[1 := 10, 2 := 7, 3 := 5]
  {
  }

  lemma ViewSevenFive()
    ensures PointwiseMax(CurrentClock(map[], 2, 7), CurrentClock(map[], 3, 5)) == map[2 := 7, 3 := 5]
  {
  }

  lemma ViewTenSevenFive()
    ensures PointwiseMax(CurrentClock(map[], 1, 10), CurrentClock(map[2 := 7, 3 := 5], 2, 7)) == map[1 := 10, 2 := 7, 3 := 5]
  {
  }

  lemma ViewMinusFiveThree()
    ensures PointwiseMax(CurrentClock(map[], 1, -5), CurrentClock(map[], 2, 3)) == map[1 := 0, 2 := 3]
  {
  }

  /**
   * Without `Authoritative` a merge can leave the value below the other
   * replica's: a replica starting at -5 merging one at 3 reads -2.
   */
  lemma NegativeStartReadsBelowOther()
    ensures ClockValue(PointwiseMax(CurrentClock(map[], 1, -5), CurrentClock(map[], 2, 3)), 1, -5) == -2
    ensures ClockValue(map[], 2, 3) == 3
  {
    ViewMinusFiveThree();
    assert CurrentClock(map[1 := 0, 2 := 3], 1, -5) == map[1 := -5, 2 := 3];
    assert ClockValue(map[1 := 0, 2 := 3], 1, -5) == -2 by {
      SumOfTwo(1, -5, 2, 3);
    }
    NewCounterValue(2, 3);
  }

  lemma ViewZeroTwelve()
    ensures PointwiseMax(CurrentClock(map[], 2, 0), CurrentClock(map[], 1, 12)) == map[1 := 12, 2 := 0]
  {
  }

  lemma ViewTenThroughZeroTwelve()
    ensures PointwiseMax(CurrentClock(map[], 1, 10), CurrentClock(map[1 := 12, 2 := 0], 2, 0)) == map[1 := 12, 2 := 0]
  {
  }

  /** What replica 1 at 10 and replica 2 at 0 read from the view `{1: 12, 2: 0}`. */
  lemma ReusedIdValues()
    ensures ClockValue(map[1 := 12, 2 := 0], 2, 0) == 12
    ensures ClockValue(map[1 := 12, 2 := 0], 1, 10) == 10
  {
    SumOfTwo(1, 12, 2, 0);
    ReadsStoredView(map[1 := 12, 2 := 0], 2, 0);
    assert CurrentClock(map[1 := 12, 2 := 0], 1, 10) == map[1 := 10, 2 := 0];
    SumOfTwo(1, 10, 2, 0);
  }

  /**
   * Two objects with the same replica id also break `Authoritative`, with no
   * negative count at all: replica 2 learns 12 for replica 1 from one object,
   * and the other object of replica 1, at 10, merging replica 2 reads 10
   * while replica 2 reads 12.
   */
  method ReusedIdReadsBelowOther() returns (success1: bool, success2: bool, reused: int, other: int)
    ensures success1 && success2 && reused == 10 && other == 12
  {
    var a := new GCounter<int, int>(1, 1, 10);
    var a2 := new GCounter<int, int>(1, 1, 12);
    var c := new GCounter<int, int>(1, 2, 0);
    success1 := c.Merge(a2);
    assert c.replicaValue == 0 && c.stale == map[1 := 12, 2 := 0] by {
      ViewZeroTwelve();
    }
    success2 := a.Merge(c);
    assert a.replicaValue == 10 && a.stale == map[1 := 12, 2 := 0] by {
      ViewTenThroughZeroTwelve();
    }
    ReusedIdValues();
    reused := a.Value();
    other := c.Value();
  }

  /** A counter that was never incremented reads 0. */
  method NewCounterReadsZero() returns (v: int)
    ensures v == 0
  {
    var counter := new GCounter<int, int>(1, 1, 0);
    v := counter.Value();
  }

  /** `inc()` raises the value by one and `inc(7)` by seven. */
  method IncRaisesValue() returns (byOne: int, bySeven: int)
    ensures byOne == 1 && bySeven == 7
  {
    var counter := new GCounter<int, int>(1, 1, 0);
    var before := counter.Value();
    counter.Inc(1);
    var after := counter.Value();
    byOne := after - before;
    var seven := new GCounter<int, int>(1, 1, 0);
    before := seven.Value();
    seven.Inc(7);
    after := seven.Value();
    bySeven := after - before;
  }

  /** Ten calls of `inc()` on a new counter make it read 10. */
  method TenIncs() returns (v: int)
    ensures v == 10
  {
    var counter := new GCounter<int, int>(1, 1, 0);
    var i := 1;
    while i <= 10
      invariant 1 <= i <= 11
      invariant ClockValue(counter.stale, counter.replicaId, counter.replicaValue) == i - 1
    {
      counter.Inc(1);
      i := i + 1;
    }
    v := counter.Value();
  }

  /** `n` calls of `inc()` in a row, as the tests' `for (i in 1..n)` loops make them. */
  method IncTimes(counter: GCounter<int, int>, n: nat)
    modifies counter
    ensures counter.replicaValue == old(counter.replicaValue) + n
    ensures counter.stale == old(counter.stale)
  {
    var i := 1;
    while i <= n
      invariant 1 <= i <= n + 1
      invariant counter.replicaValue == old(counter.replicaValue) + i - 1
      invariant counter.stale == old(counter.stale)
    {
      counter.Inc(1);
      i := i + 1;
    }
  }

  /** Merging a replica that was never incremented succeeds and keeps the value. */
  method MergeUnusedReplica() returns (success: bool, before: int, after: int)
    ensures success && before == after == 10
  {
    var counter := new GCounter<int, int>(1, 1, 0);
    IncTimes(counter, 10);
    var another := new GCounter<int, int>(1, 2, 0);
    assert counter.replicaValue == 10 && counter.stale == map[];
    before := counter.Value();
    assert before == 10 by {
      NewCounterValue(1, 10);
    }
    success := counter.Merge(another);
    assert counter.replicaValue == 10;
    assert counter.stale == PointwiseMax(CurrentClock(map[], 1, 10), CurrentClock(map[], 2, 0));
    assert ClockValue(counter.stale, 1, 10) == 10 by {
      MergeUnusedReplicaKeepsValue(map[], 1, 10, 2);
      NewCounterValue(1, 10);
    }
    after := counter.Value();
  }

  /** Merging a replica at 7 into one at 10 makes it read 17. */
  method MergeUsedReplica() returns (success: bool, v: int)
    ensures success && v == 17
  {
    var counter := new GCounter<int, int>(1, 1, 0);
    IncTimes(counter, 10);
    var another := new GCounter<int, int>(1, 2, 0);
    IncTimes(another, 7);
    assert another.replicaValue == 7 && another.stale == map[];
    success := counter.Merge(another);
    assert counter.stale == map[1 := 10, 2 := 7] by {
      ViewTenSeven();
    }
    assert ClockValue(map[1 := 10, 2 := 7], 1, 10) == 17 by {
      SumOfTwo(1, 10, 2, 7);
      ReadsStoredView(map[1 := 10, 2 := 7], 1, 10);
    }
    v := counter.Value();
  }

  /** Merging again after the other replica moved from 7 to 12 makes the first read 22. */
  method SecondMerge() returns (firstSuccess: bool, secondSuccess: bool, v: int)
    ensures firstSuccess && secondSuccess && v == 22
  {
    var first := new GCounter<int, int>(1, 1, 10);
    var second := new GCounter<int, int>(1, 2, 7);
    firstSuccess := first.Merge(second);
    ViewTenSeven();
    var i := 1;
    while i <= 5
      invariant 1 <= i <= 6
      invariant second.replicaId == 2 && second.replicaValue == 7 + i - 1 && second.stale == map[]
      invariant first.replicaId == 1 && first.replicaValue == 10 && first.stale == map[1 := 10, 2 := 7]
    {
      second.Inc(1);
      i := i + 1;
    }
    assert second.replicaValue == 12;
    secondSuccess := first.Merge(second);
    ViewTenTwelve();
    assert first.stale == map[1 := 10, 2 := 12];
    SumOfTwo(1, 10, 2, 12);
    ReadsStoredView(first.stale, 1, 10);
    v := first.Value();
  }

  /** Replica 1 at 10 merging replica 2 at 7 reads what replica 2 merging replica 1 reads. */
  method MergeCommutes() returns (left: int, right: int)
    ensures left == right == 17
  {
    var l1 := new GCounter<int, int>(1, 1, 10);
    var r1 := new GCounter<int, int>(1, 2, 7);
    var _ := l1.Merge(r1);
    var l2 := new GCounter<int, int>(1, 2, 7);
    var r2 := new GCounter<int, int>(1, 1, 10);
    var _ := l2.Merge(r2);
    ViewTenSeven();
    ViewSevenTen();
    SumOfTwo(1, 10, 2, 7);
    ReadsStoredView(l1.stale, 1, 10);
    ReadsStoredView(l2.stale, 2, 7);
    left := l1.Value();
    right := l2.Value();
  }

  /** Three replicas at 10, 7 and 5 merged in either grouping both read 22. */
  method MergeAssociates() returns (left: int, right: int)
    ensures left == right == 22
  {
    var f1 := new GCounter<int, int>(1, 1, 10);
    var f2 := new GCounter<int, int>(1, 2, 7);
    var f3 := new GCounter<int, int>(1, 3, 5);
    var _ := f1.Merge(f2);
    ViewTenSeven();
    var _ := f3.Merge(f1);
    ViewFiveTenSeven();

    var s1 := new GCounter<int, int>(1, 1, 10);
    var s2 := new GCounter<int, int>(1, 2, 7);
    var s3 := new GCounter<int, int>(1, 3, 5);
    var _ := s2.Merge(s3);
    ViewSevenFive();
    var _ := s1.Merge(s2);
    ViewTenSevenFive();

    SumOfThree(1, 10, 2, 7, 3, 5);
    ReadsStoredView(f3.stale, 3, 5);
    ReadsStoredView(s1.stale, 1, 10);
    left := f3.Value();
    right := s1.Value();
  }

  /** Merging the same replica, or an equal copy of it, again leaves the value at 17. */
  method MergeIsIdempotent() returns (value1: int, value2: int, value3: int)
    ensures value1 == value2 == value3 == 17
  {
    var f1 := new GCounter<int, int>(1, 1, 10);
    var f2 := new GCounter<int, int>(1, 2, 7);
    var _ := f1.Merge(f2);
    ViewTenSeven();
    SumOfTwo(1, 10, 2, 7);
    ReadsStoredView(f1.stale, 1, 10);
    value1 := f1.Value();
    var f2Copy := new GCounter<int, int>(1, 2, 7);
    var _ := f1.Merge(f2Copy);
    ViewTenSevenAgain();
    value2 := f1.Value();
    var _ := f1.Merge(f2);
    value3 := f1.Value();
  }

  /** Merging with itself, or with another object of the same replica id, is refused. */
  method MergeIsNotReflexive() returns (success1: bool, success2: bool, success3: bool)
    ensures !success1 && !success2 && !success3
  {
    var f := new GCounter<int, int>(1, 1, 10);
    success1 := f.Merge(f);
    var s := new GCounter<int, int>(1, 1, 10);
    var sUpdated := new GCounter<int, int>(1, 1, 12);
    success2 := s.Merge(sUpdated);
    var t := new GCounter<int, int>(1, 1, 10);
    var tCopy := new GCounter<int, int>(1, 1, 10);
    success3 := t.Merge(tCopy);
  }
}
