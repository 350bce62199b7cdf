/**
 * Sums over the values of a finite map from replica ids to counts, with a
 * missing key read as 0 (the `?: 0` of the counter's merge).
 */
module MapSum {

  /** The count a map records for `k`, or 0 when it records none. */
  function Get<K>(m: map<K, int>, k: K): int
  {
    if k in m then m[k] else 0
  }

  /** Some key of a non-empty map: the one a sum adds first. */
  ghost function Pick<K>(m: map<K, int>): (k: K)
    requires |m| != 0
    ensures k in m
  {
    var k :| k in m; k
  }

  /** The sum of all values of `m` (`values.sum()` on a map); no negative value, no negative sum. */
  ghost function Sum<K>(m: map<K, int>): (r: int)
    ensures (forall k :: k in m ==> m[k] >= 0) ==> r >= 0
    decreases |m|
  {
    if |m| == 0 then 0
    else
      var k := Pick(m);
      m[k] + Sum(m - {k})
  }

  /** `lo` is pointwise at most `hi`, every missing entry read as 0. */
  ghost predicate Below<K>(lo: map<K, int>, hi: map<K, int>)
  {
    forall k :: k in lo.Keys + hi.Keys ==> Get(lo, k) <= Get(hi, k)
  }

  /** Any one key can be split off a sum, whichever key the definition picks. */
  lemma {:induction false} SumSplit<K>(m: map<K, int>, k: K)
    ensures Sum(m) == Get(m, k) + Sum(m - {k})
    decreases |m|, 2
  {
    if k in m {
      SumSplitPresent(m, k);
    } else {
      assert m - {k} == m;
    }
  }

  /** The case of `SumSplit` where `k` is a key of `m`. */
  lemma {:induction false} SumSplitPresent<K>(m: map<K, int>, k: K)
    requires k in m
    ensures Sum(m) == m[k] + Sum(m - {k})
    decreases |m|, 1
  {
    var j := Pick(m);
    if j != k {
      SumSwap(m, j, k);
    }
  }

  /** Splitting off `j` first or `k` first gives the same sum. */
  lemma {:induction false} SumSwap<K>(m: map<K, int>, j: K, k: K)
    requires j in m && k in m && j != k
    ensures m[j] + Sum(m - {j}) == m[k] + Sum(m - {k})
    decreases |m|, 0
  {
    var mj, mk := m - {j}, m - {k};
    assert mj.Keys == m.Keys - {j} && mk.Keys == m.Keys - {k};
    SumSplit(mj, k);
    SumSplit(mk, j);
    assert mj - {k} == mk - {j};
  }

  /** A pointwise smaller map has a smaller sum. */
  lemma {:induction false} SumMonotone<K>(lo: map<K, int>, hi: map<K, int>)
    requires Below(lo, hi)
    ensures Sum(lo) <= Sum(hi)
    decreases |lo| + |hi|
  {
    if |lo| + |hi| != 0 {
      var k;
      if |lo| != 0 {
        k :| k in lo;
      } else {
        k :| k in hi;
      }
      var lo', hi' := lo - {k}, hi - {k};
      assert Below(lo', hi') by {
        forall j | j in lo'.Keys + hi'.Keys
          ensures Get(lo', j) <= Get(hi', j)
        {
          assert Get(lo, j) <= Get(hi, j);
        }
      }
      assert |lo'| + |hi'| < |lo| + |hi| by {
        assert lo'.Keys == lo.Keys - {k} && hi'.Keys == hi.Keys - {k};
      }
      SumMonotone(lo', hi');
      assert Get(lo, k) <= Get(hi, k);
      SumSplit(lo, k);
      SumSplit(hi, k);
    }
  }

  /** Maps that agree on every key (missing read as 0) have the same sum. */
  lemma SumAgree<K>(m1: map<K, int>, m2: map<K, int>)
    requires Below(m1, m2) && Below(m2, m1)
    ensures Sum(m1) == Sum(m2)
  {
    SumMonotone(m1, m2);
    SumMonotone(m2, m1);
  }
}
