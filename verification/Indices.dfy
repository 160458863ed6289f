/** Intervals of natural numbers as sets. */
module Indices {

  predicate Within(lo: nat, i: nat, hi: nat) {
    lo <= i < hi
  }

  function Range(lo: nat, hi: nat): set<nat> {
    set i: nat | lo <= i < hi && Within(lo, i, hi)
  }

  lemma {:induction false} RangeSize(lo: nat, hi: nat)
    requires lo <= hi
    ensures |Range(lo, hi)| == hi - lo
    decreases hi - lo
  {
    if lo < hi {
      RangeSize(lo + 1, hi);
      assert Range(lo, hi) == {lo} + Range(lo + 1, hi);
    } else {
      assert Range(lo, hi) == {};
    }
  }

  lemma SubsetSize<T>(a: set<T>, b: set<T>)
    requires a <= b
    ensures |a| <= |b|
  {
    assert b == a + (b - a);
  }
}
