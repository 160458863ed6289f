/** Vector clocks (Cluster/vclock/vclock.go): counters are uint64 and an absent address counts as 0. */
module VectorClock {

  type Addr = string

  const WRAP: nat := 0x1_0000_0000_0000_0000

  type Counter = n: nat | n < WRAP

  type Clock = map<Addr, Counter>

  datatype Relation = Before | After | Concurrent | Equal

  function Get(c: Clock, a: Addr): Counter {
    if a in c then c[a] else 0
  }

  ghost predicate Leq(a: Clock, b: Clock) {
    forall k :: Get(a, k) <= Get(b, k)
  }

  /** The causal relation the product order defines. */
  ghost function Causal(a: Clock, b: Clock): Relation {
    if Leq(a, b) && Leq(b, a) then Equal
    else if Leq(a, b) then Before
    else if Leq(b, a) then After
    else Concurrent
  }

  method Compare(a: Clock, b: Clock) returns (r: Relation)
    ensures r == Causal(a, b)
  {
    var left := a.Keys + b.Keys;
    ghost var all := left;
    var thisGreater, otherGreater := false, false;
    while left != {}
      invariant left <= all
      invariant thisGreater <==> exists k :: k in all - left && Get(a, k) > Get(b, k)
      invariant otherGreater <==> exists k :: k in all - left && Get(b, k) > Get(a, k)
      invariant !(thisGreater && otherGreater)
      decreases left
    {
      var k :| k in left;
      ghost var seen := all - left;
      left := left - {k};
      assert all - left == seen + {k};
      if Get(a, k) > Get(b, k) {
        thisGreater := true;
      } else if Get(b, k) > Get(a, k) {
        otherGreater := true;
      }
      if thisGreater && otherGreater {
        assert !Leq(a, b) && !Leq(b, a);
        return Concurrent;
      }
    }
    assert forall k :: k !in all ==> Get(a, k) == Get(b, k) == 0;
    assert left == {} && all - left == all;
    assert Leq(a, b) <==> !thisGreater;
    assert Leq(b, a) <==> !otherGreater;
    if !thisGreater && !otherGreater {
      r := Equal;
    } else if thisGreater {
      r := After;
    } else {
      r := Before;
    }
  }

  /** The per-node maximum is the least upper bound. */
  method Merge(a: Clock, b: Clock) returns (r: Clock)
    ensures forall k :: Get(r, k) == if Get(a, k) >= Get(b, k) then Get(a, k) else Get(b, k)
    ensures Leq(a, r) && Leq(b, r) && forall u: Clock :: Leq(a, u) && Leq(b, u) ==> Leq(r, u)
  {
    r := a;
    var left := b.Keys;
    while left != {}
      invariant left <= b.Keys
      invariant forall k :: Get(r, k) == if k in left || Get(a, k) >= Get(b, k) then Get(a, k) else Get(b, k)
      decreases left
    {
      var k :| k in left;
      left := left - {k};
      if b[k] > Get(r, k) {
        r := r[k := b[k]];
      }
    }
  }

  function Increment(c: Clock, a: Addr): Clock {
    c[a := (Get(c, a) + 1) % WRAP]
  }

  /** Incrementing yields a strictly later clock exactly while the uint64 counter does not wrap. */
  lemma IncrementIsAfterIff(c: Clock, a: Addr)
    ensures Causal(Increment(c, a), c) == After <==> Get(c, a) != WRAP - 1
    ensures Get(c, a) == WRAP - 1 ==> Causal(Increment(c, a), c) == Before
  {
    var d := Increment(c, a);
    assert Get(d, a) == (Get(c, a) + 1) % WRAP;
    assert forall k :: k != a ==> Get(d, k) == Get(c, k);
  }

  lemma CausalIsOrder(a: Clock, b: Clock, c: Clock)
    ensures Causal(a, a) == Equal
    ensures Causal(a, b) == Before <==> Causal(b, a) == After
    ensures Causal(a, b) == Before && Causal(b, c) == Before ==> Causal(a, c) == Before
    ensures Causal(a, b) == Equal ==> Causal(a, c) == Causal(b, c)
  {
  }
}
