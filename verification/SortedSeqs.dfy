/** Sorting natural numbers, and what makes a sorted sequence unique. */
module SortedSeqs {
  import opened Sequences

  ghost predicate Sorted(s: seq<nat>) {
    forall i, j :: 0 <= i < j < |s| ==> s[i] <= s[j]
  }

  ghost predicate StrictlySorted(s: seq<nat>) {
    forall i, j :: 0 <= i < j < |s| ==> s[i] < s[j]
  }

  function Insert(x: nat, s: seq<nat>): (r: seq<nat>)
    ensures multiset(r) == multiset(s) + multiset{x}
  {
    if s == [] || x <= s[0] then [x] + s
    else assert s == [s[0]] + s[1..]; [s[0]] + Insert(x, s[1..])
  }

  function Sort(s: seq<nat>): (r: seq<nat>)
    ensures multiset(r) == multiset(s)
  {
    if s == [] then [] else assert s == [s[0]] + s[1..]; Insert(s[0], Sort(s[1..]))
  }

  lemma {:induction false} InsertSorted(x: nat, s: seq<nat>)
    requires Sorted(s)
    ensures Sorted(Insert(x, s))
  {
    if s != [] && x > s[0] {
      InsertSorted(x, s[1..]);
      var w := Insert(x, s[1..]);
      forall i | 0 <= i < |w| ensures s[0] <= w[i] {
        assert w[i] in multiset(s[1..]) + multiset{x};
      }
    }
  }

  lemma {:induction false} SortSorted(s: seq<nat>)
    ensures Sorted(Sort(s))
  {
    if s != [] {
      SortSorted(s[1..]);
      InsertSorted(s[0], Sort(s[1..]));
    }
  }

  /** A set has only one strictly sorted enumeration. */
  lemma {:induction false} StrictlySortedUnique(s: seq<nat>, t: seq<nat>)
    requires StrictlySorted(s) && StrictlySorted(t) && Elements(s) == Elements(t)
    ensures s == t
  {
    NoElements(s);
    NoElements(t);
    if s != [] {
      assert s[0] in Elements(t) && t[0] in Elements(s);
      assert s[0] == t[0];
      forall x ensures x in s[1..] <==> x in t[1..] {
        assert x in s[1..] <==> x in Elements(s) && x != s[0];
        assert x in t[1..] <==> x in Elements(t) && x != t[0];
      }
      StrictlySortedUnique(s[1..], t[1..]);
    }
  }

  lemma TailCounts(s: seq<nat>)
    requires s != []
    ensures multiset(s) == multiset{s[0]} + multiset(s[1..])
  {
    assert s == [s[0]] + s[1..];
  }

  lemma SameLeast(s: seq<nat>, t: seq<nat>)
    requires s != [] && t != [] && Sorted(s) && Sorted(t) && multiset(s) == multiset(t)
    ensures s[0] == t[0]
  {
    assert s[0] in multiset(t) && t[0] in multiset(s);
    assert s[0] in t && t[0] in s;
  }

  /** Equal multisets sort to the same sequence. */
  lemma {:induction false} SortedUnique(s: seq<nat>, t: seq<nat>)
    requires Sorted(s) && Sorted(t) && multiset(s) == multiset(t)
    ensures s == t
  {
    assert |s| == |multiset(s)| == |t|;
    if s != [] {
      SameLeast(s, t);
      TailCounts(s);
      TailCounts(t);
      assert multiset(s[1..]) == multiset(s) - multiset{s[0]} == multiset(t[1..]);
      SortedUnique(s[1..], t[1..]);
    }
  }

  function Without(s: seq<nat>, drop: set<nat>): seq<nat> {
    if s == [] then [] else Without(s[..|s| - 1], drop) + (if s[|s| - 1] in drop then [] else [s[|s| - 1]])
  }

  lemma {:induction false} WithoutMembers(s: seq<nat>, drop: set<nat>)
    ensures forall x :: x in Without(s, drop) <==> x in s && x !in drop
  {
    if s != [] {
      WithoutMembers(s[..|s| - 1], drop);
      assert s == s[..|s| - 1] + [s[|s| - 1]];
    }
  }

  lemma {:induction false} WithoutSorted(s: seq<nat>, drop: set<nat>)
    ensures Sorted(s) ==> Sorted(Without(s, drop))
    ensures StrictlySorted(s) ==> StrictlySorted(Without(s, drop))
  {
    if s != [] {
      var front, last := s[..|s| - 1], s[|s| - 1];
      var w := Without(front, drop);
      WithoutSorted(front, drop);
      WithoutMembers(front, drop);
      assert forall i :: 0 <= i < |w| ==> w[i] in front;
      if Sorted(s) {
        forall x | x in front ensures x <= last {}
        SortedAppend(w, last);
      }
      if StrictlySorted(s) {
        forall x | x in front ensures x < last {}
        StrictlySortedAppend(w, last);
      }
    }
  }

  lemma SortedAppend(s: seq<nat>, x: nat)
    requires Sorted(s) && forall i :: 0 <= i < |s| ==> s[i] <= x
    ensures Sorted(s + [x])
  {
  }

  lemma StrictlySortedAppend(s: seq<nat>, x: nat)
    requires StrictlySorted(s) && forall i :: 0 <= i < |s| ==> s[i] < x
    ensures StrictlySorted(s + [x])
  {
  }

  lemma {:induction false} WithoutCounts(s: seq<nat>, drop: set<nat>, x: nat)
    ensures multiset(Without(s, drop))[x] == if x in drop then 0 else multiset(s)[x]
  {
    if s != [] {
      var front, last := s[..|s| - 1], s[|s| - 1];
      WithoutCounts(front, drop, x);
      AppendCounts(front, last, x);
      assert s == front + [last];
      if last in drop {
        assert Without(s, drop) == Without(front, drop);
      } else {
        AppendCounts(Without(front, drop), last, x);
        assert Without(s, drop) == Without(front, drop) + [last];
      }
    }
  }

  lemma AppendCounts(s: seq<nat>, last: nat, x: nat)
    ensures multiset(s + [last])[x] == multiset(s)[x] + if x == last then 1 else 0
  {
  }
}
