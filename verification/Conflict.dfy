/** Last-write-wins resolution (Cluster/conflict/conflict.go). */
module Conflict {
  import opened VectorClock

  datatype Version = Version(node: Addr, clock: Clock, timestamp: int)

  /** One step of the fold: the causally later version wins, concurrent ones are decided by time. */
  ghost function Pick(best: Version, candidate: Version): Version {
    match Causal(best.clock, candidate.clock)
    case Before => candidate
    case After => best
    case Equal => best
    case Concurrent => if candidate.timestamp > best.timestamp then candidate else best
  }

  ghost function Winner(vs: seq<Version>): Version
    requires vs != []
  {
    if |vs| == 1 then vs[0] else Pick(Winner(vs[..|vs| - 1]), vs[|vs| - 1])
  }

  method Resolve(vs: seq<Version>) returns (best: Version)
    requires vs != []
    ensures best == Winner(vs)
  {
    best := vs[0];
    for i := 1 to |vs|
      invariant best == Winner(vs[..i])
    {
      var candidate := vs[i];
      var rel := Compare(best.clock, candidate.clock);
      assert vs[..i + 1][..i] == vs[..i];
      match rel
      case Before => best := candidate;
      case After =>
      case Equal =>
      case Concurrent =>
        if candidate.timestamp > best.timestamp {
          best := candidate;
        }
    }
    assert vs[..|vs|] == vs;
  }

  ghost predicate Dominated(v: Version, w: Version) {
    Causal(v.clock, w.clock) == Before
  }

  /** Without any hypothesis the winner is dominated by no version from its own position on. */
  lemma {:induction false} WinnerBeatsLater(vs: seq<Version>) returns (k: nat)
    requires vs != []
    ensures k < |vs| && Winner(vs) == vs[k]
    ensures forall j :: k <= j < |vs| ==> !Dominated(vs[k], vs[j])
  {
    var n := |vs| - 1;
    if n == 0 {
      k := 0;
    } else {
      k := WinnerBeatsLater(vs[..n]);
      forall j | k <= j < n ensures !Dominated(vs[k], vs[j]) {
        assert vs[..n][j] == vs[j];
      }
      if Winner(vs) != vs[k] {
        k := n;
      }
    }
  }

  /** Of two versions the winner is never dominated. */
  lemma TwoVersions(v: Version, w: Version)
    ensures Winner([v, w]) == v || Winner([v, w]) == w
    ensures !Dominated(Winner([v, w]), v) && !Dominated(Winner([v, w]), w)
  {
    assert [v, w][..1] == [v];
    CausalIsOrder(v.clock, w.clock, w.clock);
    CausalIsOrder(w.clock, v.clock, v.clock);
  }

  /** Wall clocks respect causality among the candidates. */
  ghost predicate TimeRespectsCausality(vs: seq<Version>) {
    forall i, j :: 0 <= i < |vs| && 0 <= j < |vs| ==>
      && (Causal(vs[i].clock, vs[j].clock) == Before ==> vs[i].timestamp < vs[j].timestamp)
      && (Causal(vs[i].clock, vs[j].clock) == Equal ==> vs[i].timestamp == vs[j].timestamp)
  }

  lemma PrefixRespects(vs: seq<Version>, n: nat)
    requires TimeRespectsCausality(vs) && n <= |vs|
    ensures TimeRespectsCausality(vs[..n])
  {
  }

  /** One step under that hypothesis is decided by time alone. */
  lemma PickByTime(vs: seq<Version>, k: nat, n: nat)
    requires TimeRespectsCausality(vs) && k < |vs| && n < |vs|
    ensures Pick(vs[k], vs[n]) == if vs[n].timestamp > vs[k].timestamp then vs[n] else vs[k]
    ensures vs[n].timestamp <= vs[k].timestamp ==> !Dominated(vs[k], vs[n])
  {
    CausalIsOrder(vs[k].clock, vs[n].clock, vs[n].clock);
    CausalIsOrder(vs[n].clock, vs[k].clock, vs[k].clock);
  }

  /** The first version with the greatest timestamp. */
  ghost predicate FirstLatest(vs: seq<Version>, k: nat) {
    && k < |vs|
    && (forall j :: 0 <= j < |vs| ==> vs[j].timestamp <= vs[k].timestamp)
    && (forall j :: 0 <= j < k ==> vs[j].timestamp < vs[k].timestamp)
  }

  lemma FirstLatestStep(vs: seq<Version>, k: nat)
    requires vs != [] && FirstLatest(vs[..|vs| - 1], k)
    ensures FirstLatest(vs, if vs[|vs| - 1].timestamp > vs[k].timestamp then |vs| - 1 else k)
  {
    var n := |vs| - 1;
    assert vs[..n][k] == vs[k];
    forall j | 0 <= j < n ensures vs[j].timestamp <= vs[k].timestamp && (j < k ==> vs[j].timestamp < vs[k].timestamp) {
      assert vs[..n][j] == vs[j];
    }
  }

  lemma {:induction false} WinnerIsFirstLatest(vs: seq<Version>) returns (k: nat)
    requires vs != [] && TimeRespectsCausality(vs)
    ensures FirstLatest(vs, k) && Winner(vs) == vs[k]
  {
    var n := |vs| - 1;
    if n == 0 {
      k := 0;
    } else {
      PrefixRespects(vs, n);
      k := WinnerIsFirstLatest(vs[..n]);
      FirstLatestStep(vs, k);
      assert vs[..n][k] == vs[k];
      PickByTime(vs, k, n);
      k := if vs[n].timestamp > vs[k].timestamp then n else k;
    }
  }

  /** Then the winner is the first version with the greatest timestamp, and none is causally later. */
  lemma WinnerIsLatest(vs: seq<Version>) returns (k: nat)
    requires vs != [] && TimeRespectsCausality(vs)
    ensures FirstLatest(vs, k) && Winner(vs) == vs[k]
    ensures forall j :: 0 <= j < |vs| ==> !Dominated(vs[k], vs[j])
  {
    k := WinnerIsFirstLatest(vs);
    forall j | 0 <= j < |vs| ensures !Dominated(vs[k], vs[j]) {
      PickByTime(vs, k, j);
    }
  }

  /** When wall clocks disagree with causality, a version that another candidate causally follows
      can win: {A:2}@5, {B:1}@10, {A:1}@20. */
  lemma DominatedWinner(a: Addr, b: Addr, n: Addr)
    requires a != b
    ensures var x, y, z := Version(n, map[a := 2], 5), Version(n, map[b := 1], 10), Version(n, map[a := 1], 20);
      Winner([x, y, z]) == z && Dominated(z, x) && !TimeRespectsCausality([x, y, z])
  {
    var x, y, z := Version(n, map[a := 2], 5), Version(n, map[b := 1], 10), Version(n, map[a := 1], 20);
    var vs := [x, y, z];
    assert vs[..2] == [x, y] && [x, y][..1] == [x];
    assert Get(x.clock, a) == 2 && Get(y.clock, a) == 0 && Get(z.clock, a) == 1;
    assert Get(x.clock, b) == 0 && Get(y.clock, b) == 1 && Get(z.clock, b) == 0;
    assert Causal(x.clock, y.clock) == Concurrent && Causal(y.clock, z.clock) == Concurrent && Causal(z.clock, x.clock) == Before;
    assert Winner([x, y]) == Pick(Winner([x, y][..1]), y) == y;
    assert Winner(vs) == Pick(Winner(vs[..2]), z) == z;
    assert vs[2] == z && vs[0] == x;
  }

  /** Traps are never far: any two versions whose stamps contradict causality by more than one tick are
      the outer versions of a trap, for a third one that any other address may write in between. So a
      resolver fed such a pair is only one concurrent write away from electing the dominated one. */
  lemma DisagreementMisleads(v: Version, w: Version, a: Addr, n: Addr)
    requires Dominated(v, w) && v.timestamp > w.timestamp + 1
    requires a !in v.clock && a !in w.clock && exists k :: Get(v.clock, k) > 0
    ensures var u := Version(n, map[a := 1], w.timestamp + 1);
      Trap({v, u, w}, v, u, w) && Winner([w, u, v]) == v
  {
    var u := Version(n, map[a := 1], w.timestamp + 1);
    var k :| Get(v.clock, k) > 0;
    assert Get(w.clock, k) >= Get(v.clock, k) && Get(u.clock, k) == 0;
    assert Get(u.clock, a) == 1 && Get(v.clock, a) == 0 && Get(w.clock, a) == 0;
    assert Causal(w.clock, u.clock) == Concurrent && Causal(u.clock, v.clock) == Concurrent;
    var vs := [w, u, v];
    assert vs[..2] == [w, u] && [w, u][..1] == [w];
    assert Winner([w, u]) == Pick(Winner([w, u][..1]), u) == u;
    assert Winner(vs) == Pick(Winner(vs[..2]), v) == v;
  }

  // ---------------------------------------------------------------- exactly when it misleads

  ghost predicate Apart(v: Version, w: Version) {
    Causal(v.clock, w.clock) == Concurrent
  }

  /** `top` causally follows `low`, but time puts a version concurrent with both between them the
      other way round. */
  ghost predicate Trap(vs: set<Version>, low: Version, mid: Version, top: Version) {
    && low in vs && mid in vs && top in vs
    && Dominated(low, top) && Apart(mid, low) && Apart(mid, top)
    && top.timestamp <= mid.timestamp < low.timestamp
  }

  /** The same with a tie: `top` and `prior` are stamped alike, and what follows `prior` is stamped earlier. */
  ghost predicate TiedTrap(vs: set<Version>, low: Version, top: Version, prior: Version, later: Version) {
    && low in vs && top in vs && prior in vs && later in vs
    && Dominated(low, top) && Dominated(prior, later)
    && Apart(prior, low) && Apart(prior, top) && Apart(later, low) && Apart(later, top)
    && later.timestamp < prior.timestamp == low.timestamp == top.timestamp
  }

  ghost predicate TrapFree(vs: set<Version>) {
    && (forall low, mid, top :: !Trap(vs, low, mid, top))
    && (forall low, top, prior, later :: !TiedTrap(vs, low, top, prior, later))
  }

  ghost predicate Over(list: seq<Version>, vs: set<Version>) {
    forall v :: v in list ==> v in vs
  }

  ghost predicate Undominated(list: seq<Version>)
    requires list != []
  {
    forall v :: v in list ==> !Dominated(Winner(list), v)
  }

  /** `w` takes over from `v` as the best so far. */
  ghost predicate TakesOver(v: Version, w: Version) {
    Dominated(v, w) || (Apart(v, w) && w.timestamp > v.timestamp)
  }

  ghost predicate Path(vs: set<Version>, path: seq<Version>) {
    && path != [] && Over(path, vs)
    && forall i :: 0 <= i < |path| - 1 ==> TakesOver(path[i], path[i + 1])
  }

  /** What a version that was just handled is to the best so far. */
  ghost predicate Covers(best: Version, v: Version) {
    Leq(v.clock, best.clock) || (Apart(best, v) && v.timestamp <= best.timestamp)
  }

  lemma Orders(a: Clock, b: Clock)
    ensures Causal(a, b) == Before <==> Leq(a, b) && !Leq(b, a)
    ensures Causal(a, b) == Concurrent <==> !Leq(a, b) && !Leq(b, a)
  {
  }

  /** Along a path that time takes from above `w` down to it, some causal step makes the drop: with `w`
      concurrent to the whole path, that is a trap. */
  lemma {:induction false} Crossing(vs: set<Version>, path: seq<Version>, w: Version)
    requires Path(vs, path) && w in vs && forall i :: 0 <= i < |path| ==> Apart(w, path[i])
    requires path[|path| - 1].timestamp <= w.timestamp < path[0].timestamp
    ensures !TrapFree(vs)
    decreases |path|
  {
    var a, b := path[0], path[1];
    assert TakesOver(a, b);
    if b.timestamp <= w.timestamp {
      assert Trap(vs, a, w, b);
    } else {
      PathTail(vs, path, 1);
      Crossing(vs, path[1..], w);
    }
  }

  lemma PathTail(vs: set<Version>, path: seq<Version>, i: nat)
    requires Path(vs, path) && i < |path|
    ensures Path(vs, path[i..]) && Path(vs, path[..i + 1])
  {
  }

  /** A path from `t` to something `t` dominates, otherwise concurrent to both, crosses a trap. */
  lemma FromFirst(vs: set<Version>, path: seq<Version>)
    requires Path(vs, path) && |path| >= 2 && Dominated(path[|path| - 1], path[0])
    requires forall i :: 1 <= i < |path| - 1 ==> Apart(path[0], path[i]) && Apart(path[|path| - 1], path[i])
    ensures !TrapFree(vs)
  {
    var n := |path| - 1;
    var t, last, low := path[0], path[n - 1], path[n];
    assert TakesOver(last, low) && TakesOver(t, path[1]);
    Orders(t.clock, low.clock);
    Orders(low.clock, t.clock);
    if n > 1 {
      Orders(last.clock, low.clock);
      Orders(low.clock, last.clock);
      if last.timestamp >= t.timestamp {
        Orders(last.clock, t.clock);
        Orders(t.clock, last.clock);
        assert Trap(vs, low, last, t);
      } else {
        Orders(t.clock, path[1].clock);
        var inner := path[..n][1..];
        PathTail(vs, path, n - 1);
        PathTail(vs, path[..n], 1);
        assert forall i :: 0 <= i < |inner| ==> inner[i] == path[i + 1];
        Crossing(vs, inner, t);
      }
    }
  }

  /** The same for a version that the path's first one beat by time alone. */
  lemma FromCovered(vs: set<Version>, path: seq<Version>, top: Version)
    requires Path(vs, path) && |path| >= 2 && top in vs && top.timestamp <= path[0].timestamp && Dominated(path[|path| - 1], top)
    requires forall i :: 0 <= i < |path| - 1 ==> Apart(top, path[i]) && Apart(path[|path| - 1], path[i])
    ensures !TrapFree(vs)
  {
    var n := |path| - 1;
    var first, last, low := path[0], path[n - 1], path[n];
    assert TakesOver(last, low) && low in vs && first in vs && last in vs;
    forall i | 0 <= i < n ensures Apart(path[i], top) && Apart(path[i], low) {
      Orders(path[i].clock, top.clock);
      Orders(top.clock, path[i].clock);
      Orders(path[i].clock, low.clock);
      Orders(low.clock, path[i].clock);
    }
    Orders(last.clock, low.clock);
    var inner := path[..n];
    PathTail(vs, path, n - 1);
    if last.timestamp >= top.timestamp {
      assert Trap(vs, low, last, top);
    } else if first.timestamp > top.timestamp {
      Crossing(vs, inner, top);
    } else if low.timestamp < first.timestamp {
      Crossing(vs, inner, low);
    } else if low.timestamp > first.timestamp {
      assert Trap(vs, low, first, top);
    } else {
      TiedCrossing(vs, inner, low, top);
    }
  }

  lemma {:induction false} TiedCrossing(vs: set<Version>, path: seq<Version>, low: Version, top: Version)
    requires Path(vs, path) && low in vs && top in vs && Dominated(low, top)
    requires forall i :: 0 <= i < |path| ==> Apart(path[i], low) && Apart(path[i], top)
    requires forall i :: 0 <= i < |path| ==> Apart(low, path[i]) && Apart(top, path[i])
    requires path[|path| - 1].timestamp < top.timestamp == low.timestamp <= path[0].timestamp
    ensures !TrapFree(vs)
    decreases |path|
  {
    var a, b := path[0], path[1];
    assert TakesOver(a, b) && a in vs && b in vs;
    if b.timestamp >= top.timestamp {
      PathTail(vs, path, 1);
      TiedCrossing(vs, path[1..], low, top);
    } else if a.timestamp > top.timestamp {
      assert Trap(vs, a, top, b);
    } else {
      assert TiedTrap(vs, low, top, a, b);
    }
  }

  /** Without traps no path leads from a version, or from one that beat it, to one it dominates. */
  lemma {:induction false} NoMisleadingPath(vs: set<Version>, path: seq<Version>, top: Version)
    requires TrapFree(vs) && Path(vs, path) && top in vs && Covers(path[0], top)
    ensures !Dominated(path[|path| - 1], top)
    decreases |path|
  {
    var n := |path| - 1;
    var first, low := path[0], path[n];
    Orders(low.clock, top.clock);
    Orders(low.clock, first.clock);
    Orders(first.clock, low.clock);
    Orders(first.clock, top.clock);
    Orders(top.clock, first.clock);
    if Dominated(low, top) && n > 0 {
      var t := if Dominated(low, first) then first else top;
      forall i | 1 <= i < n ensures Apart(t, path[i]) && Apart(low, path[i]) {
        PathTail(vs, path, i);
        Between(low, path[i], t);
        if Dominated(low, path[i]) {
          NoMisleadingPath(vs, path[i..], path[i]);
        } else if Dominated(path[i], t) {
          NoMisleadingPath(vs, path[..i + 1], t);
        }
      }
      if t == first {
        FromFirst(vs, path);
      } else {
        FromCovered(vs, path, top);
      }
    }
  }

  /** What lies between a version and one that dominates it is dominated by one or dominates the other. */
  lemma Between(low: Version, v: Version, top: Version)
    requires Dominated(low, top)
    ensures Dominated(low, v) || Dominated(v, top) || (Apart(top, v) && Apart(low, v))
  {
  }

  /** From a version on, the best so far moves along a path. */
  lemma {:induction false} BestPath(list: seq<Version>, vs: set<Version>, k: nat) returns (path: seq<Version>)
    requires Over(list, vs) && k < |list|
    ensures Path(vs, path) && path[|path| - 1] == Winner(list) && Covers(path[0], list[k])
  {
    var n := |list| - 1;
    if n == 0 {
      path := [list[0]];
    } else {
      var best, next := Winner(list[..n]), list[n];
      PickTakesOver(best, next);
      if k < n {
        path := BestPath(list[..n], vs, k);
        if Winner(list) != best {
          path := path + [next];
        }
      } else {
        var before := BestPath(list[..n], vs, 0);
        assert best in vs by {
          assert before[|before| - 1] in before;
        }
        path := [Winner(list)];
      }
    }
  }

  lemma PickTakesOver(best: Version, next: Version)
    ensures Pick(best, next) == next || Pick(best, next) == best
    ensures Pick(best, next) != best ==> TakesOver(best, next)
    ensures Covers(Pick(best, next), next)
  {
  }

  /** The resolver never returns a version that another candidate causally follows, for any list over
      the candidates in any order and with repetitions, exactly when the candidates form no trap. */
  lemma NeverMisledIff(vs: set<Version>)
    ensures (forall list :: list != [] && Over(list, vs) ==> Undominated(list)) <==> TrapFree(vs)
  {
    if TrapFree(vs) {
      forall list | list != [] && Over(list, vs) ensures Undominated(list) {
        TrapFreeWinner(list, vs);
      }
    } else if low, mid, top :| Trap(vs, low, mid, top) {
      TrapMisleads(vs, low, mid, top);
    } else {
      var low, top, prior, later :| TiedTrap(vs, low, top, prior, later);
      TiedTrapMisleads(vs, low, top, prior, later);
    }
  }

  lemma TrapFreeWinner(list: seq<Version>, vs: set<Version>)
    requires list != [] && Over(list, vs) && TrapFree(vs)
    ensures Undominated(list)
  {
    forall v | v in list ensures !Dominated(Winner(list), v) {
      var k :| 0 <= k < |list| && list[k] == v;
      var path := BestPath(list, vs, k);
      NoMisleadingPath(vs, path, v);
    }
  }

  lemma TrapMisleads(vs: set<Version>, low: Version, mid: Version, top: Version)
    requires Trap(vs, low, mid, top)
    ensures Over([mid, top, low], vs) && Winner([mid, top, low]) == low && top in [mid, top, low]
    ensures !Undominated([mid, top, low])
  {
    var list := [mid, top, low];
    assert list[..2] == [mid, top] && [mid, top][..1] == [mid];
    assert Winner([mid, top]) == Pick(Winner([mid, top][..1]), top) == mid;
    assert Winner(list) == Pick(Winner(list[..2]), low) == low;
  }

  lemma TiedTrapMisleads(vs: set<Version>, low: Version, top: Version, prior: Version, later: Version)
    requires TiedTrap(vs, low, top, prior, later)
    ensures Over([prior, top, later, low], vs) && Winner([prior, top, later, low]) == low
    ensures !Undominated([prior, top, later, low])
  {
    var list := [prior, top, later, low];
    assert list[..3] == [prior, top, later] && [prior, top, later][..2] == [prior, top] && [prior, top][..1] == [prior];
    assert Winner([prior, top]) == Pick(Winner([prior, top][..1]), top) == prior;
    assert Winner([prior, top, later]) == Pick(Winner([prior, top, later][..2]), later) == later;
    assert Winner(list) == Pick(Winner(list[..3]), low) == low;
    assert top in list;
  }
}
