/** The consistent-hash ring (Cluster/hashring/hashring.go): a sorted array of positions, two maps
    and a binary search, against a specification by clockwise distance. */
module HashRing {
  import opened Common
  import opened Sequences
  import opened SortedSeqs

  type Addr = string

  /** Ring positions are uint64. */
  const RING_SIZE: nat := 0x1_0000_0000_0000_0000

  type Position = p: nat | p < RING_SIZE

  // ---------------------------------------------------------------- virtual nodes

  function Digits(n: nat): string {
    if n < 10 then [('0' as int + n) as char] else Digits(n / 10) + [('0' as int + n % 10) as char]
  }

  function Label(addr: Addr, i: nat): string {
    addr + ":vnode:" + Digits(i)
  }

  /** The number that a string of decimal digits stands for. */
  function Value(ds: string): int {
    if ds == "" then 0 else 10 * Value(ds[..|ds| - 1]) + (ds[|ds| - 1] as int - '0' as int)
  }

  lemma {:induction false} DigitsAreDecimal(n: nat)
    ensures Digits(n) != "" && Value(Digits(n)) == n
    ensures forall k :: 0 <= k < |Digits(n)| ==> '0' <= Digits(n)[k] <= '9'
  {
    if n < 10 {
      assert Digits(n)[..0] == "";
    } else {
      DigitsAreDecimal(n / 10);
      var last := [('0' as int + n % 10) as char];
      assert Digits(n) == Digits(n / 10) + last;
      assert Digits(n)[..|Digits(n)| - 1] == Digits(n / 10);
    }
  }

  /** A label is the address, the separator and the index in decimal. */
  lemma LabelReads(addr: Addr, i: nat)
    ensures var s := Label(addr, i);
      && |s| > |addr| + 7 && s[..|addr|] == addr && s[|addr|..|addr| + 7] == ":vnode:"
      && Value(s[|addr| + 7..]) == i && forall k :: |addr| + 7 <= k < |s| ==> '0' <= s[k] <= '9'
  {
    var s := Label(addr, i);
    DigitsAreDecimal(i);
    assert s[|addr|..|addr| + 7] == ":vnode:";
    assert s[|addr| + 7..] == Digits(i);
    forall k | |addr| + 7 <= k < |s| ensures '0' <= s[k] <= '9' {
      assert s[k] == Digits(i)[k - |addr| - 7];
    }
  }

  lemma LongerAddress(a: Addr, i: nat, b: Addr, j: nat)
    requires |a| < |b|
    ensures Label(a, i) != Label(b, j)
  {
    LabelReads(a, i);
    LabelReads(b, j);
    assert Label(b, j)[|b| + 6] == ":vnode:"[6] == ':';
  }

  /** No two virtual nodes share a label, whatever the addresses contain. */
  lemma LabelIdentifies(a: Addr, i: nat, b: Addr, j: nat)
    ensures Label(a, i) == Label(b, j) <==> a == b && i == j
  {
    if Label(a, i) == Label(b, j) {
      LabelReads(a, i);
      LabelReads(b, j);
      if |a| < |b| {
        LongerAddress(a, i, b, j);
      } else if |b| < |a| {
        LongerAddress(b, j, a, i);
      }
    }
  }

  /** Where keys and virtual nodes lie, and the number of virtual nodes per address. */
  datatype Params = Params(hash: string -> Position, place: (Addr, nat) -> Position, virtualNodes: nat)

  const DEFAULT_VIRTUAL_NODES: nat := 150
  const DEFAULT_REPLICATION_FACTOR: nat := 3

  /** The ring's own parameters: hashKey (the first eight bytes of SHA-256) places keys, and virtual
      nodes by their labels. */
  function Configured(hashKey: string -> Position, virtualNodes: nat): Params {
    Params(hashKey, (addr, i) => hashKey(Label(addr, i)), virtualNodes)
  }

  function VNode(ps: Params, addr: Addr, i: nat): Position {
    ps.place(addr, i)
  }

  function VNodes(ps: Params, addr: Addr): (hs: seq<nat>)
    ensures |hs| == ps.virtualNodes
    ensures forall i :: 0 <= i < |hs| ==> hs[i] == VNode(ps, addr, i)
  {
    seq(ps.virtualNodes, i requires 0 <= i < ps.virtualNodes => VNode(ps, addr, i))
  }

  ghost predicate CollisionFree(ps: Params, nodes: set<Addr>) {
    forall a, b, i: nat, j: nat ::
      a in nodes && b in nodes && i < ps.virtualNodes && j < ps.virtualNodes && VNode(ps, a, i) == VNode(ps, b, j)
      ==> a == b && i == j
  }

  /** `hashKey` tells the labels of these nodes apart. */
  ghost predicate Separates(hashKey: string -> Position, virtualNodes: nat, nodes: set<Addr>) {
    forall a, b, i: nat, j: nat ::
      a in nodes && b in nodes && i < virtualNodes && j < virtualNodes && hashKey(Label(a, i)) == hashKey(Label(b, j))
      ==> Label(a, i) == Label(b, j)
  }

  /** A ring as it is constructed is free of collisions exactly when the hash function is, on the labels. */
  lemma ConfiguredCollisionFreeIff(hashKey: string -> Position, virtualNodes: nat, nodes: set<Addr>)
    ensures CollisionFree(Configured(hashKey, virtualNodes), nodes) <==> Separates(hashKey, virtualNodes, nodes)
  {
    var ps := Configured(hashKey, virtualNodes);
    forall a, b, i: nat, j: nat ensures Label(a, i) == Label(b, j) <==> a == b && i == j {
      LabelIdentifies(a, i, b, j);
    }
    if CollisionFree(ps, nodes) {
      forall a, b, i: nat, j: nat
        | a in nodes && b in nodes && i < virtualNodes && j < virtualNodes && hashKey(Label(a, i)) == hashKey(Label(b, j))
        ensures Label(a, i) == Label(b, j)
      {
        assert VNode(ps, a, i) == VNode(ps, b, j);
      }
    }
  }

  // ---------------------------------------------------------------- the representation

  datatype View = View(sorted: seq<nat>, owner: map<nat, Addr>, vnodes: map<Addr, seq<nat>>)

  const EMPTY_RING := View([], map[], map[])

  /** `w` is the ring of the address set `nodes`. */
  ghost predicate IsRing(ps: Params, nodes: set<Addr>, w: View) {
    && w.vnodes.Keys == nodes
    && (forall a :: a in nodes ==> w.vnodes[a] == VNodes(ps, a))
    && StrictlySorted(w.sorted)
    && (forall h :: h in w.sorted <==> h in w.owner)
    && (forall a, h :: a in nodes && h in VNodes(ps, a) ==> h in w.owner && w.owner[h] == a)
    && (forall h :: h in w.owner ==> w.owner[h] in nodes && h in VNodes(ps, w.owner[h]))
  }

  function Place(owner: map<nat, Addr>, hs: seq<nat>, addr: Addr): (r: map<nat, Addr>)
    ensures forall h :: h in r <==> h in owner || h in hs
    ensures forall h :: h in r ==> r[h] == if h in hs then addr else owner[h]
  {
    if hs == [] then owner else Place(owner, hs[..|hs| - 1], addr)[hs[|hs| - 1] := addr]
  }

  function Added(ps: Params, w: View, addr: Addr): View {
    if addr in w.vnodes then w
    else
      View(Sort(w.sorted + VNodes(ps, addr)), Place(w.owner, VNodes(ps, addr), addr), w.vnodes[addr := VNodes(ps, addr)])
  }

  function Removed(w: View, addr: Addr): View {
    if addr !in w.vnodes then w
    else
      View(Without(w.sorted, Elements(w.vnodes[addr])), w.owner - Elements(w.vnodes[addr]), w.vnodes - {addr})
  }

  /** The ring is a function of its membership: neither the order of additions nor any earlier
      joins and leaves can be told from the stored arrays and maps. */
  lemma RingUnique(ps: Params, nodes: set<Addr>, w1: View, w2: View)
    requires IsRing(ps, nodes, w1) && IsRing(ps, nodes, w2)
    ensures w1 == w2
  {
    forall h ensures h in w1.owner <==> h in w2.owner {
      OwnerKept(ps, nodes, w1, w2, h);
      OwnerKept(ps, nodes, w2, w1, h);
    }
    forall h | h in w1.owner ensures w1.owner[h] == w2.owner[h] {
      OwnerKept(ps, nodes, w1, w2, h);
    }
    assert w1.owner == w2.owner;
    StrictlySortedUnique(w1.sorted, w2.sorted);
    assert w1.vnodes == w2.vnodes;
  }

  lemma OwnerKept(ps: Params, nodes: set<Addr>, w1: View, w2: View, h: nat)
    requires IsRing(ps, nodes, w1) && IsRing(ps, nodes, w2)
    ensures h in w1.owner ==> h in w2.owner && w1.owner[h] == w2.owner[h]
  {
  }

  lemma CollisionFreeOwners(ps: Params, nodes: set<Addr>, a: Addr, b: Addr, h: nat)
    requires CollisionFree(ps, nodes) && a in nodes && b in nodes
    requires h in VNodes(ps, a) && h in VNodes(ps, b)
    ensures a == b
  {
    var i :| 0 <= i < ps.virtualNodes && VNodes(ps, a)[i] == h;
    var j :| 0 <= j < ps.virtualNodes && VNodes(ps, b)[j] == h;
    assert VNode(ps, a, i) == VNode(ps, b, j);
  }

  lemma CollisionFreeDistinct(ps: Params, nodes: set<Addr>, a: Addr)
    requires CollisionFree(ps, nodes) && a in nodes
    ensures Distinct(VNodes(ps, a))
  {
    forall i, j | 0 <= i < j < ps.virtualNodes ensures VNodes(ps, a)[i] != VNodes(ps, a)[j] {
      assert VNode(ps, a, i) != VNode(ps, a, j);
    }
  }

  /** The positions of a joining node are new. */
  lemma FreshPositions(ps: Params, nodes: set<Addr>, w: View, addr: Addr)
    requires IsRing(ps, nodes, w) && addr !in nodes && CollisionFree(ps, nodes + {addr})
    ensures forall h :: h in VNodes(ps, addr) ==> h !in w.sorted
  {
    forall h | h in VNodes(ps, addr) ensures h !in w.sorted {
      if h in w.sorted {
        CollisionFreeOwners(ps, nodes + {addr}, addr, w.owner[h], h);
        assert false;
      }
    }
  }

  lemma DistinctConcat(s: seq<nat>, t: seq<nat>)
    requires Distinct(s) && Distinct(t) && forall h :: h in t ==> h !in s
    ensures Distinct(s + t)
  {
    var u := s + t;
    forall i, j | 0 <= i < j < |u| ensures u[i] != u[j] {
      if i < |s| <= j {
        assert u[j] in t;
      }
    }
  }

  lemma StrictFromSort(s: seq<nat>, t: seq<nat>)
    requires Distinct(s) && Distinct(t) && forall h :: h in t ==> h !in s
    ensures StrictlySorted(Sort(s + t)) && forall h :: h in Sort(s + t) <==> h in s || h in t
  {
    DistinctConcat(s, t);
    SortOfDistinct(s + t);
  }

  lemma SortOfDistinct(u: seq<nat>)
    requires Distinct(u)
    ensures StrictlySorted(Sort(u)) && forall h :: h in Sort(u) <==> h in u
  {
    SortSorted(u);
    DistinctCounts(u);
    CountsDistinct(Sort(u), Elements(u));
    forall h ensures h in Sort(u) <==> h in u {
      assert h in Elements(Sort(u)) <==> h in Elements(u);
    }
  }

  lemma AddedIsRing(ps: Params, nodes: set<Addr>, w: View, addr: Addr)
    requires IsRing(ps, nodes, w) && CollisionFree(ps, nodes + {addr})
    ensures IsRing(ps, nodes + {addr}, Added(ps, w, addr))
  {
    if addr in nodes {
      assert nodes + {addr} == nodes;
    } else {
      FreshPositions(ps, nodes, w, addr);
      CollisionFreeDistinct(ps, nodes + {addr}, addr);
      StrictFromSort(w.sorted, VNodes(ps, addr));
    }
  }

  lemma RemovedOwners(ps: Params, nodes: set<Addr>, w: View, addr: Addr)
    requires IsRing(ps, nodes, w) && addr in nodes
    ensures var r := Removed(w, addr);
      && (forall h :: h in r.owner <==> h in w.owner && w.owner[h] != addr)
      && (forall h :: h in r.owner ==> r.owner[h] == w.owner[h])
  {
    var hs := VNodes(ps, addr);
    forall h ensures h in w.owner && h in Elements(hs) <==> h in w.owner && w.owner[h] == addr {}
  }

  lemma RemovedSorted(ps: Params, nodes: set<Addr>, w: View, addr: Addr)
    requires IsRing(ps, nodes, w) && addr in nodes
    ensures forall h :: h in Removed(w, addr).sorted <==> h in Removed(w, addr).owner
  {
    WithoutMembers(w.sorted, Elements(VNodes(ps, addr)));
  }

  lemma RemovedIsRing(ps: Params, nodes: set<Addr>, w: View, addr: Addr)
    requires IsRing(ps, nodes, w)
    ensures IsRing(ps, nodes - {addr}, Removed(w, addr))
  {
    if addr !in nodes {
      assert nodes - {addr} == nodes;
    } else {
      var r := Removed(w, addr);
      RemovedOwners(ps, nodes, w, addr);
      WithoutSorted(w.sorted, Elements(VNodes(ps, addr)));
      assert r.vnodes.Keys == nodes - {addr};
      RemovedSorted(ps, nodes, w, addr);
      forall a, h | a in nodes - {addr} && h in VNodes(ps, a) ensures h in r.owner && r.owner[h] == a {
        assert h in w.owner && w.owner[h] == a;
      }
    }
  }

  lemma AddedKeepsRings(ps: Params, w: View, addr: Addr)
    ensures forall nodes :: IsRing(ps, nodes, w) && CollisionFree(ps, nodes + {addr}) ==>
              IsRing(ps, nodes + {addr}, Added(ps, w, addr))
  {
    forall nodes | IsRing(ps, nodes, w) && CollisionFree(ps, nodes + {addr})
      ensures IsRing(ps, nodes + {addr}, Added(ps, w, addr))
    {
      AddedIsRing(ps, nodes, w, addr);
    }
  }

  lemma RemovedKeepsRings(ps: Params, w: View, addr: Addr)
    ensures forall nodes :: IsRing(ps, nodes, w) ==> IsRing(ps, nodes - {addr}, Removed(w, addr))
  {
    forall nodes | IsRing(ps, nodes, w) ensures IsRing(ps, nodes - {addr}, Removed(w, addr)) {
      RemovedIsRing(ps, nodes, w, addr);
    }
  }

  /** Adding a node and removing it again restores every array and map. */
  lemma AddRemoveRestores(ps: Params, nodes: set<Addr>, w: View, addr: Addr)
    requires IsRing(ps, nodes, w) && addr !in nodes && CollisionFree(ps, nodes + {addr})
    ensures Removed(Added(ps, w, addr), addr) == w
  {
    AddedIsRing(ps, nodes, w, addr);
    RemovedIsRing(ps, nodes + {addr}, Added(ps, w, addr), addr);
    assert nodes + {addr} - {addr} == nodes;
    RingUnique(ps, nodes, Removed(Added(ps, w, addr), addr), w);
  }

  function AddAll(ps: Params, w: View, addrs: seq<Addr>): View
    decreases |addrs|
  {
    if addrs == [] then w else AddAll(ps, Added(ps, w, addrs[0]), addrs[1..])
  }

  lemma SubsetCollisionFree(ps: Params, small: set<Addr>, large: set<Addr>)
    requires small <= large && CollisionFree(ps, large)
    ensures CollisionFree(ps, small)
  {
  }

  lemma {:induction false} AddAllIsRing(ps: Params, nodes: set<Addr>, w: View, addrs: seq<Addr>)
    requires IsRing(ps, nodes, w) && CollisionFree(ps, nodes + Elements(addrs))
    ensures IsRing(ps, nodes + Elements(addrs), AddAll(ps, w, addrs))
    decreases |addrs|
  {
    if addrs == [] {
      assert nodes + Elements(addrs) == nodes;
    } else {
      var more := nodes + {addrs[0]};
      assert addrs[0] in Elements(addrs);
      assert more + Elements(addrs[1..]) == nodes + Elements(addrs);
      SubsetCollisionFree(ps, more, nodes + Elements(addrs));
      AddedIsRing(ps, nodes, w, addrs[0]);
      AddAllIsRing(ps, more, Added(ps, w, addrs[0]), addrs[1..]);
    }
  }

  /** On a ring of these nodes the stored positions are those of the labels "<addr>:vnode:<i>", each owned
      by the address in its label. */
  ghost predicate Labelled(hashKey: string -> Position, virtualNodes: nat, nodes: set<Addr>, w: View) {
    && (forall a, i: nat :: a in nodes && i < virtualNodes ==> Owned(w, hashKey(Label(a, i)), a))
    && (forall h :: h in w.sorted ==> h in w.owner && AtLabel(hashKey, virtualNodes, w.owner[h], h))
  }

  ghost predicate Owned(w: View, h: nat, a: Addr) {
    h in w.sorted && h in w.owner && w.owner[h] == a
  }

  ghost predicate AtLabel(hashKey: string -> Position, virtualNodes: nat, a: Addr, h: nat) {
    exists i: nat :: i < virtualNodes && h == hashKey(Label(a, i))
  }

  lemma RingIsLabelled(hashKey: string -> Position, virtualNodes: nat, nodes: set<Addr>, w: View)
    requires IsRing(Configured(hashKey, virtualNodes), nodes, w)
    ensures Labelled(hashKey, virtualNodes, nodes, w)
  {
    var ps := Configured(hashKey, virtualNodes);
    forall a, i: nat | a in nodes && i < virtualNodes ensures Owned(w, hashKey(Label(a, i)), a) {
      assert VNodes(ps, a)[i] == hashKey(Label(a, i));
    }
    forall h | h in w.sorted ensures h in w.owner && AtLabel(hashKey, virtualNodes, w.owner[h], h) {
      var i :| 0 <= i < |VNodes(ps, w.owner[h])| && VNodes(ps, w.owner[h])[i] == h;
    }
  }

  /** The ring a node really builds: if the hash function tells the labels apart, any additions give the
      ring of their addresses, with every virtual node at its label's position. */
  lemma ConfiguredRing(hashKey: string -> Position, virtualNodes: nat, addrs: seq<Addr>)
    requires Separates(hashKey, virtualNodes, Elements(addrs))
    ensures IsRing(Configured(hashKey, virtualNodes), Elements(addrs), AddAll(Configured(hashKey, virtualNodes), EMPTY_RING, addrs))
    ensures Labelled(hashKey, virtualNodes, Elements(addrs), AddAll(Configured(hashKey, virtualNodes), EMPTY_RING, addrs))
  {
    var ps := Configured(hashKey, virtualNodes);
    ConfiguredCollisionFreeIff(hashKey, virtualNodes, Elements(addrs));
    assert {} + Elements(addrs) == Elements(addrs);
    AddAllIsRing(ps, {}, EMPTY_RING, addrs);
    RingIsLabelled(hashKey, virtualNodes, Elements(addrs), AddAll(ps, EMPTY_RING, addrs));
  }

  /** Any two additions of the same addresses, in any order and with repetitions, build one ring. */
  lemma OrderOfAdditionsIrrelevant(ps: Params, xs: seq<Addr>, ys: seq<Addr>)
    requires Elements(xs) == Elements(ys) && CollisionFree(ps, Elements(xs))
    ensures AddAll(ps, EMPTY_RING, xs) == AddAll(ps, EMPTY_RING, ys)
  {
    assert {} + Elements(xs) == Elements(xs) && {} + Elements(ys) == Elements(ys);
    AddAllIsRing(ps, {}, EMPTY_RING, xs);
    AddAllIsRing(ps, {}, EMPTY_RING, ys);
    RingUnique(ps, Elements(xs), AddAll(ps, EMPTY_RING, xs), AddAll(ps, EMPTY_RING, ys));
  }

  lemma SortedRestoresIff(sorted: seq<nat>, hs: seq<nat>)
    requires Sorted(sorted)
    ensures Without(Sort(sorted + hs), Elements(hs)) == sorted <==> forall h :: h in hs ==> h !in sorted
  {
    var grown := Sort(sorted + hs);
    var back := Without(grown, Elements(hs));
    SortSorted(sorted + hs);
    WithoutSorted(grown, Elements(hs));
    WithoutMembers(grown, Elements(hs));
    if forall h :: h in hs ==> h !in sorted {
      forall x ensures multiset(back)[x] == multiset(sorted)[x] {
        if x is nat {
          WithoutCounts(grown, Elements(hs), x);
          assert multiset(grown) == multiset(sorted) + multiset(hs);
          assert x in hs <==> x in multiset(hs);
          assert x in sorted <==> x in multiset(sorted);
        }
      }
      assert multiset(back) == multiset(sorted);
      SortedUnique(back, sorted);
    } else {
      var h :| h in hs && h in sorted;
      assert h !in back;
    }
  }

  /** Without the hypothesis: on any sorted array with its owners, removing what was just added restores
      every array and map exactly when no position of the added node was there before. */
  lemma AddRemoveRestoresIff(ps: Params, w: View, addr: Addr)
    requires Sorted(w.sorted) && addr !in w.vnodes && forall h :: h in w.sorted <==> h in w.owner
    ensures Removed(Added(ps, w, addr), addr) == w <==> forall h :: h in VNodes(ps, addr) ==> h !in w.sorted
  {
    var hs := VNodes(ps, addr);
    RemovedAfterAdded(ps, w, addr);
    SortedRestoresIff(w.sorted, hs);
    if forall h :: h in hs ==> h !in w.sorted {
      OwnersRestored(w.owner, hs, addr);
    }
  }

  lemma RemovedAfterAdded(ps: Params, w: View, addr: Addr)
    requires addr !in w.vnodes
    ensures var hs := VNodes(ps, addr);
      Removed(Added(ps, w, addr), addr)
        == View(Without(Sort(w.sorted + hs), Elements(hs)), Place(w.owner, hs, addr) - Elements(hs), w.vnodes)
  {
    PutThenDrop(w.vnodes, addr, VNodes(ps, addr));
    assert Added(ps, w, addr).vnodes[addr] == VNodes(ps, addr);
  }

  lemma PutThenDrop(m: map<Addr, seq<nat>>, addr: Addr, hs: seq<nat>)
    requires addr !in m
    ensures m[addr := hs] - {addr} == m
  {
  }

  lemma OwnersRestored(owner: map<nat, Addr>, hs: seq<nat>, addr: Addr)
    requires forall h :: h in hs ==> h !in owner
    ensures Place(owner, hs, addr) - Elements(hs) == owner
  {
  }

  // ---------------------------------------------------------------- clockwise order

  /** Clockwise distance on the ring from `from` to `to`. */
  function Clockwise(from: Position, to: nat): nat {
    if to >= from then to - from else to + RING_SIZE - from
  }

  function Nearest(from: Position, hs: seq<nat>): nat
    requires hs != []
  {
    if |hs| == 1 then Clockwise(from, hs[0])
    else
      var rest := Nearest(from, hs[1..]);
      if Clockwise(from, hs[0]) <= rest then Clockwise(from, hs[0]) else rest
  }

  /** How far clockwise from the key the first virtual node of `addr` lies. */
  function Distance(ps: Params, key: string, addr: Addr): nat
    requires ps.virtualNodes > 0
  {
    Nearest(ps.hash(key), VNodes(ps, addr))
  }

  lemma {:induction false} NearestIsLeast(from: Position, hs: seq<nat>)
    requires hs != []
    ensures forall h :: h in hs ==> Nearest(from, hs) <= Clockwise(from, h)
    ensures exists h :: h in hs && Nearest(from, hs) == Clockwise(from, h)
  {
    assert hs[0] in hs;
    if |hs| > 1 {
      NearestIsLeast(from, hs[1..]);
      forall h | h in hs ensures h == hs[0] || h in hs[1..] {}
    }
  }

  lemma ClockwiseInjective(from: Position, p: Position, q: Position)
    ensures Clockwise(from, p) == Clockwise(from, q) <==> p == q
  {
  }

  lemma PositionsOf(ps: Params, a: Addr, h: nat)
    requires h in VNodes(ps, a)
    ensures h < RING_SIZE
  {
    var i :| 0 <= i < ps.virtualNodes && VNodes(ps, a)[i] == h;
  }

  /** Collision-free addresses are at different distances from any key. */
  lemma DistancesDiffer(ps: Params, key: string, nodes: set<Addr>, a: Addr, b: Addr)
    requires ps.virtualNodes > 0 && CollisionFree(ps, nodes) && a in nodes && b in nodes
    requires Distance(ps, key, a) == Distance(ps, key, b)
    ensures a == b
  {
    var kh := ps.hash(key);
    NearestIsLeast(kh, VNodes(ps, a));
    NearestIsLeast(kh, VNodes(ps, b));
    var h :| h in VNodes(ps, a) && Clockwise(kh, h) == Distance(ps, key, a);
    var g :| g in VNodes(ps, b) && Clockwise(kh, g) == Distance(ps, key, b);
    PositionsOf(ps, a, h);
    PositionsOf(ps, b, g);
    ClockwiseInjective(kh, h, g);
    CollisionFreeOwners(ps, nodes, a, b, h);
  }

  /** The specification of GetNodes: the min(n, |nodes|) addresses nearest clockwise, nearest first. */
  ghost predicate Owners(ps: Params, nodes: set<Addr>, key: string, n: nat, r: seq<Addr>)
    requires ps.virtualNodes > 0
  {
    && |r| == (if n <= |nodes| then n else |nodes|)
    && (forall i :: 0 <= i < |r| ==> r[i] in nodes)
    && (forall i, j :: 0 <= i < j < |r| ==> Distance(ps, key, r[i]) < Distance(ps, key, r[j]))
    && (forall i, y :: 0 <= i < |r| && y in nodes && y !in r ==> Distance(ps, key, r[i]) < Distance(ps, key, y))
  }

  lemma {:induction false} OwnersUnique(ps: Params, nodes: set<Addr>, key: string, n: nat, r: seq<Addr>, t: seq<Addr>, k: nat)
    requires ps.virtualNodes > 0 && CollisionFree(ps, nodes)
    requires Owners(ps, nodes, key, n, r) && Owners(ps, nodes, key, n, t) && k <= |r|
    ensures r[..k] == t[..k]
  {
    if k > 0 {
      OwnersUnique(ps, nodes, key, n, r, t, k - 1);
      OwnersAgreeAt(ps, nodes, key, n, r, t, k - 1);
      assert r[..k] == r[..k - 1] + [r[k - 1]] && t[..k] == t[..k - 1] + [t[k - 1]];
    }
  }

  lemma OwnersAgreeAt(ps: Params, nodes: set<Addr>, key: string, n: nat, r: seq<Addr>, t: seq<Addr>, k: nat)
    requires ps.virtualNodes > 0 && CollisionFree(ps, nodes)
    requires Owners(ps, nodes, key, n, r) && Owners(ps, nodes, key, n, t) && k < |r| && r[..k] == t[..k]
    ensures r[k] == t[k]
  {
    NotBefore(ps, nodes, key, n, r, t, k);
    NotBefore(ps, nodes, key, n, t, r, k);
    DistancesDiffer(ps, key, nodes, r[k], t[k]);
  }

  lemma NotBefore(ps: Params, nodes: set<Addr>, key: string, n: nat, r: seq<Addr>, t: seq<Addr>, k: nat)
    requires ps.virtualNodes > 0
    requires Owners(ps, nodes, key, n, r) && Owners(ps, nodes, key, n, t) && k < |r| && r[..k] == t[..k]
    ensures Distance(ps, key, r[k]) >= Distance(ps, key, t[k])
  {
    var x := r[k];
    if x in t {
      var j :| 0 <= j < |t| && t[j] == x;
      if j < k {
        assert r[..k][j] == t[..k][j];
        assert Distance(ps, key, r[j]) < Distance(ps, key, r[k]);
      }
    }
  }

  /** A prefix of the owner list is the owner list for a smaller n. */
  lemma OwnersPrefix(ps: Params, nodes: set<Addr>, key: string, n: nat, r: seq<Addr>, m: nat)
    requires ps.virtualNodes > 0 && Owners(ps, nodes, key, n, r) && m <= |r|
    ensures Owners(ps, nodes, key, m, r[..m])
  {
    forall i, y | 0 <= i < m && y in nodes && y !in r[..m]
      ensures Distance(ps, key, r[..m][i]) < Distance(ps, key, y)
    {
      PrefixIsNearer(ps, nodes, key, n, r, m, i, y);
    }
  }

  lemma PrefixIsNearer(ps: Params, nodes: set<Addr>, key: string, n: nat, r: seq<Addr>, m: nat, i: nat, y: Addr)
    requires ps.virtualNodes > 0 && Owners(ps, nodes, key, n, r) && i < m <= |r| && y in nodes && y !in r[..m]
    ensures Distance(ps, key, r[i]) < Distance(ps, key, y)
  {
    assert r == r[..m] + r[m..];
    if y in r[m..] {
      var j :| 0 <= j < |r[m..]| && r[m..][j] == y;
      assert r[m + j] == y;
    }
  }

  /** Minimal disruption. A join changes a key's owner list only by inserting the new node (and,
      when the list was full, pushing out its last entry); read backwards, a leave only deletes
      the node (and lets the next one in). */
  lemma MinimalDisruption(ps: Params, nodes: set<Addr>, x: Addr, key: string, n: nat, r: seq<Addr>, r': seq<Addr>)
    returns (p: nat)
    requires ps.virtualNodes > 0 && x !in nodes && CollisionFree(ps, nodes + {x})
    requires Owners(ps, nodes, key, n, r) && Owners(ps, nodes + {x}, key, n, r')
    ensures x !in r' ==> r' == r
    ensures x in r' ==> p < |r'| && r'[p] == x && |r'| - 1 <= |r| && r' == r[..p] + [x] + r[p..|r'| - 1]
  {
    SubsetCollisionFree(ps, nodes, nodes + {x});
    p := 0;
    if x !in r' {
      UndisturbedOwners(ps, nodes, x, key, n, r, r');
    } else {
      p :| 0 <= p < |r'| && r'[p] == x;
      var m := |r'| - 1;
      DropOwner(ps, nodes, x, key, n, r', p);
      assert m <= |r| by {
        assert |nodes + {x}| == |nodes| + 1;
      }
      OwnersPrefix(ps, nodes, key, n, r, m);
      var rest := DropAt(r', p);
      OwnersUnique(ps, nodes, key, m, rest, r[..m], m);
      assert rest == rest[..m] && r[..m] == r[..m][..m];
      Splice(r', r, p);
    }
  }

  lemma Splice<T>(r': seq<T>, r: seq<T>, p: nat)
    requires p < |r'| <= |r| + 1 && DropAt(r', p) == r[..|r'| - 1]
    ensures r' == r[..p] + [r'[p]] + r[p..|r'| - 1]
  {
    var rest := DropAt(r', p);
    assert rest[..p] == r'[..p] && rest[p..] == r'[p + 1..];
    assert r[..p] == r[..|r'| - 1][..p] && r[p..|r'| - 1] == r[..|r'| - 1][p..];
  }

  lemma UndisturbedOwners(ps: Params, nodes: set<Addr>, x: Addr, key: string, n: nat, r: seq<Addr>, r': seq<Addr>)
    requires ps.virtualNodes > 0 && x !in nodes && CollisionFree(ps, nodes)
    requires Owners(ps, nodes, key, n, r) && Owners(ps, nodes + {x}, key, n, r') && x !in r'
    ensures r' == r
  {
    assert |nodes + {x}| == |nodes| + 1;
    DistinctOwners(ps, nodes + {x}, key, n, r');
    DistinctCounts(r');
    assert x !in Elements(r');
    SmallerWithout(Elements(r'), nodes + {x}, x);
    OwnersUnique(ps, nodes, key, n, r, r', |r|);
    assert r[..|r|] == r && r'[..|r|] == r';
  }

  lemma DistinctOwners(ps: Params, nodes: set<Addr>, key: string, n: nat, r: seq<Addr>)
    requires ps.virtualNodes > 0 && Owners(ps, nodes, key, n, r)
    ensures Distinct(r)
  {
  }

  lemma SmallerWithout<T>(a: set<T>, b: set<T>, x: T)
    requires a <= b && x in b && x !in a
    ensures |a| < |b|
  {
    assert b == a + (b - a) && x in b - a;
  }

  function DropAt<T>(s: seq<T>, p: nat): seq<T>
    requires p < |s|
  {
    s[..p] + s[p + 1..]
  }

  function Shift(i: nat, p: nat): nat {
    if i < p then i else i + 1
  }

  lemma DropOwnerMember(ps: Params, nodes: set<Addr>, x: Addr, key: string, n: nat, r': seq<Addr>, p: nat, i: nat)
    requires ps.virtualNodes > 0 && x !in nodes && Owners(ps, nodes + {x}, key, n, r')
    requires p < |r'| && r'[p] == x && i < |r'| - 1
    ensures DropAt(r', p)[i] == r'[Shift(i, p)] && r'[Shift(i, p)] in nodes
  {
    var j := Shift(i, p);
    assert r'[j] in nodes + {x};
    assert Distance(ps, key, r'[j]) != Distance(ps, key, r'[p]);
  }

  lemma DropOwnerRest(ps: Params, nodes: set<Addr>, x: Addr, key: string, n: nat, r': seq<Addr>, p: nat, i: nat, y: Addr)
    requires ps.virtualNodes > 0 && x !in nodes && Owners(ps, nodes + {x}, key, n, r')
    requires p < |r'| && r'[p] == x && i < |r'| - 1 && y in nodes && y !in DropAt(r', p)
    ensures Distance(ps, key, r'[Shift(i, p)]) < Distance(ps, key, y)
  {
    DropAtKeeps(r', p, y);
  }

  lemma DropOwner(ps: Params, nodes: set<Addr>, x: Addr, key: string, n: nat, r': seq<Addr>, p: nat)
    requires ps.virtualNodes > 0 && x !in nodes && Owners(ps, nodes + {x}, key, n, r')
    requires p < |r'| && r'[p] == x
    ensures Owners(ps, nodes, key, |r'| - 1, DropAt(r', p))
  {
    var rest := DropAt(r', p);
    assert |nodes + {x}| == |nodes| + 1;
    forall i | 0 <= i < |rest| ensures rest[i] == r'[Shift(i, p)] && rest[i] in nodes {
      DropOwnerMember(ps, nodes, x, key, n, r', p, i);
    }
    forall i, y | 0 <= i < |rest| && y in nodes && y !in rest
      ensures Distance(ps, key, rest[i]) < Distance(ps, key, y)
    {
      DropOwnerRest(ps, nodes, x, key, n, r', p, i, y);
    }
  }

  lemma DropAtKeeps<T>(s: seq<T>, p: nat, y: T)
    requires p < |s| && y != s[p] && y !in DropAt(s, p)
    ensures y !in s
  {
    assert s == s[..p] + [s[p]] + s[p + 1..];
  }

  // ---------------------------------------------------------------- walking the sorted array

  /** Index of the i-th position met when walking clockwise from `start`. */
  function Walk(start: nat, i: nat, len: nat): (k: nat)
    requires start < len && i < len
    ensures k < len
  {
    if start + i < len then start + i else start + i - len
  }

  lemma WalkIsModulo(start: nat, i: nat, len: nat)
    requires start < len && i < len
    ensures Walk(start, i, len) == (start + i) % len
  {
    var q, r := (start + i) / len, (start + i) % len;
    assert start + i == q * len + r && 0 <= r < len;
    TwiceAtMost(q, len);
    assert q == 0 || q == 1;
  }

  lemma TwiceAtMost(q: nat, len: nat)
    ensures q >= 2 ==> q * len >= 2 * len
  {
    if q >= 2 {
      assert q * len == 2 * len + (q - 2) * len;
    }
  }

  /** `start` is where the binary search puts the key. */
  ghost predicate IsStart(sorted: seq<nat>, kh: Position, start: nat) {
    && start < |sorted|
    && (forall i :: 0 <= i < start ==> sorted[i] < kh)
    && (start > 0 || sorted[0] >= kh || forall i :: 0 <= i < |sorted| ==> sorted[i] < kh)
    && (start > 0 ==> sorted[start] >= kh)
  }

  lemma WalkIsClockwise(sorted: seq<nat>, kh: Position, start: nat, i: nat, j: nat)
    requires StrictlySorted(sorted) && IsStart(sorted, kh, start) && i < j < |sorted|
    requires forall k :: 0 <= k < |sorted| ==> sorted[k] < RING_SIZE
    ensures Clockwise(kh, sorted[Walk(start, i, |sorted|)]) < Clockwise(kh, sorted[Walk(start, j, |sorted|)])
  {
  }

  lemma WalkReaches(start: nat, k: nat, len: nat) returns (i: nat)
    requires start < len && k < len
    ensures i < len && Walk(start, i, len) == k
  {
    i := if k >= start then k - start else k + len - start;
  }

  /** Loop invariant of GetNodes: `nodes` holds the owners of the first `i` positions walked. */
  ghost predicate Collected(ps: Params, members: set<Addr>, w: View, key: string, start: nat, i: nat, nodes: seq<Addr>)
    requires ps.virtualNodes > 0 && IsRing(ps, members, w) && start < |w.sorted| && i <= |w.sorted|
  {
    var len := |w.sorted|;
    && (forall m :: 0 <= m < |nodes| ==> nodes[m] in members)
    && (forall m, m' :: 0 <= m < m' < |nodes| ==> Distance(ps, key, nodes[m]) < Distance(ps, key, nodes[m']))
    && (forall j :: 0 <= j < i ==> OwnerAt(w, Walk(start, j, len)) in nodes)
    && (forall m, j :: 0 <= m < |nodes| && i <= j < len ==>
          Distance(ps, key, nodes[m]) < Clockwise(ps.hash(key), w.sorted[Walk(start, j, len)]))
  }

  function OwnerAt(w: View, k: nat): Addr
    requires k < |w.sorted|
  {
    var h := w.sorted[k];
    if h in w.owner then w.owner[h] else ""
  }

  lemma RingPositions(ps: Params, members: set<Addr>, w: View)
    requires IsRing(ps, members, w)
    ensures forall k :: 0 <= k < |w.sorted| ==> w.sorted[k] < RING_SIZE && w.sorted[k] in w.owner
  {
    forall k | 0 <= k < |w.sorted| ensures w.sorted[k] < RING_SIZE && w.sorted[k] in w.owner {
      var h := w.sorted[k];
      assert h in w.sorted;
      PositionsOf(ps, w.owner[h], h);
    }
  }

  lemma OwnerDistance(ps: Params, members: set<Addr>, w: View, key: string, k: nat)
    requires ps.virtualNodes > 0 && IsRing(ps, members, w) && k < |w.sorted|
    ensures OwnerAt(w, k) in members
    ensures Distance(ps, key, OwnerAt(w, k)) <= Clockwise(ps.hash(key), w.sorted[k])
  {
    assert w.sorted[k] in w.sorted;
    NearestIsLeast(ps.hash(key), VNodes(ps, OwnerAt(w, k)));
  }

  /** Every member is met somewhere on the walk, first at its own distance. */
  lemma MemberMet(ps: Params, members: set<Addr>, w: View, key: string, start: nat, y: Addr) returns (j: nat)
    requires ps.virtualNodes > 0 && IsRing(ps, members, w) && start < |w.sorted| && y in members
    ensures j < |w.sorted| && OwnerAt(w, Walk(start, j, |w.sorted|)) == y
    ensures Distance(ps, key, y) == Clockwise(ps.hash(key), w.sorted[Walk(start, j, |w.sorted|)])
  {
    NearestIsLeast(ps.hash(key), VNodes(ps, y));
    var h :| h in VNodes(ps, y) && Distance(ps, key, y) == Clockwise(ps.hash(key), h);
    assert h in w.sorted;
    var k :| 0 <= k < |w.sorted| && w.sorted[k] == h;
    j := WalkReaches(start, k, |w.sorted|);
  }

  lemma LaterIsFarther(ps: Params, members: set<Addr>, w: View, key: string, start: nat, i: nat)
    requires IsRing(ps, members, w) && i < |w.sorted| && IsStart(w.sorted, ps.hash(key), start)
    ensures forall j :: i < j < |w.sorted| ==>
      Clockwise(ps.hash(key), w.sorted[Walk(start, i, |w.sorted|)]) < Clockwise(ps.hash(key), w.sorted[Walk(start, j, |w.sorted|)])
  {
    RingPositions(ps, members, w);
    forall j | i < j < |w.sorted|
      ensures Clockwise(ps.hash(key), w.sorted[Walk(start, i, |w.sorted|)]) < Clockwise(ps.hash(key), w.sorted[Walk(start, j, |w.sorted|)])
    {
      WalkIsClockwise(w.sorted, ps.hash(key), start, i, j);
    }
  }

  /** An owner met for the first time is met at its own distance, beyond all owners met before. */
  lemma NewOwnerIsFarther(ps: Params, members: set<Addr>, w: View, key: string, start: nat, i: nat, nodes: seq<Addr>, y: Addr)
    requires ps.virtualNodes > 0 && IsRing(ps, members, w) && i <= |w.sorted| && start < |w.sorted|
    requires Collected(ps, members, w, key, start, i, nodes) && y in members && y !in nodes
    ensures i < |w.sorted| && forall m :: 0 <= m < |nodes| ==> Distance(ps, key, nodes[m]) < Distance(ps, key, y)
  {
    var j := MemberMet(ps, members, w, key, start, y);
    assert j >= i;
  }

  lemma CollectKnown(ps: Params, members: set<Addr>, w: View, key: string, start: nat, i: nat, nodes: seq<Addr>)
    requires ps.virtualNodes > 0 && IsRing(ps, members, w) && i < |w.sorted| && start < |w.sorted|
    requires Collected(ps, members, w, key, start, i, nodes)
    requires OwnerAt(w, Walk(start, i, |w.sorted|)) in nodes
    ensures Collected(ps, members, w, key, start, i + 1, nodes)
  {
  }

  lemma CollectNew(ps: Params, members: set<Addr>, w: View, key: string, start: nat, i: nat, nodes: seq<Addr>, addr: Addr)
    requires ps.virtualNodes > 0 && IsRing(ps, members, w) && i < |w.sorted| && start < |w.sorted|
    requires Collected(ps, members, w, key, start, i, nodes)
    requires addr == OwnerAt(w, Walk(start, i, |w.sorted|)) && addr in members
    requires forall m :: 0 <= m < |nodes| ==> Distance(ps, key, nodes[m]) < Distance(ps, key, addr)
    requires forall j :: i < j < |w.sorted| ==>
      Distance(ps, key, addr) < Clockwise(ps.hash(key), w.sorted[Walk(start, j, |w.sorted|)])
    ensures Collected(ps, members, w, key, start, i + 1, nodes + [addr])
  {
    var more := nodes + [addr];
    forall j | 0 <= j < i + 1 ensures OwnerAt(w, Walk(start, j, |w.sorted|)) in more {
      assert j == i ==> more[|nodes|] == addr;
    }
    forall m, j | 0 <= m < |more| && i + 1 <= j < |w.sorted|
      ensures Distance(ps, key, more[m]) < Clockwise(ps.hash(key), w.sorted[Walk(start, j, |w.sorted|)])
    {
    }
  }

  /** One iteration of the walk. */
  lemma CollectOne(ps: Params, members: set<Addr>, w: View, key: string, start: nat, i: nat, nodes: seq<Addr>)
    requires ps.virtualNodes > 0 && IsRing(ps, members, w) && i < |w.sorted|
    requires IsStart(w.sorted, ps.hash(key), start) && Collected(ps, members, w, key, start, i, nodes)
    ensures var addr := OwnerAt(w, Walk(start, i, |w.sorted|));
      Collected(ps, members, w, key, start, i + 1, if addr in nodes then nodes else nodes + [addr])
  {
    var k := Walk(start, i, |w.sorted|);
    var addr := OwnerAt(w, k);
    if addr in nodes {
      CollectKnown(ps, members, w, key, start, i, nodes);
    } else {
      OwnerDistance(ps, members, w, key, k);
      NewOwnerIsFarther(ps, members, w, key, start, i, nodes, addr);
      LaterIsFarther(ps, members, w, key, start, i);
      CollectNew(ps, members, w, key, start, i, nodes, addr);
    }
  }

  lemma CollectedOwners(ps: Params, members: set<Addr>, w: View, key: string, n: nat, start: nat, i: nat, nodes: seq<Addr>)
    requires ps.virtualNodes > 0 && IsRing(ps, members, w) && i <= |w.sorted|
    requires start < |w.sorted| && Collected(ps, members, w, key, start, i, nodes)
    requires |nodes| <= Min(n, |members|) && (i == |w.sorted| || |nodes| == Min(n, |members|))
    ensures Owners(ps, members, key, n, nodes)
  {
    forall y | y in members && y !in nodes
      ensures i < |w.sorted| && forall m :: 0 <= m < |nodes| ==> Distance(ps, key, nodes[m]) < Distance(ps, key, y)
    {
      NewOwnerIsFarther(ps, members, w, key, start, i, nodes, y);
    }
    if i == |w.sorted| {
      assert Elements(nodes) == members;
      DistinctCounts(nodes);
    }
  }

  // ---------------------------------------------------------------- the imperative ring

  class Ring {
    const params: Params
    const replFactor: nat
    var sortedHashes: seq<nat>
    var hashToNode: map<nat, Addr>
    var nodeToHashes: map<Addr, seq<nat>>

    /** Non-positive settings fall back to the defaults. */
    constructor (hashKey: string -> Position, virtualNodes: int, replFactor: int)
      ensures params == Configured(hashKey, if virtualNodes > 0 then virtualNodes else 150)
      ensures params.virtualNodes > 0
      ensures this.replFactor == if replFactor > 0 then replFactor else 3
      ensures State() == EMPTY_RING && IsRing(params, {}, State())
    {
      params := Configured(hashKey, if virtualNodes > 0 then virtualNodes else DEFAULT_VIRTUAL_NODES);
      this.replFactor := if replFactor > 0 then replFactor else DEFAULT_REPLICATION_FACTOR;
      sortedHashes, hashToNode, nodeToHashes := [], map[], map[];
    }

    function State(): View
      reads this
    {
      View(sortedHashes, hashToNode, nodeToHashes)
    }

    method AddNode(addr: Addr)
      modifies this
      ensures State() == Added(params, old(State()), addr)
      ensures forall nodes :: IsRing(params, nodes, old(State())) && CollisionFree(params, nodes + {addr}) ==>
                IsRing(params, nodes + {addr}, State())
    {
      AddedKeepsRings(params, State(), addr);
      if addr in nodeToHashes {
        return;
      }
      var hashes := Insert(addr);
      nodeToHashes := nodeToHashes[addr := hashes];
      sortedHashes := Sort(sortedHashes);
    }

    /** The loop over virtual nodes. */
    method Insert(addr: Addr) returns (hashes: seq<nat>)
      modifies this
      ensures hashes == VNodes(params, addr)
      ensures sortedHashes == old(sortedHashes) + hashes
      ensures hashToNode == Place(old(hashToNode), hashes, addr) && nodeToHashes == old(nodeToHashes)
    {
      hashes := [];
      ghost var all := VNodes(params, addr);
      var i := 0;
      while i < params.virtualNodes
        invariant 0 <= i <= params.virtualNodes && hashes == all[..i]
        invariant sortedHashes == old(sortedHashes) + hashes
        invariant hashToNode == Place(old(hashToNode), hashes, addr)
        invariant nodeToHashes == old(nodeToHashes)
      {
        var h := params.place(addr, i);
        sortedHashes := sortedHashes + [h];
        hashToNode := hashToNode[h := addr];
        assert (hashes + [h])[..i] == hashes;
        hashes := hashes + [h];
        i := i + 1;
      }
    }

    method RemoveNode(addr: Addr)
      modifies this
      ensures State() == Removed(old(State()), addr)
      ensures forall nodes :: IsRing(params, nodes, old(State())) ==> IsRing(params, nodes - {addr}, State())
    {
      RemovedKeepsRings(params, State(), addr);
      if addr !in nodeToHashes {
        return;
      }
      var removeSet := Drop(nodeToHashes[addr]);
      nodeToHashes := nodeToHashes - {addr};
      var newSorted: seq<nat> := [];
      for i := 0 to |sortedHashes|
        invariant newSorted == Without(sortedHashes[..i], removeSet)
      {
        assert sortedHashes[..i + 1][..i] == sortedHashes[..i];
        if sortedHashes[i] !in removeSet {
          newSorted := newSorted + [sortedHashes[i]];
        }
      }
      assert sortedHashes[..|sortedHashes|] == sortedHashes;
      sortedHashes := newSorted;
    }

    /** The loop that forgets the owners of a node's positions. */
    method Drop(hashes: seq<nat>) returns (removeSet: set<nat>)
      modifies this`hashToNode
      ensures removeSet == Elements(hashes) && hashToNode == old(hashToNode) - removeSet
    {
      removeSet := {};
      for i := 0 to |hashes|
        invariant removeSet == Elements(hashes[..i])
        invariant hashToNode == old(hashToNode) - removeSet
      {
        assert hashes[..i + 1] == hashes[..i] + [hashes[i]];
        removeSet := removeSet + {hashes[i]};
        hashToNode := hashToNode - {hashes[i]};
      }
      assert hashes[..|hashes|] == hashes;
    }

    /** Binary search for the first position at or after `hash`, wrapping to 0. */
    method Search(hash: Position) returns (idx: nat)
      requires Sorted(sortedHashes) && sortedHashes != []
      ensures IsStart(sortedHashes, hash, idx)
    {
      var lo, hi := 0, |sortedHashes|;
      while lo < hi
        invariant 0 <= lo <= hi <= |sortedHashes|
        invariant forall i :: 0 <= i < lo ==> sortedHashes[i] < hash
        invariant forall i :: hi <= i < |sortedHashes| ==> sortedHashes[i] >= hash
      {
        var mid := (lo + hi) / 2;
        if sortedHashes[mid] >= hash {
          hi := mid;
        } else {
          lo := mid + 1;
        }
      }
      if lo >= |sortedHashes| {
        return 0;
      }
      idx := lo;
    }

    /** Up to n distinct owners, clockwise from the key. */
    method GetNodes(key: string, n: nat, ghost members: set<Addr>) returns (nodes: seq<Addr>)
      requires params.virtualNodes > 0 && IsRing(params, members, State())
      ensures Owners(params, members, key, n, nodes)
    {
      if |sortedHashes| == 0 {
        NoMembers(params, members, State());
        return [];
      }
      var total := |nodeToHashes|;
      assert |nodeToHashes.Keys| == total;
      var limit := if n > total then total else n;
      var keyHash := params.hash(key);
      var startIdx := Search(keyHash);
      ghost var walked;
      nodes, walked := Collect(State(), startIdx, limit);
      MetIsCollected(params, members, State(), key, startIdx, walked);
      CollectedOwners(params, members, State(), key, limit, startIdx, walked, nodes);
      assert limit == Min(n, |members|);
    }
  }

  /** The loop of GetNodes, on the ring as it is while the lock is held. */
  method Collect(w: View, startIdx: nat, limit: nat) returns (nodes: seq<Addr>, ghost walked: nat)
    requires startIdx < |w.sorted| && forall h :: h in w.sorted ==> h in w.owner
    ensures walked <= |w.sorted| && nodes == Met(w, startIdx, walked) && |nodes| <= limit
    ensures walked == |w.sorted| || |nodes| == limit
  {
    var seen: set<Addr> := {};
    nodes := [];
    var ringLen := |w.sorted|;
    var i := 0;
    while i < ringLen && |nodes| < limit
      invariant 0 <= i <= ringLen && |nodes| <= limit
      invariant seen == Elements(nodes) && nodes == Met(w, startIdx, i)
    {
      WalkIsModulo(startIdx, i, ringLen);
      var idx := (startIdx + i) % ringLen;
      assert w.sorted[idx] in w.sorted;
      var addr := w.owner[w.sorted[idx]];
      if addr !in seen {
        seen := seen + {addr};
        nodes := nodes + [addr];
      }
      i := i + 1;
    }
    walked := i;
  }

  /** The distinct owners of the first `i` positions walked, in the order they are met. */
  function Met(w: View, start: nat, i: nat): seq<Addr>
    requires start < |w.sorted| && i <= |w.sorted|
  {
    if i == 0 then []
    else
      var before := Met(w, start, i - 1);
      var addr := OwnerAt(w, Walk(start, i - 1, |w.sorted|));
      if addr in before then before else before + [addr]
  }

  /** The walk for a key may start here. */
  ghost predicate Walks(ps: Params, members: set<Addr>, w: View, key: string, start: nat) {
    ps.virtualNodes > 0 && IsRing(ps, members, w) && IsStart(w.sorted, ps.hash(key), start)
  }

  /** At every step of the walk up to here the owners met are the ones collected. */
  ghost predicate MetSoFar(ps: Params, members: set<Addr>, w: View, key: string, start: nat, i: nat)
    requires Walks(ps, members, w, key, start) && i <= |w.sorted|
  {
    Collected(ps, members, w, key, start, i, Met(w, start, i)) && (i > 0 ==> MetSoFar(ps, members, w, key, start, i - 1))
  }

  lemma MetStep(w: View, start: nat, i: nat)
    requires start < |w.sorted| && i < |w.sorted|
    ensures var before, addr := Met(w, start, i), OwnerAt(w, Walk(start, i, |w.sorted|));
      Met(w, start, i + 1) == if addr in before then before else before + [addr]
  {
  }

  lemma CollectStep(ps: Params, members: set<Addr>, w: View, key: string, start: nat, i: nat, before: seq<Addr>, after: seq<Addr>)
    requires ps.virtualNodes > 0 && IsRing(ps, members, w) && i < |w.sorted| && IsStart(w.sorted, ps.hash(key), start)
    requires Collected(ps, members, w, key, start, i, before)
    requires var addr := OwnerAt(w, Walk(start, i, |w.sorted|)); after == if addr in before then before else before + [addr]
    ensures Collected(ps, members, w, key, start, i + 1, after)
  {
    CollectOne(ps, members, w, key, start, i, before);
  }

  lemma {:induction false} MetIsCollected(ps: Params, members: set<Addr>, w: View, key: string, start: nat, i: nat)
    requires Walks(ps, members, w, key, start) && i <= |w.sorted|
    ensures MetSoFar(ps, members, w, key, start, i)
    decreases i
  {
    if i > 0 {
      MetIsCollected(ps, members, w, key, start, i - 1);
      MetOneMore(ps, members, w, key, start, i - 1);
    }
  }

  lemma MetOneMore(ps: Params, members: set<Addr>, w: View, key: string, start: nat, i: nat)
    requires Walks(ps, members, w, key, start) && i < |w.sorted| && MetSoFar(ps, members, w, key, start, i)
    ensures Collected(ps, members, w, key, start, i + 1, Met(w, start, i + 1))
  {
    MetStep(w, start, i);
    CollectStep(ps, members, w, key, start, i, Met(w, start, i), Met(w, start, i + 1));
  }

  lemma NoMembers(ps: Params, members: set<Addr>, w: View)
    requires ps.virtualNodes > 0 && IsRing(ps, members, w)
    ensures members == {} || w.sorted != []
  {
    if a :| a in members {
      assert VNodes(ps, a)[0] in VNodes(ps, a);
      assert VNodes(ps, a)[0] in w.sorted;
    }
  }
}
