/** Merkle trees over key sets and one anti-entropy repair (Cluster/merkle/merkle.go). */
module MerkleTree {
  import opened Common
  import opened Sequences
  import opened Sha256

  /** Keys are byte strings, ordered as sort.Strings orders them. */
  type Key = Bytes

  datatype Node = Leaf(key: Key) | Inner(left: Node, right: Node)

  // ---------------------------------------------------------------- the order on keys

  predicate KeyLe(a: Key, b: Key) {
    a == [] || (b != [] && (a[0] < b[0] || (a[0] == b[0] && KeyLe(a[1..], b[1..]))))
  }

  /** The order is lexicographic: a prefix comes first, and otherwise the first difference decides. */
  lemma {:induction false} KeyLeIff(a: Key, b: Key)
    ensures KeyLe(a, b) <==> a <= b || exists k :: 0 <= k < |a| && k < |b| && a[..k] == b[..k] && a[k] < b[k]
  {
    if a != [] && b != [] && a[0] == b[0] {
      KeyLeIff(a[1..], b[1..]);
      if k :| 0 <= k < |a[1..]| && k < |b[1..]| && a[1..][..k] == b[1..][..k] && a[1..][k] < b[1..][k] {
        assert a[..k + 1] == [a[0]] + a[1..][..k] && b[..k + 1] == [b[0]] + b[1..][..k];
        assert a[k + 1] < b[k + 1];
      }
      if k :| 0 <= k < |a| && k < |b| && a[..k] == b[..k] && a[k] < b[k] {
        assert a[1..][..k - 1] == a[..k][1..] && b[1..][..k - 1] == b[..k][1..];
        assert a[1..][k - 1] < b[1..][k - 1];
      }
      assert a <= b <==> a[1..] <= b[1..] by {
        assert a == [a[0]] + a[1..] && b == [b[0]] + b[1..];
      }
    } else if a != [] && b != [] && a[0] < b[0] {
      assert a[..0] == b[..0];
    }
  }

  lemma {:induction false} KeyTotal(a: Key, b: Key)
    ensures KeyLe(a, b) || KeyLe(b, a)
  {
    if a != [] && b != [] && a[0] == b[0] {
      KeyTotal(a[1..], b[1..]);
    }
  }

  lemma {:induction false} KeyAntisymmetric(a: Key, b: Key)
    requires KeyLe(a, b) && KeyLe(b, a)
    ensures a == b
  {
    if a != [] {
      KeyAntisymmetric(a[1..], b[1..]);
      assert a == [a[0]] + a[1..] && b == [b[0]] + b[1..];
    }
  }

  lemma {:induction false} KeyTransitive(a: Key, b: Key, c: Key)
    requires KeyLe(a, b) && KeyLe(b, c)
    ensures KeyLe(a, c)
  {
    if a != [] && a[0] == b[0] && b[0] == c[0] {
      KeyTransitive(a[1..], b[1..], c[1..]);
    }
  }

  ghost predicate InKeyOrder(s: seq<Key>) {
    forall i, j :: 0 <= i < j < |s| ==> KeyLe(s[i], s[j])
  }

  function InsertKey(k: Key, s: seq<Key>): (r: seq<Key>)
    ensures multiset(r) == multiset(s) + multiset{k}
  {
    if s == [] || KeyLe(k, s[0]) then [k] + s
    else assert s == [s[0]] + s[1..]; [s[0]] + InsertKey(k, s[1..])
  }

  function SortKeys(s: seq<Key>): (r: seq<Key>)
    ensures multiset(r) == multiset(s) && |r| == |s|
  {
    if s == [] then [] else
      assert s == [s[0]] + s[1..];
      var r := InsertKey(s[0], SortKeys(s[1..]));
      assert |r| == |multiset(r)|;
      r
  }

  lemma {:induction false} InsertKeyOrdered(k: Key, s: seq<Key>)
    requires InKeyOrder(s)
    ensures InKeyOrder(InsertKey(k, s))
  {
    if s == [] {
    } else if KeyLe(k, s[0]) {
      forall i | 0 <= i < |s| ensures KeyLe(k, s[i]) {
        if i > 0 {
          KeyTransitive(k, s[0], s[i]);
        }
      }
    } else {
      KeyTotal(k, s[0]);
      InsertKeyOrdered(k, s[1..]);
      var r := InsertKey(k, s[1..]);
      forall i | 0 <= i < |r| ensures KeyLe(s[0], r[i]) {
        assert r[i] in multiset(s[1..]) + multiset{k};
      }
    }
  }

  lemma {:induction false} SortKeysOrdered(s: seq<Key>)
    ensures InKeyOrder(SortKeys(s))
  {
    if s != [] {
      SortKeysOrdered(s[1..]);
      InsertKeyOrdered(s[0], SortKeys(s[1..]));
    }
  }

  lemma SortKeepsKeys(s: seq<Key>)
    ensures Elements(SortKeys(s)) == Elements(s)
    ensures Distinct(s) ==> Distinct(SortKeys(s))
  {
    forall k ensures k in SortKeys(s) <==> k in s {
      assert k in multiset(SortKeys(s)) <==> k in multiset(s);
    }
    if Distinct(s) {
      DistinctCounts(s);
      CountsDistinct(SortKeys(s), Elements(s));
    }
  }

  lemma HeadIsLeast(s: seq<Key>, t: seq<Key>)
    requires s != [] && t != [] && InKeyOrder(s) && InKeyOrder(t) && Elements(s) == Elements(t)
    ensures s[0] == t[0]
  {
    assert s[0] in Elements(t) && t[0] in Elements(s);
    KeyTotal(s[0], s[0]);
    var i :| 0 <= i < |t| && t[i] == s[0];
    var j :| 0 <= j < |s| && s[j] == t[0];
    KeyAntisymmetric(s[0], t[0]);
  }

  lemma {:induction false} KeyOrderUnique(s: seq<Key>, t: seq<Key>)
    requires InKeyOrder(s) && InKeyOrder(t) && Distinct(s) && Distinct(t) && Elements(s) == Elements(t)
    ensures s == t
  {
    NoElements(s);
    NoElements(t);
    if s != [] {
      HeadIsLeast(s, t);
      TailKeys(s);
      TailKeys(t);
      KeyOrderUnique(s[1..], t[1..]);
    }
  }

  lemma TailKeys(s: seq<Key>)
    requires s != [] && Distinct(s)
    ensures Elements(s[1..]) == Elements(s) - {s[0]}
  {
    assert s == [s[0]] + s[1..];
    assert s[0] !in s[1..];
  }

  // ---------------------------------------------------------------- trees

  function Hash(n: Node): Digest {
    match n
    case Leaf(k) => Sum256(k)
    case Inner(l, r) => SumPair(Hash(l), Hash(r))
  }

  /** Two subtrees have one hash exactly when they are the same subtree. */
  lemma {:induction false} HashIdentifies(a: Node, b: Node)
    ensures Hash(a) == Hash(b) <==> a == b
  {
    if a.Inner? && b.Inner? {
      HashIdentifies(a.left, b.left);
      HashIdentifies(a.right, b.right);
    }
  }

  /** collectKeys. */
  function Collect(n: Node): seq<Key> {
    match n
    case Leaf(k) => [k]
    case Inner(l, r) => Collect(l) + Collect(r)
  }

  function Keys(n: Node): set<Key> {
    Elements(Collect(n))
  }

  lemma InnerKeys(l: Node, r: Node)
    ensures Keys(Inner(l, r)) == Keys(l) + Keys(r)
  {
  }

  function Leaves(keys: seq<Key>): (layer: seq<Node>)
    ensures |layer| == |keys| && forall i :: 0 <= i < |keys| ==> layer[i] == Leaf(keys[i])
  {
    seq(|keys|, i requires 0 <= i < |keys| => Leaf(keys[i]))
  }

  function Pairs(layer: seq<Node>): (next: seq<Node>)
    ensures |next| == (|layer| + 1) / 2
  {
    if |layer| == 0 then []
    else if |layer| == 1 then [Inner(layer[0], layer[0])]
    else [Inner(layer[0], layer[1])] + Pairs(layer[2..])
  }

  function TreeOf(layer: seq<Node>): Node
    requires |layer| > 0
    decreases |layer|
  {
    if |layer| == 1 then layer[0] else TreeOf(Pairs(layer))
  }

  function KeysOfLayer(layer: seq<Node>): set<Key> {
    set n, k | n in layer && k in Keys(n) :: k
  }

  lemma {:induction false} PairsKeepKeys(layer: seq<Node>)
    ensures KeysOfLayer(Pairs(layer)) == KeysOfLayer(layer)
    decreases |layer|
  {
    if |layer| == 1 {
      InnerKeys(layer[0], layer[0]);
    } else if |layer| > 1 {
      PairsKeepKeys(layer[2..]);
      InnerKeys(layer[0], layer[1]);
      assert layer == [layer[0], layer[1]] + layer[2..];
      LayerSplit([layer[0], layer[1]], layer[2..]);
      LayerSplit([Inner(layer[0], layer[1])], Pairs(layer[2..]));
      assert KeysOfLayer([layer[0], layer[1]]) == Keys(layer[0]) + Keys(layer[1]) by {
        assert layer[0] in [layer[0], layer[1]] && layer[1] in [layer[0], layer[1]];
      }
      assert KeysOfLayer([Inner(layer[0], layer[1])]) == Keys(Inner(layer[0], layer[1])) by {
        assert Inner(layer[0], layer[1]) in [Inner(layer[0], layer[1])];
      }
    }
  }

  lemma LayerSplit(a: seq<Node>, b: seq<Node>)
    ensures KeysOfLayer(a + b) == KeysOfLayer(a) + KeysOfLayer(b)
  {
    assert forall n :: n in a + b <==> n in a || n in b;
  }

  lemma {:induction false} TreeKeepsKeys(layer: seq<Node>)
    requires |layer| > 0
    ensures Keys(TreeOf(layer)) == KeysOfLayer(layer)
    decreases |layer|
  {
    if |layer| == 1 {
      assert layer == [layer[0]] && layer[0] in layer;
    } else {
      PairsKeepKeys(layer);
      TreeKeepsKeys(Pairs(layer));
    }
  }

  function Root(keys: seq<Key>): Option<Node> {
    if keys == [] then None else Some(TreeOf(Leaves(SortKeys(keys))))
  }

  function RootKeys(t: Option<Node>): set<Key> {
    if t.None? then {} else Keys(t.value)
  }

  function RootHash(t: Option<Node>): Digest {
    if t.None? then Zero else Hash(t.value)
  }

  lemma PairTree(x: Node, y: Node)
    ensures TreeOf([x, y]) == Inner(x, y)
  {
    assert [x, y][2..] == [];
    assert Pairs([x, y]) == [Inner(x, y)];
  }

  lemma TripleTree(x: Node, y: Node, z: Node)
    ensures TreeOf([x, y, z]) == Inner(Inner(x, y), Inner(z, z))
  {
    assert [x, y, z][2..] == [z];
    assert Pairs([x, y, z]) == [Inner(x, y), Inner(z, z)];
    PairTree(Inner(x, y), Inner(z, z));
  }

  lemma TripleHash(a: Key, b: Key, c: Key)
    ensures Hash(Inner(Inner(Leaf(a), Leaf(b)), Inner(Leaf(c), Leaf(c))))
            == SumPair(SumPair(Sum256(a), Sum256(b)), SumPair(Sum256(c), Sum256(c)))
  {
    assert Hash(Inner(Leaf(a), Leaf(b))) == SumPair(Sum256(a), Sum256(b));
    assert Hash(Inner(Leaf(c), Leaf(c))) == SumPair(Sum256(c), Sum256(c));
  }

  lemma SortedThree(keys: seq<Key>, a: Key, b: Key, c: Key)
    requires Distinct(keys) && Elements(keys) == Elements([a, b, c]) && Distinct([a, b, c]) && InKeyOrder([a, b, c])
    ensures keys != [] && SortKeys(keys) == [a, b, c]
  {
    SortKeysOrdered(keys);
    SortKeepsKeys(keys);
    KeyOrderUnique(SortKeys(keys), [a, b, c]);
    NoElements(keys);
    assert a in Elements([a, b, c]);
  }

  /** The root hash of three keys in any order, written out: sorted leaves, pairs from the left, the odd
      node with itself. */
  lemma ThreeKeys(keys: seq<Key>, a: Key, b: Key, c: Key)
    requires Distinct(keys) && Elements(keys) == Elements([a, b, c]) && Distinct([a, b, c]) && InKeyOrder([a, b, c])
    ensures RootHash(Root(keys)) == SumPair(SumPair(Sum256(a), Sum256(b)), SumPair(Sum256(c), Sum256(c)))
  {
    SortedThree(keys, a, b, c);
    assert Leaves([a, b, c]) == [Leaf(a), Leaf(b), Leaf(c)];
    TripleTree(Leaf(a), Leaf(b), Leaf(c));
    TripleHash(a, b, c);
  }

  /** The tree's leaf keys are the given keys. */
  lemma RootHasKeys(keys: seq<Key>)
    ensures RootKeys(Root(keys)) == Elements(keys)
  {
    if keys != [] {
      SortKeepsKeys(keys);
      var sorted := SortKeys(keys);
      TreeKeepsKeys(Leaves(sorted));
      forall k ensures k in KeysOfLayer(Leaves(sorted)) <==> k in sorted {
        if k in sorted {
          var i :| 0 <= i < |sorted| && sorted[i] == k;
          assert Leaves(sorted)[i] in Leaves(sorted) && k in Keys(Leaf(k));
        }
      }
    }
  }

  lemma RootHashIdentifies(a: Option<Node>, b: Option<Node>)
    ensures RootHash(a) == RootHash(b) <==> a == b
  {
    if a.Some? && b.Some? {
      HashIdentifies(a.value, b.value);
    }
  }

  /** Replicas with duplicate-free key lists have one root hash exactly when they hold the same keys,
      in whatever order the lists come. */
  lemma RootHashIffSameKeys(xs: seq<Key>, ys: seq<Key>)
    requires Distinct(xs) && Distinct(ys)
    ensures RootHash(Root(xs)) == RootHash(Root(ys)) <==> Elements(xs) == Elements(ys)
  {
    RootHashIdentifies(Root(xs), Root(ys));
    RootHasKeys(xs);
    RootHasKeys(ys);
    if Elements(xs) == Elements(ys) {
      SortKeysOrdered(xs);
      SortKeysOrdered(ys);
      SortKeepsKeys(xs);
      SortKeepsKeys(ys);
      KeyOrderUnique(SortKeys(xs), SortKeys(ys));
      NoElements(xs);
      NoElements(ys);
    }
  }

  /** With duplicates the hash can differ although the key sets agree. */
  lemma DuplicatesChangeRoot(k: Key)
    ensures Elements([k]) == Elements([k, k]) && RootHash(Root([k])) != RootHash(Root([k, k]))
  {
    assert SortKeys([k]) == InsertKey(k, SortKeys([k][1..])) == [k];
    assert [k, k][1..] == [k];
    var two := SortKeys([k, k]);
    assert |two| == 2;
    assert TreeOf(Leaves(two)) == TreeOf(Pairs(Leaves(two)));
    assert Pairs(Leaves(two))[0].Inner?;
  }

  // ---------------------------------------------------------------- lists with repetitions

  /** Key lists joined pairwise, the odd last one with itself, until one is left. */
  function Joined(blocks: seq<seq<Key>>): (next: seq<seq<Key>>)
    ensures |next| == (|blocks| + 1) / 2
  {
    if |blocks| == 0 then []
    else if |blocks| == 1 then [blocks[0] + blocks[0]]
    else [blocks[0] + blocks[1]] + Joined(blocks[2..])
  }

  function Filled(blocks: seq<seq<Key>>): seq<Key>
    decreases |blocks|
  {
    if |blocks| == 0 then [] else if |blocks| == 1 then blocks[0] else Filled(Joined(blocks))
  }

  function Blocks(layer: seq<Node>): (bs: seq<seq<Key>>)
    ensures |bs| == |layer| && forall i :: 0 <= i < |bs| ==> bs[i] == Collect(layer[i])
  {
    seq(|layer|, i requires 0 <= i < |layer| => Collect(layer[i]))
  }

  /** A sorted list filled up with repetitions of its last blocks to a power of two. */
  function Frontier(keys: seq<Key>): seq<Key> {
    Filled(Blocks(Leaves(SortKeys(keys))))
  }

  lemma {:induction false} PairsJoin(layer: seq<Node>)
    ensures Blocks(Pairs(layer)) == Joined(Blocks(layer))
    decreases |layer|
  {
    if |layer| > 1 {
      PairsJoin(layer[2..]);
      assert Blocks(layer)[2..] == Blocks(layer[2..]);
      assert Blocks(Pairs(layer)) == [Collect(layer[0]) + Collect(layer[1])] + Blocks(Pairs(layer[2..]));
    }
  }

  lemma {:induction false} TreeFills(layer: seq<Node>)
    requires |layer| > 0
    ensures Collect(TreeOf(layer)) == Filled(Blocks(layer))
    decreases |layer|
  {
    if |layer| > 1 {
      PairsJoin(layer);
      TreeFills(Pairs(layer));
    }
  }

  predicate Perfect(n: Node, depth: nat) {
    match n
    case Leaf(_) => depth == 0
    case Inner(l, r) => depth > 0 && Perfect(l, depth - 1) && Perfect(r, depth - 1)
  }

  function Pow2(k: nat): nat {
    if k == 0 then 1 else 2 * Pow2(k - 1)
  }

  lemma {:induction false} PerfectSize(n: Node, depth: nat)
    requires Perfect(n, depth)
    ensures |Collect(n)| == Pow2(depth)
  {
    if n.Inner? {
      PerfectSize(n.left, depth - 1);
      PerfectSize(n.right, depth - 1);
    }
  }

  lemma {:induction false} PairsPerfect(layer: seq<Node>, depth: nat)
    requires forall i :: 0 <= i < |layer| ==> Perfect(layer[i], depth)
    ensures forall i :: 0 <= i < |Pairs(layer)| ==> Perfect(Pairs(layer)[i], depth + 1)
    decreases |layer|
  {
    if |layer| > 1 {
      PairsPerfect(layer[2..], depth);
    }
  }

  lemma {:induction false} TreePerfect(layer: seq<Node>, depth: nat) returns (d: nat)
    requires |layer| > 0 && forall i :: 0 <= i < |layer| ==> Perfect(layer[i], depth)
    ensures Perfect(TreeOf(layer), d)
    decreases |layer|
  {
    if |layer| == 1 {
      d := depth;
    } else {
      PairsPerfect(layer, depth);
      d := TreePerfect(Pairs(layer), depth + 1);
    }
  }

  lemma {:induction false} Pow2Injective(i: nat, j: nat)
    requires Pow2(i) == Pow2(j)
    ensures i == j
  {
    if i > 0 && j > 0 {
      Pow2Injective(i - 1, j - 1);
    }
  }

  /** A perfect tree is determined by its keys from left to right. */
  lemma {:induction false} KeysDetermine(a: Node, b: Node, depth: nat)
    requires Perfect(a, depth) && Perfect(b, depth) && Collect(a) == Collect(b)
    ensures a == b
  {
    if a.Inner? {
      PerfectSize(a.left, depth - 1);
      PerfectSize(b.left, depth - 1);
      assert Collect(a.left) == Collect(a)[..Pow2(depth - 1)] == Collect(b.left);
      assert Collect(a.right) == Collect(a)[Pow2(depth - 1)..] == Collect(b.right);
      KeysDetermine(a.left, b.left, depth - 1);
      KeysDetermine(a.right, b.right, depth - 1);
    }
  }

  lemma RootFrontier(keys: seq<Key>) returns (depth: nat)
    requires keys != []
    ensures Root(keys).Some? && Perfect(Root(keys).value, depth) && Collect(Root(keys).value) == Frontier(keys)
    ensures |Frontier(keys)| == Pow2(depth) > 0
  {
    depth := TreePerfect(Leaves(SortKeys(keys)), 0);
    TreeFills(Leaves(SortKeys(keys)));
    PerfectSize(Root(keys).value, depth);
    PowPositive(depth);
  }

  lemma {:induction false} PowPositive(k: nat)
    ensures Pow2(k) > 0
  {
    if k > 0 {
      PowPositive(k - 1);
    }
  }

  /** Two arbitrary key lists, with whatever repetitions, share a root hash exactly when their sorted
      lists fill up to the same list. */
  lemma RootHashIffSameFrontier(xs: seq<Key>, ys: seq<Key>)
    ensures RootHash(Root(xs)) == RootHash(Root(ys)) <==> Frontier(xs) == Frontier(ys)
  {
    RootHashIdentifies(Root(xs), Root(ys));
    if xs != [] && ys != [] {
      var d := RootFrontier(xs);
      var e := RootFrontier(ys);
      if Frontier(xs) == Frontier(ys) {
        Pow2Injective(d, e);
        KeysDetermine(Root(xs).value, Root(ys).value, d);
      }
    } else if xs != [] {
      var d := RootFrontier(xs);
    } else if ys != [] {
      var d := RootFrontier(ys);
    }
  }

  // ---------------------------------------------------------------- building and diffing

  /** One pass over a level: neighbours are joined, an odd last node with itself. */
  method JoinPairs(layer: seq<Node>) returns (next: seq<Node>)
    ensures next == Pairs(layer)
  {
    next := [];
    var i := 0;
    while i < |layer|
      invariant 0 <= i
      invariant Pairs(layer) == next + Pairs(layer[Min(i, |layer|)..])
    {
      var left := layer[i];
      var right := left;
      if i + 1 < |layer| {
        right := layer[i + 1];
      }
      assert layer[i..][Min(2, |layer| - i)..] == layer[Min(i + 2, |layer|)..];
      next := next + [Inner(left, right)];
      i := i + 2;
    }
  }

  method BuildLevel(layer: seq<Node>) returns (root: Node)
    requires |layer| > 0
    ensures root == TreeOf(layer)
    decreases |layer|
  {
    if |layer| == 1 {
      return layer[0];
    }
    var next := JoinPairs(layer);
    root := BuildLevel(next);
  }

  method Build(keys: seq<Key>) returns (t: Option<Node>)
    ensures t == Root(keys) && RootKeys(t) == Elements(keys)
  {
    RootHasKeys(keys);
    if |keys| == 0 {
      return None;
    }
    var sorted := SortKeys(keys);
    var leaves: seq<Node> := [];
    for i := 0 to |sorted|
      invariant leaves == Leaves(sorted)[..i]
    {
      leaves := leaves + [Leaf(sorted[i])];
    }
    assert leaves == Leaves(sorted);
    var root := BuildLevel(leaves);
    t := Some(root);
  }

  function DiffNodes(a: Node, b: Node): seq<Key> {
    if Hash(a) == Hash(b) then []
    else if a.Leaf? && b.Leaf? then [a.key] + (if b.key != a.key then [b.key] else [])
    else if a.Leaf? then [a.key] + Collect(b)
    else if b.Leaf? then Collect(a) + [b.key]
    else DiffNodes(a.left, b.left) + DiffNodes(a.right, b.right)
  }

  lemma ElementsConcat(x: seq<Key>, y: seq<Key>)
    ensures Elements(x + y) == Elements(x) + Elements(y)
  {
  }

  lemma DiffAtLeaf(a: Node, b: Node)
    requires Hash(a) != Hash(b) && (a.Leaf? || b.Leaf?)
    ensures Elements(DiffNodes(a, b)) == Keys(a) + Keys(b)
  {
    if a.Leaf? && b.Leaf? {
      ElementsConcat([a.key], [b.key]);
    } else if a.Leaf? {
      ElementsConcat([a.key], Collect(b));
    } else {
      ElementsConcat(Collect(a), [b.key]);
    }
  }

  /** The diff of two trees, whatever their shapes, names every key that only one of them has. */
  lemma {:induction false} DiffCovers(a: Node, b: Node)
    ensures Keys(a) - Keys(b) <= Elements(DiffNodes(a, b))
    ensures Keys(b) - Keys(a) <= Elements(DiffNodes(a, b))
    ensures Elements(DiffNodes(a, b)) <= Keys(a) + Keys(b)
  {
    if Hash(a) == Hash(b) {
      HashIdentifies(a, b);
    } else if a.Leaf? || b.Leaf? {
      DiffAtLeaf(a, b);
    } else {
      DiffCovers(a.left, b.left);
      DiffCovers(a.right, b.right);
      InnerKeys(a.left, a.right);
      InnerKeys(b.left, b.right);
      ElementsConcat(DiffNodes(a.left, b.left), DiffNodes(a.right, b.right));
    }
  }

  /** `k` stands in one of the lists at a position where they differ. */
  ghost predicate DifferAt(xs: seq<Key>, ys: seq<Key>, k: Key) {
    exists i :: 0 <= i < |xs| && i < |ys| && xs[i] != ys[i] && (k == xs[i] || k == ys[i])
  }

  lemma DifferConcat(xs: seq<Key>, ys: seq<Key>, xs': seq<Key>, ys': seq<Key>, k: Key)
    requires |xs| == |ys|
    ensures DifferAt(xs + xs', ys + ys', k) <==> DifferAt(xs, ys, k) || DifferAt(xs', ys', k)
  {
    var n := |xs|;
    if i :| 0 <= i < |xs| && i < |ys| && xs[i] != ys[i] && (k == xs[i] || k == ys[i]) {
      assert (xs + xs')[i] == xs[i] && (ys + ys')[i] == ys[i];
    }
    if i :| 0 <= i < |xs'| && i < |ys'| && xs'[i] != ys'[i] && (k == xs'[i] || k == ys'[i]) {
      assert (xs + xs')[n + i] == xs'[i] && (ys + ys')[n + i] == ys'[i];
    }
    if i :| 0 <= i < |xs + xs'| && i < |ys + ys'| && (xs + xs')[i] != (ys + ys')[i] && (k == (xs + xs')[i] || k == (ys + ys')[i]) {
      if i >= n {
        assert (xs + xs')[i] == xs'[i - n] && (ys + ys')[i] == ys'[i - n];
      }
    }
  }

  /** The diff of two trees of one depth descends only where they differ: it names exactly the keys at the
      leaf positions whose keys differ. */
  lemma {:induction false} DiffIsPositional(a: Node, b: Node, depth: nat, k: Key)
    requires Perfect(a, depth) && Perfect(b, depth)
    ensures k in DiffNodes(a, b) <==> DifferAt(Collect(a), Collect(b), k)
  {
    if Hash(a) == Hash(b) {
      HashIdentifies(a, b);
    } else if a.Leaf? {
      assert Collect(a)[0] == a.key && Collect(b)[0] == b.key;
    } else {
      DiffIsPositional(a.left, b.left, depth - 1, k);
      DiffIsPositional(a.right, b.right, depth - 1, k);
      PerfectSize(a.left, depth - 1);
      PerfectSize(b.left, depth - 1);
      DifferConcat(Collect(a.left), Collect(b.left), Collect(a.right), Collect(b.right), k);
    }
  }

  function RawDiff(a: Option<Node>, b: Option<Node>): seq<Key> {
    match (a, b)
    case (None, None) => []
    case (None, Some(n)) => Collect(n)
    case (Some(n), None) => Collect(n)
    case (Some(m), Some(n)) => DiffNodes(m, n)
  }

  /** Every key held by one side only, no key twice; nothing when the roots agree. */
  method Diff(a: Option<Node>, b: Option<Node>) returns (out: seq<Key>)
    ensures Distinct(out)
    ensures (RootKeys(a) - RootKeys(b)) + (RootKeys(b) - RootKeys(a)) <= Elements(out) <= RootKeys(a) + RootKeys(b)
    ensures RootHash(a) == RootHash(b) ==> out == []
    ensures Elements(out) == Elements(RawDiff(a, b))
  {
    if RootHash(a) == RootHash(b) {
      RootHashIdentifies(a, b);
      return [];
    }
    var raw := RawDiff(a, b);
    if a.Some? && b.Some? {
      DiffCovers(a.value, b.value);
    }
    out := Deduplicate(raw);
  }

  /** The loop that keeps the first of each key. */
  method Deduplicate(raw: seq<Key>) returns (out: seq<Key>)
    ensures Distinct(out) && Elements(out) == Elements(raw)
  {
    var seen: set<Key> := {};
    out := [];
    for i := 0 to |raw|
      invariant seen == Elements(raw[..i]) == Elements(out)
      invariant Distinct(out)
    {
      assert raw[..i + 1] == raw[..i] + [raw[i]];
      if raw[i] !in seen {
        assert raw[i] !in out;
        seen := seen + {raw[i]};
        out := out + [raw[i]];
      }
    }
    assert raw[..|raw|] == raw;
  }

  /** One repair: sends exactly the keys only we have, requests exactly those only the peer has, each
      once. Duplicates in either list do no harm. */
  method Repair(myKeys: seq<Key>, theirKeys: seq<Key>) returns (send: seq<Key>, need: seq<Key>)
    ensures Distinct(send) && Elements(send) == Elements(myKeys) - Elements(theirKeys)
    ensures Distinct(need) && Elements(need) == Elements(theirKeys) - Elements(myKeys)
  {
    var mine := Build(myKeys);
    var theirs := Build(theirKeys);
    var diff := Diff(mine, theirs);
    send, need := [], [];
    if |diff| == 0 {
      return;
    }
    send, need := Dispatch(diff, set k | k in myKeys, set k | k in theirKeys);
    DispatchedKeys(diff, send, myKeys, theirKeys);
    DispatchedKeys(diff, need, theirKeys, myKeys);
  }

  lemma DispatchedKeys(diff: seq<Key>, out: seq<Key>, mine: seq<Key>, theirs: seq<Key>)
    requires Elements(mine) - Elements(theirs) <= Elements(diff)
    requires forall k :: k in out <==> k in diff && k in mine && k !in theirs
    ensures Elements(out) == Elements(mine) - Elements(theirs)
  {
    forall k ensures k in Elements(out) <==> k in Elements(mine) - Elements(theirs) {
      assert k in Elements(diff) <==> k in diff;
    }
  }

  /** The callback loop of repair. */
  method Dispatch(diff: seq<Key>, mySet: set<Key>, theirSet: set<Key>) returns (send: seq<Key>, need: seq<Key>)
    requires Distinct(diff)
    ensures Distinct(send) && forall k :: k in send <==> k in diff && k in mySet && k !in theirSet
    ensures Distinct(need) && forall k :: k in need <==> k in diff && k !in mySet && k in theirSet
  {
    send, need := [], [];
    for i := 0 to |diff|
      invariant Distinct(send) && Distinct(need)
      invariant forall k :: k in send <==> k in diff[..i] && k in mySet && k !in theirSet
      invariant forall k :: k in need <==> k in diff[..i] && k !in mySet && k in theirSet
    {
      var key := diff[i];
      assert diff[..i + 1] == diff[..i] + [key];
      assert key !in diff[..i];
      if key in mySet && key !in theirSet {
        assert key !in send;
        send := send + [key];
      } else if key !in mySet && key in theirSet {
        assert key !in need;
        need := need + [key];
      }
    }
    assert diff[..|diff|] == diff;
  }

  /** The receiver of a root hash answers with its key list exactly when the key sets differ. */
  method HandleSync(myKeys: seq<Key>, rootHash: Digest, ghost theirKeys: seq<Key>) returns (reply: Option<seq<Key>>)
    requires rootHash == RootHash(Root(theirKeys))
    ensures reply == None || reply == Some(myKeys)
    ensures Elements(myKeys) != Elements(theirKeys) ==> reply == Some(myKeys)
    ensures Distinct(myKeys) && Distinct(theirKeys) && Elements(myKeys) == Elements(theirKeys) ==> reply == None
  {
    var mine := Build(myKeys);
    RootHasKeys(theirKeys);
    RootHashIdentifies(mine, Root(theirKeys));
    if Distinct(myKeys) && Distinct(theirKeys) {
      RootHashIffSameKeys(myKeys, theirKeys);
    }
    if RootHash(mine) == rootHash {
      return None;
    }
    reply := Some(myKeys);
  }
}
