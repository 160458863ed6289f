/** Fixed-size chunking, manifests and the chunk Merkle root (Storage/chunker/chunker.go). */
module Chunker {
  import opened Common
  import opened Sha256

  const DEFAULT_CHUNK_SIZE: nat := 4 * 1024 * 1024

  /** The hash field of a ChunkInfo is text; `Raw` is text that is not the hex of 32 bytes. */
  datatype HashText = Hex(digest: Digest) | Raw(text: Bytes)

  datatype Chunk = Chunk(index: nat, hash: Digest, size: nat, data: Bytes)

  datatype ChunkInfo = ChunkInfo(index: nat, hash: HashText, size: nat, encHash: Digest, compressed: bool)

  datatype Manifest = Manifest(fileKey: string, totalSize: nat, chunkSize: nat, chunks: seq<ChunkInfo>, merkleRoot: Digest)

  // ---------------------------------------------------------------- chunk boundaries

  /** The pieces of `data` in order: all of size `cs`, except perhaps a shorter last one. */
  function Split(data: Bytes, cs: nat): (parts: seq<Bytes>)
    requires cs > 0
  {
    if |data| <= cs then (if data == [] then [] else [data])
    else [data[..cs]] + Split(data[cs..], cs)
  }

  function Flatten(parts: seq<Bytes>): Bytes {
    if parts == [] then [] else parts[0] + Flatten(parts[1..])
  }

  function Total(sizes: seq<ChunkInfo>): nat {
    if sizes == [] then 0 else Total(sizes[..|sizes| - 1]) + sizes[|sizes| - 1].size
  }

  /** Chunk `i` is exactly the slice that starts at `i * cs`: the chunks tile the file. */
  lemma {:induction false} SplitTiles(data: Bytes, cs: nat, i: nat)
    requires cs > 0 && i < |Split(data, cs)|
    ensures i * cs < |data|
    ensures Split(data, cs)[i] == data[i * cs..Min(|data|, i * cs + cs)]
    ensures i + 1 < |Split(data, cs)| <==> i * cs + cs < |data|
  {
    if |data| <= cs {
      assert i == 0 && Split(data, cs) == [data] && data[0..|data|] == data;
    } else if i == 0 {
      SplitFirst(data, cs);
    } else {
      SplitFirst(data, cs);
      SplitTiles(data[cs..], cs, i - 1);
      NextOffset(i, cs);
      assert data[cs..][(i - 1) * cs..Min(|data| - cs, i * cs)] == data[i * cs..Min(|data|, i * cs + cs)];
    }
  }

  lemma SplitFirst(data: Bytes, cs: nat)
    requires 0 < cs < |data|
    ensures Split(data, cs)[0] == data[..cs] == data[0..cs] && Split(data, cs)[1..] == Split(data[cs..], cs) != []
    ensures |Split(data, cs)| == 1 + |Split(data[cs..], cs)|
  {
  }

  lemma NextOffset(i: nat, cs: nat)
    requires i > 0
    ensures i * cs == (i - 1) * cs + cs
  {
  }

  /** Every byte position lies in exactly the chunk whose index is its quotient. */
  lemma {:induction false} SplitCovers(data: Bytes, cs: nat, p: nat) returns (i: nat)
    requires cs > 0 && p < |data|
    ensures i < |Split(data, cs)|
    ensures i * cs <= p < Min(|data|, i * cs + cs)
  {
    if p < cs {
      i := 0;
    } else {
      i := SplitCovers(data[cs..], cs, p - cs);
      assert (i + 1) * cs == i * cs + cs;
      i := i + 1;
    }
  }

  lemma {:induction false} FlattenSplit(data: Bytes, cs: nat)
    requires cs > 0
    ensures Flatten(Split(data, cs)) == data
  {
    if |data| > cs {
      FlattenSplit(data[cs..], cs);
      assert Split(data, cs)[1..] == Split(data[cs..], cs);
    } else if data != [] {
      assert Flatten([data]) == data + Flatten([]);
    }
  }

  lemma {:induction false} FlattenAppend(parts: seq<Bytes>, last: Bytes)
    ensures Flatten(parts + [last]) == Flatten(parts) + last
  {
    if parts == [] {
      assert Flatten([last]) == last + Flatten([]);
    } else {
      FlattenAppend(parts[1..], last);
      assert (parts + [last])[1..] == parts[1..] + [last];
    }
  }

  lemma {:induction false} FlattenTake(parts: seq<Bytes>, k: nat)
    requires k < |parts|
    ensures Flatten(parts[..k + 1]) == Flatten(parts[..k]) + parts[k]
  {
    FlattenAppend(parts[..k], parts[k]);
    assert parts[..k + 1] == parts[..k] + [parts[k]];
  }

  lemma {:induction false} FlattenPrefix(parts: seq<Bytes>, k: nat)
    requires k <= |parts|
    ensures Flatten(parts[..k]) <= Flatten(parts)
    decreases |parts| - k
  {
    if k == |parts| {
      assert parts[..k] == parts;
    } else {
      FlattenTake(parts, k);
      FlattenPrefix(parts, k + 1);
    }
  }

  /** A file of the right length that agrees with `data` on every chunk's slice is `data`. */
  lemma TilesDetermine(data: Bytes, cs: nat, file: Bytes)
    requires cs > 0 && |file| == |data|
    requires forall i :: 0 <= i < |Split(data, cs)| ==>
      i * cs < |data| && file[i * cs..Min(|data|, i * cs + cs)] == Split(data, cs)[i]
    ensures file == data
  {
    forall p | 0 <= p < |data|
      ensures file[p] == data[p]
    {
      var i := SplitCovers(data, cs, p);
      SplitTiles(data, cs, i);
      var a, b := i * cs, Min(|data|, i * cs + cs);
      assert file[a..b] == data[a..b];
      assert file[a..b][p - a] == data[a..b][p - a];
    }
  }

  /** One read: a full buffer or what is left is the next piece. */
  lemma SplitStep(rest: Bytes, cs: nat)
    requires cs > 0 && rest != []
    ensures var n := Min(cs, |rest|); Split(rest, cs) == [rest[..n]] + Split(rest[n..], cs)
  {
    if |rest| <= cs {
      assert rest[..|rest|] == rest;
    }
  }

  lemma ReaderStep(parts: seq<Bytes>, index: nat, rest: Bytes, cs: nat)
    requires cs > 0 && rest != [] && index <= |parts| && parts == parts[..index] + Split(rest, cs)
    ensures var n := Min(cs, |rest|);
      index < |parts| && parts[index] == rest[..n] && parts == parts[..index + 1] + Split(rest[n..], cs)
  {
    var n := Min(cs, |rest|);
    SplitStep(rest, cs);
    Insertion(parts[..index], rest[..n], Split(rest[n..], cs), parts);
  }

  lemma Insertion(before: seq<Bytes>, x: Bytes, after: seq<Bytes>, all: seq<Bytes>)
    requires all == before + ([x] + after)
    ensures |before| < |all| && all[|before|] == x && all[..|before| + 1] == before + [x] && all == before + [x] + after
  {
  }

  /** The chunk reader: fills a buffer, emits what was read, and stops at the end of the input.
      `readError` says that the reader fails after delivering `data` rather than ending. */
  method ChunkReader(data: Bytes, chunkSize: int, readError: bool) returns (out: seq<Chunk>, failed: bool)
    ensures var cs := if chunkSize <= 0 then DEFAULT_CHUNK_SIZE else chunkSize;
      && |out| == |Split(data, cs)|
      && (forall i :: 0 <= i < |out| ==>
           out[i] == Chunk(i, Sum256(Split(data, cs)[i]), |Split(data, cs)[i]|, Split(data, cs)[i]))
    ensures failed == readError
  {
    var cs := if chunkSize <= 0 then DEFAULT_CHUNK_SIZE else chunkSize;
    var rest := data;
    var index := 0;
    out := [];
    ghost var parts := Split(data, cs);
    while true
      invariant index == |out| <= |parts|
      invariant parts == parts[..index] + Split(rest, cs)
      invariant forall i :: 0 <= i < index ==> out[i] == Chunk(i, Sum256(parts[i]), |parts[i]|, parts[i])
      decreases |rest|
    {
      // io.ReadFull: a full buffer, or what is left together with the end (or the error)
      var n := Min(cs, |rest|);
      var short := |rest| < cs;
      if n > 0 {
        var buf := rest[..n];
        ReaderStep(parts, index, rest, cs);
        out := out + [Chunk(index, Sum256(buf), n, buf)];
        index := index + 1;
        rest := rest[n..];
      }
      if short {
        assert rest == [] && Split(rest, cs) == [];
        break;
      }
    }
    failed := readError;
  }

  // ---------------------------------------------------------------- Merkle root

  function LeafOf(hash: HashText): Digest {
    match hash
    case Hex(d) => d
    case Raw(text) => Sum256(text)
  }

  function Leaves(chunks: seq<ChunkInfo>): (ds: seq<Digest>)
    ensures |ds| == |chunks|
    ensures forall i :: 0 <= i < |ds| ==> ds[i] == LeafOf(chunks[i].hash)
  {
    seq(|chunks|, i requires 0 <= i < |chunks| => LeafOf(chunks[i].hash))
  }

  /** Leaves tell hash fields apart, except that text which is no hex hash stands for its own digest. */
  lemma LeavesAgreeIff(x: HashText, y: HashText)
    ensures LeafOf(x) == LeafOf(y) <==>
            || x == y
            || (x.Raw? && y == Hex(Sum256(x.text)))
            || (y.Raw? && x == Hex(Sum256(y.text)))
  {
  }

  /** One level up: adjacent nodes are paired, the odd last one with itself. */
  function NextLevel(nodes: seq<Digest>): (next: seq<Digest>)
    ensures |next| == (|nodes| + 1) / 2
  {
    if |nodes| == 0 then []
    else if |nodes| == 1 then [SumPair(nodes[0], nodes[0])]
    else [SumPair(nodes[0], nodes[1])] + NextLevel(nodes[2..])
  }

  function Root(nodes: seq<Digest>): Digest
    decreases |nodes|
  {
    if |nodes| == 0 then Zero
    else if |nodes| == 1 then nodes[0]
    else Root(NextLevel(nodes))
  }

  lemma {:induction false} NextLevelInjective(xs: seq<Digest>, ys: seq<Digest>)
    requires |xs| == |ys| && NextLevel(xs) == NextLevel(ys)
    ensures xs == ys
    decreases |xs|
  {
    if |xs| >= 2 {
      var nx, ny := NextLevel(xs), NextLevel(ys);
      assert nx[0] == ny[0];
      assert nx[1..] == NextLevel(xs[2..]) && ny[1..] == NextLevel(ys[2..]);
      NextLevelInjective(xs[2..], ys[2..]);
      assert xs == [xs[0], xs[1]] + xs[2..] && ys == [ys[0], ys[1]] + ys[2..];
    } else if |xs| == 1 {
      assert NextLevel(xs)[0] == NextLevel(ys)[0];
    }
  }

  /** For a fixed number of leaves the root determines every leaf. */
  lemma {:induction false} RootInjective(xs: seq<Digest>, ys: seq<Digest>)
    requires |xs| == |ys|
    ensures Root(xs) == Root(ys) <==> xs == ys
    decreases |xs|
  {
    if |xs| >= 2 {
      RootInjective(NextLevel(xs), NextLevel(ys));
      if NextLevel(xs) == NextLevel(ys) {
        NextLevelInjective(xs, ys);
      }
    }
  }

  /** Without the count the root does not determine the leaves: padding the odd last leaf is
      invisible, and so is replacing a pair by its parent. */
  lemma RootIgnoresPadding(a: Digest, b: Digest, c: Digest)
    ensures Root([a, b, c]) == Root([a, b, c, c])
    ensures Root([a, b]) == Root([SumPair(a, b)])
  {
    var x, y := [a, b, c], [a, b, c, c];
    assert x[2..] == [c] && y[2..] == [c, c] && [c, c][2..] == [];
    assert NextLevel(y[2..]) == [SumPair(c, c)] + NextLevel([]);
    assert NextLevel(x) == NextLevel(y);
    assert [a, b][2..] == [] && NextLevel([a, b]) == [SumPair(a, b)] + NextLevel([]);
  }

  /** The number of levels above `n` leaves. */
  function Depth(n: nat): nat
    requires n > 0
  {
    if n == 1 then 0 else 1 + Depth((n + 1) / 2)
  }

  /** `d` paired with itself `h` times over. */
  function Tower(d: Digest, h: nat): Digest
    decreases h
  {
    if h == 0 then d else Tower(SumPair(d, d), h - 1)
  }

  function Copies(d: Digest, n: nat): (ds: seq<Digest>)
    ensures |ds| == n
  {
    if n == 0 then [] else [d] + Copies(d, n - 1)
  }

  lemma {:induction false} NextOfCopies(d: Digest, n: nat)
    ensures NextLevel(Copies(d, n)) == Copies(SumPair(d, d), (n + 1) / 2)
  {
    if n == 1 {
      assert Copies(d, 1) == [d] && Copies(SumPair(d, d), 1) == [SumPair(d, d)];
    } else if n > 1 {
      NextOfCopies(d, n - 2);
      var ds := Copies(d, n);
      assert ds[0] == d && ds[1..] == Copies(d, n - 1);
      assert ds[1] == Copies(d, n - 1)[0] == d && ds[2..] == Copies(d, n - 1)[1..] == Copies(d, n - 2);
      assert (n + 1) / 2 == (n - 2 + 1) / 2 + 1;
    }
  }

  lemma {:induction false} RootOfCopies(d: Digest, n: nat)
    requires n > 0
    ensures Root(Copies(d, n)) == Tower(d, Depth(n))
    decreases n
  {
    if n > 1 {
      NextOfCopies(d, n);
      RootOfCopies(SumPair(d, d), (n + 1) / 2);
    } else {
      assert Copies(d, 1) == [d];
    }
  }

  lemma {:induction false} TowerSplit(d: Digest, g: nat, h: nat)
    ensures Tower(Tower(d, g), h) == Tower(d, g + h)
    decreases g
  {
    if g > 0 {
      TowerSplit(SumPair(d, d), g - 1, h);
    }
  }

  /** Lists of any two different lengths can have one root. */
  lemma RootsCollide(n: nat, m: nat) returns (xs: seq<Digest>, ys: seq<Digest>)
    requires n > 0 && m > 0
    ensures |xs| == n && |ys| == m && Root(xs) == Root(ys)
    decreases if Depth(n) <= Depth(m) then 0 else 1
  {
    if Depth(n) <= Depth(m) {
      var d := Tower(Zero, Depth(m) - Depth(n));
      xs, ys := Copies(d, n), Copies(Zero, m);
      RootOfCopies(d, n);
      RootOfCopies(Zero, m);
      TowerSplit(Zero, Depth(m) - Depth(n), Depth(n));
    } else {
      ys, xs := RootsCollide(m, n);
    }
  }

  /** The root identifies the leaves exactly when the count is known to agree, at every two lengths. */
  lemma RootIdentifiesIff(n: nat, m: nat)
    requires n > 0 && m > 0
    ensures (forall xs, ys :: |xs| == n && |ys| == m && Root(xs) == Root(ys) ==> xs == ys) <==> n == m
  {
    if n == m {
      forall xs: seq<Digest>, ys: seq<Digest> | |xs| == n && |ys| == m && Root(xs) == Root(ys) ensures xs == ys {
        RootInjective(xs, ys);
      }
    } else {
      var xs, ys := RootsCollide(n, m);
    }
  }

  /** The leaf layer: hex hashes are decoded, anything else is hashed as text. */
  method DecodeLeaves(chunks: seq<ChunkInfo>) returns (nodes: seq<Digest>)
    ensures nodes == Leaves(chunks)
  {
    nodes := [];
    for i := 0 to |chunks|
      invariant nodes == Leaves(chunks)[..i]
    {
      nodes := nodes + [match chunks[i].hash case Hex(d) => d case Raw(text) => Sum256(text)];
    }
  }

  /** The inner loop: steps over the level two nodes at a time. */
  method PairLevel(nodes: seq<Digest>) returns (next: seq<Digest>)
    ensures next == NextLevel(nodes)
  {
    next := [];
    var i := 0;
    while i < |nodes|
      invariant 0 <= i
      invariant NextLevel(nodes) == next + NextLevel(nodes[Min(i, |nodes|)..])
    {
      var left, right := nodes[i], nodes[i];
      if i + 1 < |nodes| {
        right := nodes[i + 1];
      }
      assert nodes[i..][Min(2, |nodes| - i)..] == nodes[Min(i + 2, |nodes|)..];
      next := next + [SumPair(left, right)];
      i := i + 2;
    }
  }

  method ComputeMerkleRoot(chunks: seq<ChunkInfo>) returns (root: Digest)
    ensures root == Root(Leaves(chunks))
  {
    if |chunks| == 0 {
      return Zero;
    }
    var nodes := DecodeLeaves(chunks);
    while |nodes| > 1
      invariant |nodes| >= 1
      invariant Root(nodes) == Root(Leaves(chunks))
      decreases |nodes|
    {
      nodes := PairLevel(nodes);
    }
    root := nodes[0];
  }

  /** VerifyMerkleRoot recomputes and compares: no error exactly when the root is the list's own. */
  method VerifyMerkleRoot(chunks: seq<ChunkInfo>, expected: Digest) returns (ok: bool)
    ensures ok <==> expected == Root(Leaves(chunks))
  {
    var computed := ComputeMerkleRoot(chunks);
    ok := computed == expected;
  }

  method BuildManifest(fileKey: string, chunks: seq<ChunkInfo>) returns (m: Manifest)
    ensures m == ManifestOf(fileKey, chunks)
  {
    var totalSize := 0;
    for i := 0 to |chunks|
      invariant totalSize == Total(chunks[..i])
    {
      assert chunks[..i + 1][..i] == chunks[..i];
      totalSize := totalSize + chunks[i].size;
    }
    assert chunks[..|chunks|] == chunks;
    var root := ComputeMerkleRoot(chunks);
    m := Manifest(fileKey, totalSize, DEFAULT_CHUNK_SIZE, chunks, root);
  }

  function ManifestOf(fileKey: string, chunks: seq<ChunkInfo>): Manifest {
    Manifest(fileKey, Total(chunks), DEFAULT_CHUNK_SIZE, chunks, Root(Leaves(chunks)))
  }

  /** `infos` are the records of the pieces of `data`, in order. */
  ghost predicate Describes(infos: seq<ChunkInfo>, data: Bytes, cs: nat)
    requires cs > 0
  {
    && |infos| == |Split(data, cs)|
    && forall i :: 0 <= i < |infos| ==>
         && infos[i].index == i
         && infos[i].hash == Hex(Sum256(Split(data, cs)[i]))
         && infos[i].size == |Split(data, cs)[i]|
  }

  lemma {:induction false} TotalPrefix(infos: seq<ChunkInfo>, data: Bytes, cs: nat, k: nat)
    requires cs > 0 && Describes(infos, data, cs) && k <= |infos|
    ensures Total(infos[..k]) == |Flatten(Split(data, cs)[..k])|
  {
    if k > 0 {
      TotalPrefix(infos, data, cs, k - 1);
      FlattenTake(Split(data, cs), k - 1);
      assert infos[..k][..k - 1] == infos[..k - 1];
    }
  }

  /** The manifest of a file knows the file's true size. */
  lemma TotalIsLength(infos: seq<ChunkInfo>, data: Bytes, cs: nat)
    requires cs > 0 && Describes(infos, data, cs)
    ensures Total(infos) == |data|
  {
    TotalPrefix(infos, data, cs, |infos|);
    assert infos[..|infos|] == infos && Split(data, cs)[..|infos|] == Split(data, cs);
    FlattenSplit(data, cs);
  }
}
