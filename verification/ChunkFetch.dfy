/** Fetching one chunk with retries on different peers (Server/downloader/downloader.go, fetchAndVerifyChunk). */
module ChunkFetch {
  import opened Common
  import opened Sequences
  import opened Sha256
  import opened Chunker

  /** What a fetch returns to its caller: verified plaintext or an error. */
  datatype Outcome = Plain(data: Bytes) | Failed

  /** The closures wired into the Manager, for one chunk: None is an error return. */
  datatype Pipeline = Pipeline(
    fetch: string -> Option<Bytes>,
    decrypt: Bytes -> Option<Bytes>,
    decompress: Bytes -> Option<Bytes>)

  ghost predicate Verified(info: ChunkInfo, o: Outcome) {
    o.Plain? ==> Hex(Sum256(o.data)) == info.hash
  }

  /** What `peer` serves once decrypted and, if the chunk was stored compressed, decompressed. */
  function Served(p: Pipeline, info: ChunkInfo, peer: string): Option<Bytes> {
    match p.fetch(peer)
    case None => None
    case Some(enc) =>
      match p.decrypt(enc)
      case None => None
      case Some(plain) => if info.compressed then p.decompress(plain) else Some(plain)
  }

  /** `peer` serves bytes with the hash the manifest asks for. */
  predicate Honest(p: Pipeline, info: ChunkInfo, peer: string) {
    var served := Served(p, info, peer);
    served.Some? && Hex(Sum256(served.value)) == info.hash
  }

  lemma SubsetOfSameSize(a: set<string>, b: set<string>)
    requires a <= b && |b| <= |a|
    ensures a == b
  {
    assert |b - a| == |b| - |a|;
    assert b == a + (b - a);
  }

  /** Tries untried candidates, in whatever order the selector prefers, until one serves the
      chunk with the right hash. Only verified bytes are returned, no peer is asked twice, and
      when the retries cover all candidates a failure means that no candidate was honest. */
  method FetchAndVerifyChunk(p: Pipeline, info: ChunkInfo, candidates: seq<string>, maxRetries: nat)
    returns (r: Outcome, tried: seq<string>)
    ensures Verified(info, r)
    ensures |tried| <= maxRetries + 1
    ensures forall i, j :: 0 <= i < j < |tried| ==> tried[i] != tried[j]
    ensures forall x :: x in tried ==> x in candidates
    ensures r.Plain? ==> tried != [] && Served(p, info, tried[|tried| - 1]) == Some(r.data)
    ensures r.Failed? ==> forall x :: x in tried ==> !Honest(p, info, x)
    ensures r.Failed? ==> |tried| == maxRetries + 1 || forall x :: x in candidates ==> x in tried
    ensures r.Failed? && |Elements(candidates)| <= maxRetries + 1 ==>
      forall x :: x in candidates ==> !Honest(p, info, x)
  {
    tried := [];
    var attempt := 0;
    while attempt <= maxRetries
      invariant attempt == |tried| <= maxRetries + 1
      invariant forall i, j :: 0 <= i < j < |tried| ==> tried[i] != tried[j]
      invariant forall x :: x in tried ==> x in candidates && !Honest(p, info, x)
    {
      var available: seq<string> := [];
      for i := 0 to |candidates|
        invariant forall x :: x in available ==> x in candidates && x !in tried
        invariant forall j :: 0 <= j < i && candidates[j] !in tried ==> candidates[j] in available
      {
        if candidates[i] !in tried {
          available := available + [candidates[i]];
        }
      }
      if |available| == 0 {
        assert forall x :: x in candidates ==> x in tried;
        return Failed, tried;
      }
      var pick :| 0 <= pick < |available|;
      var peer := available[pick];
      assert peer in available;
      assert forall i :: 0 <= i < |tried| ==> tried[i] in tried;
      tried := tried + [peer];
      attempt := attempt + 1;

      var enc := p.fetch(peer);
      if enc.None? {
        continue;
      }
      var plain := p.decrypt(enc.value);
      if plain.None? {
        continue;
      }
      if info.compressed {
        plain := p.decompress(plain.value);
        if plain.None? {
          continue;
        }
      }
      if Hex(Sum256(plain.value)) != info.hash {
        continue;
      }
      return Plain(plain.value), tried;
    }
    DistinctCounts(tried);
    if |Elements(candidates)| <= maxRetries + 1 {
      SubsetOfSameSize(Elements(tried), Elements(candidates));
      assert forall x :: x in candidates ==> x in Elements(candidates);
    }
    r := Failed;
  }
}
