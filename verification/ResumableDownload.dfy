/** Resumable random-access download: the `.part` file, the claims in its sidecar, and the concurrent
    chunk writers (Server/server.go GetDataToFile and fastVerifyChunks, Storage/resume/resume.go,
    Server/downloader/downloader.go DownloadToFileResumable). */
module ResumableDownload {
  import opened Common
  import opened Indices
  import opened Sha256
  import opened Chunker
  import opened ChunkFetch
  import opened Lines

  // ---------------------------------------------------------------- the sidecar

  datatype Header = Header(storageKey: string, totalChunks: nat, totalSize: nat, merkleRoot: Digest)

  function HeaderFor(m: Manifest): Header {
    Header(m.fileKey, |m.chunks|, m.totalSize, m.merkleRoot)
  }

  predicate HeaderMatches(h: Header, m: Manifest) {
    h.storageKey == m.fileKey && h.merkleRoot == m.merkleRoot && h.totalChunks == |m.chunks| && h.totalSize == m.totalSize
  }

  /** A sidecar accepted for a manifest was created for the same sequence of chunk hashes: the root
      together with the chunk count identifies the list, whatever else differs. */
  lemma AcceptedSidecarIsForSameChunks(created: Manifest, current: Manifest)
    requires created.merkleRoot == Root(Leaves(created.chunks)) && current.merkleRoot == Root(Leaves(current.chunks))
    requires forall i :: 0 <= i < |created.chunks| ==> created.chunks[i].hash.Hex?
    requires forall i :: 0 <= i < |current.chunks| ==> current.chunks[i].hash.Hex?
    ensures HeaderMatches(HeaderFor(created), current) <==>
      && created.fileKey == current.fileKey && created.totalSize == current.totalSize
      && |created.chunks| == |current.chunks|
      && forall i :: 0 <= i < |created.chunks| ==> created.chunks[i].hash == current.chunks[i].hash
  {
    var xs, ys := Leaves(created.chunks), Leaves(current.chunks);
    if |xs| == |ys| {
      RootInjective(xs, ys);
      if xs == ys {
        forall i | 0 <= i < |xs| ensures created.chunks[i].hash == current.chunks[i].hash {
          assert xs[i] == ys[i];
        }
      }
    }
  }

  /** How the header line and the index lines are written and parsed; blank and corrupt lines parse to
      nothing. */
  datatype Codec = Codec(header: Header -> Text, parseHeader: Text -> Option<Header>, index: nat -> Text, parseIndex: Text -> Option<int>)

  ghost predicate Faithful(c: Codec) {
    && (forall h :: '\n' !in c.header(h) && c.parseHeader(c.header(h)) == Some(h))
    && (forall i :: '\n' !in c.index(i) && c.parseIndex(c.index(i)) == Some(i as int))
  }

  datatype OpenResult = Absent | Empty | BadHeader | Opened(header: Header, claimed: set<nat>)

  predicate Names(c: Codec, lines: seq<Text>, i: nat) {
    exists k :: 0 <= k < |lines| && c.parseIndex(lines[k]) == Some(i as int)
  }

  function Claims(c: Codec, total: nat, lines: seq<Text>): set<nat> {
    set i: nat | i < total && Names(c, lines, i)
  }

  function OpenSpec(c: Codec, file: Option<Text>): OpenResult {
    match file
    case None => Absent
    case Some(text) =>
      var lines := Scan([], text);
      if lines == [] then Empty
      else
        match c.parseHeader(lines[0])
        case None => BadHeader
        case Some(h) => Opened(h, Claims(c, h.totalChunks, lines[1..]))
  }

  method Open(c: Codec, file: Option<Text>) returns (r: OpenResult)
    ensures r == OpenSpec(c, file)
  {
    if file.None? {
      return Absent;
    }
    var lines := Scan([], file.value);
    if |lines| == 0 {
      return Empty;
    }
    var header := c.parseHeader(lines[0]);
    if header.None? {
      return BadHeader;
    }
    var claimed := OpenClaims(c, header.value, lines[1..]);
    r := Opened(header.value, claimed);
  }

  /** The index lines after the header. */
  method OpenClaims(c: Codec, h: Header, lines: seq<Text>) returns (claimed: set<nat>)
    ensures claimed == Claims(c, h.totalChunks, lines)
  {
    claimed := {};
    for k := 0 to |lines|
      invariant claimed == Claims(c, h.totalChunks, lines[..k])
    {
      ClaimsStep(c, h.totalChunks, lines, k);
      var idx := c.parseIndex(lines[k]);
      if idx.Some? && idx.value >= 0 && idx.value < h.totalChunks {
        claimed := claimed + {idx.value};
      }
    }
    assert lines[..|lines|] == lines;
  }

  lemma ClaimsStep(c: Codec, total: nat, lines: seq<Text>, k: nat)
    requires k < |lines|
    ensures var claim := c.parseIndex(lines[k]);
      Claims(c, total, lines[..k + 1])
        == if claim.Some? && 0 <= claim.value < total then Claims(c, total, lines[..k]) + {claim.value} else Claims(c, total, lines[..k])
  {
    var before, after := lines[..k], lines[..k + 1];
    forall i: nat | i < total
      ensures i in Claims(c, total, after) <==> i in Claims(c, total, before) || c.parseIndex(lines[k]) == Some(i as int)
    {
      if i in Claims(c, total, before) {
        var j :| 0 <= j < k && c.parseIndex(before[j]) == Some(i as int);
        assert after[j] == before[j];
      }
      if c.parseIndex(lines[k]) == Some(i as int) {
        assert after[k] == lines[k];
      }
    }
  }

  function Recorded(c: Codec, log: seq<nat>): Text {
    if log == [] then [] else c.index(log[0]) + "\n" + Recorded(c, log[1..])
  }

  lemma {:induction false} ScanRecorded(c: Codec, log: seq<nat>)
    requires Faithful(c)
    ensures |Scan([], Recorded(c, log))| == |log|
    ensures forall k :: 0 <= k < |log| ==> Scan([], Recorded(c, log))[k] == c.index(log[k])
  {
    if log != [] {
      ScanLine([], c.index(log[0]), Recorded(c, log[1..]));
      assert [] + c.index(log[0]) == c.index(log[0]);
      ScanRecorded(c, log[1..]);
    }
  }

  /** What an attempt recorded is what the next one finds claimed. */
  lemma RecordedAreClaimed(c: Codec, h: Header, log: seq<nat>)
    requires Faithful(c)
    ensures OpenSpec(c, Some(c.header(h) + "\n" + Recorded(c, log))) == Opened(h, set i | i in log && i < h.totalChunks)
  {
    ScanLine([], c.header(h), Recorded(c, log));
    assert [] + c.header(h) == c.header(h);
    ScanRecorded(c, log);
    var lines := Scan([], Recorded(c, log));
    var all := Scan([], c.header(h) + "\n" + Recorded(c, log));
    assert all[0] == c.header(h) && all[1..] == lines;
    forall i: nat | i < h.totalChunks ensures i in Claims(c, h.totalChunks, lines) <==> i in log {
      if i in log {
        var k :| 0 <= k < |log| && log[k] == i;
        assert c.parseIndex(lines[k]) == Some(i as int);
      }
    }
  }

  // ---------------------------------------------------------------- file contents

  function Region(file: Bytes, off: nat, len: nat): Bytes
    requires off + len <= |file|
  {
    file[off..off + len]
  }

  function Zeros(n: nat): (z: Bytes)
    ensures |z| == n
  {
    seq(n, _ => 0)
  }

  function Truncate(file: Bytes, size: nat): (r: Bytes)
    ensures |r| == size
  {
    if |file| >= size then file[..size] else file + Zeros(size - |file|)
  }

  /** A write beyond the end extends the file; writing nothing changes nothing. */
  function WriteAt(file: Bytes, off: nat, data: Bytes): (r: Bytes)
    ensures |r| == if data == [] || off + |data| <= |file| then |file| else off + |data|
    ensures off + |data| <= |file| ==> r == file[..off] + data + file[off + |data|..]
  {
    if data == [] then file
    else
      var f := if off + |data| <= |file| then file else Truncate(file, off + |data|);
      f[..off] + data + f[off + |data|..]
  }

  lemma WriteRegions(file: Bytes, off: nat, data: Bytes, off2: nat, len2: nat)
    requires off + |data| <= |file| && off2 + len2 <= |file|
    requires off2 + len2 <= off || off + |data| <= off2
    ensures Region(WriteAt(file, off, data), off2, len2) == Region(file, off2, len2)
  {
    var r := WriteAt(file, off, data);
    forall p | off2 <= p < off2 + len2 ensures r[p] == file[p] {}
  }

  // ---------------------------------------------------------------- the manifest of a real file

  /** `m` is the manifest of `data`. */
  ghost predicate ManifestFor(m: Manifest, data: Bytes) {
    && m.chunkSize > 0 && Describes(m.chunks, data, m.chunkSize)
    && m.totalSize == |data| && m.merkleRoot == Root(Leaves(m.chunks))
  }

  function Part(m: Manifest, data: Bytes, i: nat): Bytes
    requires m.chunkSize > 0 && i < |Split(data, m.chunkSize)|
  {
    Split(data, m.chunkSize)[i]
  }

  /** What BuildManifest makes of the chunk reader's output is such a manifest. */
  lemma BuiltManifestFits(fileKey: string, infos: seq<ChunkInfo>, data: Bytes)
    requires Describes(infos, data, DEFAULT_CHUNK_SIZE)
    ensures ManifestFor(ManifestOf(fileKey, infos), data)
  {
    TotalIsLength(infos, data, DEFAULT_CHUNK_SIZE);
  }

  /** The length fastVerifyChunks assumes: the chunk size, or for the last chunk the remainder. */
  function ChunkLen(m: Manifest, i: nat): nat {
    var offset := i * m.chunkSize;
    if i + 1 == |m.chunks| && 0 < m.totalSize - offset < m.chunkSize then m.totalSize - offset else m.chunkSize
  }

  lemma ChunkLenIsTrueLength(m: Manifest, data: Bytes, i: nat)
    requires ManifestFor(m, data) && i < |m.chunks|
    ensures ChunkLen(m, i) == |Part(m, data, i)|
    ensures i * m.chunkSize + ChunkLen(m, i) <= |data|
    ensures Region(data, i * m.chunkSize, ChunkLen(m, i)) == Part(m, data, i)
  {
    SplitTiles(data, m.chunkSize, i);
  }

  lemma ChunksDisjoint(m: Manifest, data: Bytes, i: nat, j: nat)
    requires ManifestFor(m, data) && i < j < |m.chunks|
    ensures i * m.chunkSize + ChunkLen(m, i) <= j * m.chunkSize
  {
    SplitTiles(data, m.chunkSize, i);
    OneStep(i, j, m.chunkSize);
  }

  lemma OneStep(i: nat, j: nat, cs: nat)
    requires i < j
    ensures i * cs + cs <= j * cs
  {
    var d := j - i - 1;
    assert j == i + 1 + d;
    assert (i + 1 + d) * cs == i * cs + cs + d * cs;
  }

  /** The chunk's slice of the file holds what hashes to the manifest's hash. */
  ghost predicate Good(m: Manifest, file: Bytes, i: nat) {
    && i < |m.chunks| && i * m.chunkSize + ChunkLen(m, i) <= |file|
    && Hex(Sum256(Region(file, i * m.chunkSize, ChunkLen(m, i)))) == m.chunks[i].hash
  }

  lemma AllGoodIsComplete(m: Manifest, data: Bytes, file: Bytes)
    requires ManifestFor(m, data) && |file| == |data|
    ensures (forall i :: 0 <= i < |m.chunks| ==> Good(m, file, i)) <==> file == data
  {
    forall i | 0 <= i < |m.chunks| ensures Good(m, data, i) {
      ChunkLenIsTrueLength(m, data, i);
    }
    if forall i :: 0 <= i < |m.chunks| ==> Good(m, file, i) {
      var cs := m.chunkSize;
      forall i | 0 <= i < |Split(data, cs)|
        ensures i * cs < |data| && file[i * cs..Min(|data|, i * cs + cs)] == Split(data, cs)[i]
      {
        SplitTiles(data, cs, i);
        ChunkLenIsTrueLength(m, data, i);
        assert Good(m, file, i);
      }
      TilesDetermine(data, cs, file);
    }
  }

  /** Keeps the claimed chunks whose bytes on disk have the manifest's hash, and only those. */
  method FastVerifyChunks(part: Option<Bytes>, m: Manifest, claimed: set<nat>) returns (verified: set<nat>)
    ensures part.None? ==> verified == {}
    ensures part.Some? ==> forall i :: i in verified <==> i in claimed && Good(m, part.value, i)
  {
    verified := {};
    if claimed == {} || part.None? {
      return;
    }
    var file := part.value;
    var left := claimed;
    while left != {}
      invariant left <= claimed
      invariant forall i :: i in verified <==> i in claimed - left && Good(m, file, i)
      decreases left
    {
      var idx :| idx in left;
      left := left - {idx};
      if idx >= |m.chunks| {
        continue;
      }
      var offset := idx * m.chunkSize;
      var chunkLen := m.chunkSize;
      if idx == |m.chunks| - 1 {
        var remainder := m.totalSize - offset;
        if remainder > 0 && remainder < chunkLen {
          chunkLen := remainder;
        }
      }
      if offset + chunkLen > |file| {
        continue;
      }
      if Hex(Sum256(file[offset..offset + chunkLen])) == m.chunks[idx].hash {
        verified := verified + {idx};
      }
    }
  }

  /** Truncation to the file's true size keeps every verified chunk. */
  lemma TruncateKeepsGood(m: Manifest, data: Bytes, file: Bytes, i: nat)
    requires ManifestFor(m, data) && Good(m, file, i)
    ensures Good(m, Truncate(file, |data|), i)
  {
    ChunkLenIsTrueLength(m, data, i);
    var off, len := i * m.chunkSize, ChunkLen(m, i);
    assert Region(Truncate(file, |data|), off, len) == Region(file, off, len);
  }

  // ---------------------------------------------------------------- the concurrent download

  datatype Phase = Fetching | Fetched(data: Bytes) | Landed

  datatype Main = Looping | Acquiring(idx: nat) | Waiting | Returned(ok: bool)

  datatype Job = Job(m: Manifest, skip: set<nat>, maxParallel: nat)

  /** `next` is the loop index, `workers` the running goroutines by chunk, `errs` the filled error
      slots, `recorded` the lines appended to the sidecar. */
  datatype State = State(
    main: Main, next: nat, cancelled: bool, workers: map<nat, Phase>, errs: set<nat>, done: set<nat>, file: Bytes, recorded: seq<nat>)

  datatype Action =
    | Cancel
    | Break
    | Skip
    | Claim
    | Spawn
    | EndLoop
    | FetchDone(i: nat, outcome: Outcome)
    | Write(i: nat, ok: bool, count: nat)
    | Record(i: nat)
    | Return

  predicate NothingToFetch(job: Job) {
    forall i :: 0 <= i < |job.m.chunks| ==> i in job.skip
  }

  function Init(job: Job, file: Bytes): State {
    State(if job.m.chunks == [] then Returned(true)
          else if NothingToFetch(job) then Returned(job.m.merkleRoot == Root(Leaves(job.m.chunks)))
          else Looping,
          0, false, map[], {}, {}, file, [])
  }

  ghost predicate Enabled(job: Job, s: State, a: Action) {
    match a
    case Cancel => !s.cancelled
    case Break => s.main == Looping && s.next < |job.m.chunks| && s.cancelled
    case Skip => s.main == Looping && s.next < |job.m.chunks| && !s.cancelled && s.next in job.skip
    case Claim => s.main == Looping && s.next < |job.m.chunks| && !s.cancelled && s.next !in job.skip
    case Spawn => s.main.Acquiring? && |s.workers| < job.maxParallel
    case EndLoop => s.main == Looping && s.next >= |job.m.chunks|
    case FetchDone(i, o) => i in s.workers && s.workers[i].Fetching? && i < |job.m.chunks| && Verified(job.m.chunks[i], o)
    case Write(i, ok, count) =>
      i in s.workers && s.workers[i].Fetched? && count <= |s.workers[i].data|
    case Record(i) => i in s.workers && s.workers[i].Landed?
    case Return => s.main == Waiting && s.workers == map[]
  }

  ghost function Apply(job: Job, s: State, a: Action): State
    requires Enabled(job, s, a)
  {
    match a
    case Cancel => s.(cancelled := true)
    case Break => s.(main := Waiting)
    case Skip => s.(next := s.next + 1)
    case Claim => s.(main := Acquiring(s.next), next := s.next + 1)
    case Spawn => s.(main := Looping, workers := s.workers[s.main.idx := Fetching])
    case EndLoop => s.(main := Waiting)
    case FetchDone(i, o) =>
      if o.Failed? then s.(workers := s.workers - {i}, errs := s.errs + {i})
      else s.(workers := s.workers[i := Fetched(o.data)])
    case Write(i, ok, count) =>
      var data := s.workers[i].data;
      if ok
      then s.(file := WriteAt(s.file, i * job.m.chunkSize, data), workers := s.workers[i := Landed], done := s.done + {i})
      else s.(file := WriteAt(s.file, i * job.m.chunkSize, data[..count]), workers := s.workers - {i}, errs := s.errs + {i})
    case Record(i) => s.(recorded := s.recorded + [i], workers := s.workers - {i})
    case Return => s.(main := Returned(s.errs == {} && job.m.merkleRoot == Root(Leaves(job.m.chunks))))
  }

  /** The bytes of skipped and finished chunks are right. */
  ghost predicate Contents(job: Job, data: Bytes, s: State) {
    && ManifestFor(job.m, data) && |s.file| == |data|
    && (forall i :: i in job.skip && i < |job.m.chunks| ==> Good(job.m, s.file, i))
    && (forall i :: i in s.done ==> Good(job.m, s.file, i))
    && (forall i :: i in s.workers && s.workers[i].Fetched? ==> i < |job.m.chunks| && s.workers[i].data == Part(job.m, data, i))
  }

  /** Every chunk dealt with so far is skipped, running, failed or done. */
  ghost predicate Books(job: Job, s: State) {
    && s.next <= |job.m.chunks|
    && (forall i :: i in s.workers ==> i < s.next && i !in job.skip && (i in s.done <==> s.workers[i].Landed?))
    && (forall i :: 0 <= i < s.next ==>
          i in job.skip || i in s.workers || i in s.errs || i in s.done || s.main == Acquiring(i))
    && (s.main.Acquiring? ==>
          s.main.idx == s.next - 1 && s.main.idx !in job.skip && s.main.idx !in s.workers && s.main.idx !in s.done)
    && (forall i :: i in s.done ==> i < s.next)
    && (forall i :: i in s.recorded ==> i in s.done)
    && (s.main.Waiting? ==> s.cancelled || s.next == |job.m.chunks|)
    && (s.main.Returned? ==> s.workers == map[] && (NothingToFetch(job) || s.cancelled || s.next == |job.m.chunks|))
    && (s.main == Returned(true) ==> s.errs == {})
  }

  ghost predicate Inv(job: Job, data: Bytes, s: State) {
    Contents(job, data, s) && Books(job, s)
  }

  /** The file has its full size and the skipped chunks were verified in it. */
  ghost predicate Resumable(job: Job, data: Bytes, file: Bytes) {
    && ManifestFor(job.m, data) && |file| == |data|
    && forall i :: i in job.skip && i < |job.m.chunks| ==> Good(job.m, file, i)
  }

  lemma InitInv(job: Job, data: Bytes, file: Bytes)
    requires Resumable(job, data, file)
    ensures Inv(job, data, Init(job, file))
  {
  }

  /** A chunk's write, complete or torn, changes no other chunk's bytes. */
  lemma WriteKeepsOthers(m: Manifest, data: Bytes, file: Bytes, i: nat, bytes: Bytes, j: nat)
    requires ManifestFor(m, data) && |file| == |data| && i < |m.chunks| && |bytes| <= ChunkLen(m, i)
    requires i * m.chunkSize + |bytes| <= |file| && j != i && Good(m, file, j)
    ensures Good(m, WriteAt(file, i * m.chunkSize, bytes), j)
  {
    if i < j {
      ChunksDisjoint(m, data, i, j);
    } else {
      ChunksDisjoint(m, data, j, i);
    }
    WriteRegions(file, i * m.chunkSize, bytes, j * m.chunkSize, ChunkLen(m, j));
  }

  lemma WriteMakesGood(m: Manifest, data: Bytes, file: Bytes, i: nat)
    requires ManifestFor(m, data) && |file| == |data| && i < |m.chunks|
    ensures i * m.chunkSize + |Part(m, data, i)| <= |file|
    ensures Good(m, WriteAt(file, i * m.chunkSize, Part(m, data, i)), i)
  {
    ChunkLenIsTrueLength(m, data, i);
    var off, bytes := i * m.chunkSize, Part(m, data, i);
    assert Region(WriteAt(file, off, bytes), off, |bytes|) == bytes;
  }

  lemma WriteInv(job: Job, data: Bytes, s: State, i: nat, ok: bool, count: nat)
    requires Inv(job, data, s) && Enabled(job, s, Write(i, ok, count))
    ensures Inv(job, data, Apply(job, s, Write(i, ok, count)))
  {
    var s' := Apply(job, s, Write(i, ok, count));
    var bytes := if ok then s.workers[i].data else s.workers[i].data[..count];
    ChunkLenIsTrueLength(job.m, data, i);
    forall j | j != i && Good(job.m, s.file, j) ensures Good(job.m, s'.file, j) {
      WriteKeepsOthers(job.m, data, s.file, i, bytes, j);
    }
    if ok {
      WriteMakesGood(job.m, data, s.file, i);
    }
  }

  lemma FetchInv(job: Job, data: Bytes, s: State, i: nat, o: Outcome)
    requires Inv(job, data, s) && Enabled(job, s, FetchDone(i, o))
    ensures Inv(job, data, Apply(job, s, FetchDone(i, o)))
  {
    if o.Plain? {
      assert Hex(Sum256(o.data)) == Hex(Sum256(Part(job.m, data, i)));
    }
  }

  lemma RecordInv(job: Job, data: Bytes, s: State, i: nat)
    requires Inv(job, data, s) && Enabled(job, s, Record(i))
    ensures Inv(job, data, Apply(job, s, Record(i)))
  {
  }

  lemma DispatchBooks(job: Job, s: State, a: Action)
    requires Books(job, s) && Enabled(job, s, a) && (a.Skip? || a.Claim? || a.Spawn?)
    ensures Books(job, Apply(job, s, a))
  {
  }

  /** The books need no manifest of a real file: any hashes, sizes and writes keep them. */
  lemma StepBooks(job: Job, s: State, a: Action)
    requires Books(job, s) && Enabled(job, s, a)
    ensures Books(job, Apply(job, s, a))
  {
    match a
    case Skip => DispatchBooks(job, s, a);
    case Claim => DispatchBooks(job, s, a);
    case Spawn => DispatchBooks(job, s, a);
    case Write(i, ok, count) => WriteBooks(job, s, i, ok, count);
    case FetchDone(i, o) => FetchBooks(job, s, i, o);
    case Record(i) => RecordBooks(job, s, i);
    case _ =>
  }

  lemma WriteBooks(job: Job, s: State, i: nat, ok: bool, count: nat)
    requires Books(job, s) && Enabled(job, s, Write(i, ok, count))
    ensures Books(job, Apply(job, s, Write(i, ok, count)))
  {
  }

  lemma FetchBooks(job: Job, s: State, i: nat, o: Outcome)
    requires Books(job, s) && Enabled(job, s, FetchDone(i, o))
    ensures Books(job, Apply(job, s, FetchDone(i, o)))
  {
  }

  lemma RecordBooks(job: Job, s: State, i: nat)
    requires Books(job, s) && Enabled(job, s, Record(i))
    ensures Books(job, Apply(job, s, Record(i)))
  {
  }

  lemma DispatchInv(job: Job, data: Bytes, s: State, a: Action)
    requires Inv(job, data, s) && Enabled(job, s, a) && (a.Skip? || a.Claim? || a.Spawn?)
    ensures Inv(job, data, Apply(job, s, a))
  {
    DispatchBooks(job, s, a);
  }

  lemma StepInv(job: Job, data: Bytes, s: State, a: Action)
    requires Inv(job, data, s) && Enabled(job, s, a)
    ensures Inv(job, data, Apply(job, s, a))
  {
    match a
    case Write(i, ok, count) => WriteInv(job, data, s, i, ok, count);
    case FetchDone(i, o) => FetchInv(job, data, s, i, o);
    case Record(i) => RecordInv(job, data, s, i);
    case Skip => DispatchInv(job, data, s, a);
    case Claim => DispatchInv(job, data, s, a);
    case Spawn => DispatchInv(job, data, s, a);
    case _ =>
  }

  ghost predicate IsRun(job: Job, file: Bytes, states: seq<State>, acts: seq<Action>) {
    && |states| == |acts| + 1 && states[0] == Init(job, file)
    && forall i :: 0 <= i < |acts| ==> Enabled(job, states[i], acts[i]) && states[i + 1] == Apply(job, states[i], acts[i])
  }

  lemma {:induction false} RunInv(job: Job, data: Bytes, file: Bytes, states: seq<State>, acts: seq<Action>, i: nat)
    requires IsRun(job, file, states, acts) && i <= |acts|
    requires Resumable(job, data, file)
    ensures Inv(job, data, states[i])
  {
    if i == 0 {
      InitInv(job, data, file);
    } else {
      RunInv(job, data, file, states, acts, i - 1);
      StepInv(job, data, states[i - 1], acts[i - 1]);
    }
  }

  /** A whole resume: whatever the `.part` file held and whatever the sidecar claimed (so, after a
      crash at any point of any earlier run), if the download returns nil and its context was never
      cancelled, the file is the original. Chunks the sidecar names in this run are on disk. */
  lemma ResumedDownloadIsOriginal(m: Manifest, data: Bytes, part: Bytes, claimed: set<nat>, verified: set<nat>, maxParallel: nat,
                                  states: seq<State>, acts: seq<Action>)
    requires ManifestFor(m, data)
    requires forall i :: i in verified <==> i in claimed && Good(m, part, i)
    requires IsRun(Job(m, verified, maxParallel), Truncate(part, m.totalSize), states, acts)
    ensures var s := states[|acts|];
      && |s.file| == |data|
      && (s.main == Returned(true) && !s.cancelled ==> s.file == data)
      && (forall i :: i in s.recorded ==> Good(m, s.file, i))
  {
    var job := Job(m, verified, maxParallel);
    forall i | i in verified ensures Good(m, Truncate(part, |data|), i) {
      TruncateKeepsGood(m, data, part, i);
    }
    RunInv(job, data, Truncate(part, m.totalSize), states, acts, |acts|);
    var s := states[|acts|];
    if s.main == Returned(true) && !s.cancelled {
      forall i | 0 <= i < |m.chunks| ensures Good(m, s.file, i) {}
      AllGoodIsComplete(m, data, s.file);
    }
  }

  /** A chunk the dispatch loop has not reached keeps the bytes it had. */
  ghost predicate Unreached(job: Job, file: Bytes, s: State) {
    && |s.file| == |file|
    && forall i :: s.next <= i < |job.m.chunks| ==> (Good(job.m, s.file, i) <==> Good(job.m, file, i))
  }

  lemma WriteKeepsLater(m: Manifest, data: Bytes, file: Bytes, i: nat, bytes: Bytes, j: nat)
    requires ManifestFor(m, data) && |file| == |data| && i < j < |m.chunks| && |bytes| <= ChunkLen(m, i)
    ensures i * m.chunkSize + |bytes| <= |file|
    ensures Good(m, WriteAt(file, i * m.chunkSize, bytes), j) <==> Good(m, file, j)
  {
    ChunkLenIsTrueLength(m, data, i);
    ChunkLenIsTrueLength(m, data, j);
    ChunksDisjoint(m, data, i, j);
    WriteRegions(file, i * m.chunkSize, bytes, j * m.chunkSize, ChunkLen(m, j));
  }

  lemma StepUnreached(job: Job, data: Bytes, file: Bytes, s: State, a: Action)
    requires Inv(job, data, s) && Unreached(job, file, s) && Enabled(job, s, a)
    ensures Unreached(job, file, Apply(job, s, a))
  {
    if a.Write? {
      var i := a.i;
      var bytes := if a.ok then s.workers[i].data else s.workers[i].data[..a.count];
      ChunkLenIsTrueLength(job.m, data, i);
      forall j | s.next <= j < |job.m.chunks|
        ensures Good(job.m, Apply(job, s, a).file, j) <==> Good(job.m, s.file, j)
      {
        WriteKeepsLater(job.m, data, s.file, i, bytes, j);
      }
    }
  }

  lemma {:induction false} RunUnreached(job: Job, data: Bytes, file: Bytes, states: seq<State>, acts: seq<Action>, i: nat)
    requires IsRun(job, file, states, acts) && i <= |acts|
    requires Resumable(job, data, file)
    ensures Unreached(job, file, states[i])
  {
    if i > 0 {
      RunUnreached(job, data, file, states, acts, i - 1);
      RunInv(job, data, file, states, acts, i - 1);
      StepUnreached(job, data, file, states[i - 1], acts[i - 1]);
    }
  }

  /** A nil return in general: the file is complete exactly when the file before the call was right
      already in the chunks the dispatch loop never reached. */
  lemma NilReturnIff(job: Job, data: Bytes, file: Bytes, states: seq<State>, acts: seq<Action>)
    requires IsRun(job, file, states, acts)
    requires Resumable(job, data, file)
    requires states[|acts|].main == Returned(true)
    ensures var s := states[|acts|];
      s.file == data <==> forall i :: s.next <= i < |job.m.chunks| && i !in job.skip ==> Good(job.m, file, i)
  {
    RunInv(job, data, file, states, acts, |acts|);
    RunUnreached(job, data, file, states, acts, |acts|);
    AllGoodIsComplete(job.m, data, states[|acts|].file);
  }

  /** Whether a nil return can be trusted under cancellation is settled before the call: every run that
      returns nil leaves the original exactly when the file is the original already. */
  lemma NilAlwaysCompleteIff(job: Job, data: Bytes, file: Bytes)
    requires Resumable(job, data, file)
    ensures (forall states: seq<State>, acts: seq<Action> ::
               ReturnsNil(job, file, states, acts) ==> states[|acts|].file == data) <==> file == data
  {
    AllGoodIsComplete(job.m, data, file);
    if file == data {
      forall states: seq<State>, acts: seq<Action> | ReturnsNil(job, file, states, acts) ensures states[|acts|].file == data {
        NilReturnIff(job, data, file, states, acts);
      }
    } else if !NothingToFetch(job) {
      var states, acts := CancelledReturnsNil(job, data, file);
      assert ReturnsNil(job, file, states, acts);
    }
  }

  ghost predicate ReturnsNil(job: Job, file: Bytes, states: seq<State>, acts: seq<Action>) {
    IsRun(job, file, states, acts) && states[|acts|].main == Returned(true)
  }

  /** "Returned nil implies complete" fails under cancellation: cancelled before the first dispatch,
      the call returns nil and the file is what it was. */
  lemma CancelledReturnsNil(job: Job, data: Bytes, file: Bytes) returns (states: seq<State>, acts: seq<Action>)
    requires ManifestFor(job.m, data) && !NothingToFetch(job)
    ensures IsRun(job, file, states, acts)
    ensures states[|acts|].main == Returned(true) && states[|acts|].file == file
  {
    var s0 := Init(job, file);
    var s1 := Apply(job, s0, Cancel);
    var s2 := Apply(job, s1, Break);
    var s3 := Apply(job, s2, Return);
    states, acts := [s0, s1, s2, s3], [Cancel, Break, Return];
  }

  // ---------------------------------------------------------------- no deadlock, no livelock

  lemma {:induction false} RunBooks(job: Job, file: Bytes, states: seq<State>, acts: seq<Action>, i: nat)
    requires IsRun(job, file, states, acts) && i <= |acts|
    ensures Books(job, states[i])
  {
    if i > 0 {
      RunBooks(job, file, states, acts, i - 1);
      StepBooks(job, states[i - 1], acts[i - 1]);
    }
  }

  lemma WorkerProgress(job: Job, s: State, i: nat) returns (a: Action)
    requires Books(job, s) && i in s.workers
    ensures !a.Cancel? && Enabled(job, s, a)
  {
    match s.workers[i]
    case Fetching => a := FetchDone(i, Failed);
    case Fetched(_) => a := Write(i, true, 0);
    case Landed => a := Record(i);
  }

  /** Until the call has returned some goroutine can take a step, for any manifest. */
  lemma Progress(job: Job, s: State) returns (a: Action)
    requires Books(job, s) && job.maxParallel > 0 && !s.main.Returned?
    ensures !a.Cancel? && Enabled(job, s, a)
  {
    if (s.main.Waiting? && s.workers != map[]) || (s.main.Acquiring? && |s.workers| >= job.maxParallel) {
      var i :| i in s.workers;
      a := WorkerProgress(job, s, i);
    } else {
      match s.main
      case Looping =>
        a := if s.next >= |job.m.chunks| then EndLoop else if s.cancelled then Break else if s.next in job.skip then Skip else Claim;
      case Acquiring(_) => a := Spawn;
      case Waiting => a := Return;
    }
  }

  function PhaseRank(p: Phase): nat {
    match p case Fetching => 3 case Fetched(_) => 2 case Landed => 1
  }

  function AtLeast(ws: map<nat, Phase>, k: nat): set<nat> {
    set i | i in ws && PhaseRank(ws[i]) >= k
  }

  function Weight(ws: map<nat, Phase>): nat {
    |AtLeast(ws, 1)| + |AtLeast(ws, 2)| + |AtLeast(ws, 3)|
  }

  function MainRank(m: Main): nat {
    match m case Looping => 2 case Acquiring(_) => 6 case Waiting => 1 case Returned(_) => 0
  }

  function Rank(job: Job, s: State): nat
    requires s.next <= |job.m.chunks|
  {
    6 * (|job.m.chunks| - s.next) + Weight(s.workers) + MainRank(s.main) + if s.cancelled then 0 else 1
  }

  lemma LowerLevel(ws: map<nat, Phase>, ws': map<nat, Phase>, i: nat, k: nat)
    requires i in ws && ws' - {i} == ws - {i} && (i in ws' ==> PhaseRank(ws'[i]) < PhaseRank(ws[i]))
    ensures |AtLeast(ws', k)| <= |AtLeast(ws, k)|
    ensures k == PhaseRank(ws[i]) ==> |AtLeast(ws', k)| < |AtLeast(ws, k)|
  {
    var a, a' := AtLeast(ws, k), AtLeast(ws', k);
    forall j | j in a' && j != i ensures j in a {
      assert j in ws' - {i};
      assert (ws' - {i})[j] == (ws - {i})[j];
    }
    SubsetSize(a' - {i}, a - {i});
  }

  /** A worker that moves on, or exits, lowers the weight. */
  lemma LowerWeight(ws: map<nat, Phase>, ws': map<nat, Phase>, i: nat)
    requires i in ws && ws' - {i} == ws - {i} && (i in ws' ==> PhaseRank(ws'[i]) < PhaseRank(ws[i]))
    ensures Weight(ws') < Weight(ws)
  {
    LowerLevel(ws, ws', i, 1);
    LowerLevel(ws, ws', i, 2);
    LowerLevel(ws, ws', i, 3);
  }

  lemma SpawnWeight(ws: map<nat, Phase>, i: nat)
    requires i !in ws
    ensures Weight(ws[i := Fetching]) == Weight(ws) + 3
  {
    var ws' := ws[i := Fetching];
    assert AtLeast(ws', 1) == AtLeast(ws, 1) + {i};
    assert AtLeast(ws', 2) == AtLeast(ws, 2) + {i};
    assert AtLeast(ws', 3) == AtLeast(ws, 3) + {i};
  }

  /** Every step lowers the rank. */
  lemma StepRank(job: Job, s: State, a: Action)
    requires Books(job, s) && Enabled(job, s, a)
    ensures Apply(job, s, a).next <= |job.m.chunks|
    ensures Rank(job, Apply(job, s, a)) < Rank(job, s)
  {
    var ws, ws' := s.workers, Apply(job, s, a).workers;
    match a
    case Spawn => SpawnWeight(ws, s.main.idx);
    case FetchDone(i, o) => assert ws' - {i} == ws - {i}; LowerWeight(ws, ws', i);
    case Write(i, ok, count) => assert ws' - {i} == ws - {i}; LowerWeight(ws, ws', i);
    case Record(i) => assert ws' - {i} == ws - {i}; LowerWeight(ws, ws', i);
    case _ =>
  }

  lemma InitRank(job: Job, file: Bytes)
    ensures Rank(job, Init(job, file)) <= 6 * |job.m.chunks| + 3
  {
    assert AtLeast(map[], 1) == {} && AtLeast(map[], 2) == {} && AtLeast(map[], 3) == {};
  }

  lemma RunStepRank(job: Job, file: Bytes, states: seq<State>, acts: seq<Action>, i: nat)
    requires IsRun(job, file, states, acts) && i < |acts|
    ensures states[i].next <= |job.m.chunks| && states[i + 1].next <= |job.m.chunks|
    ensures Rank(job, states[i + 1]) < Rank(job, states[i])
  {
    RunBooks(job, file, states, acts, i);
    StepRank(job, states[i], acts[i]);
  }

  lemma {:induction false} RunBound(job: Job, file: Bytes, states: seq<State>, acts: seq<Action>, i: nat)
    requires IsRun(job, file, states, acts) && i <= |acts|
    ensures states[i].next <= |job.m.chunks| && i + Rank(job, states[i]) <= 6 * |job.m.chunks| + 3
    decreases i
  {
    if i == 0 {
      InitRank(job, file);
    } else {
      RunBound(job, file, states, acts, i - 1);
      RunStepRank(job, file, states, acts, i - 1);
    }
  }

  /** For any manifest and any file: under every schedule the call takes at most 6n + 3 steps, and a
      schedule that can go no further than a cancellation has returned and left no worker behind. */
  lemma EveryRunReturns(job: Job, file: Bytes, states: seq<State>, acts: seq<Action>)
    requires IsRun(job, file, states, acts) && job.maxParallel > 0
    ensures |acts| <= 6 * |job.m.chunks| + 3
    ensures (forall a :: Enabled(job, states[|acts|], a) ==> a.Cancel?) ==>
      states[|acts|].main.Returned? && states[|acts|].workers == map[]
  {
    RunBound(job, file, states, acts, |acts|);
    RunBooks(job, file, states, acts, |acts|);
    var s := states[|acts|];
    if !s.main.Returned? {
      var a := Progress(job, s);
      assert Enabled(job, s, a);
    }
  }

  // ---------------------------------------------------------------- what the returned error means

  predicate Failing(a: Action) {
    (a.FetchDone? && a.outcome.Failed?) || (a.Write? && !a.ok)
  }

  /** The chunks whose fetch or write failed in the run. */
  function FailedChunks(acts: seq<Action>): set<nat> {
    set j | 0 <= j < |acts| && Failing(acts[j]) :: acts[j].i
  }

  /** The error slots are those of the failed chunks, no more than maxParallel goroutines run, and a chunk
      that is done was recorded once, unless its goroutine is just about to. */
  ghost predicate Ledger(job: Job, s: State, failed: set<nat>) {
    && s.errs == failed
    && |s.workers| <= job.maxParallel
    && (forall i :: i in failed ==> i < s.next && i !in job.skip && i !in s.workers && i !in s.done && s.main != Acquiring(i))
    && s.done !! job.skip
    && (forall i :: multiset(s.recorded)[i] == if i in s.done && i !in s.workers then 1 else 0)
    && (!s.main.Returned? ==> job.m.chunks != [])
    && (s.main.Returned? ==>
          (s.main.ok <==> job.m.chunks == [] || (failed == {} && job.m.merkleRoot == Root(Leaves(job.m.chunks)))))
  }

  lemma FailedAppend(acts: seq<Action>, a: Action)
    ensures FailedChunks(acts + [a]) == if Failing(a) then FailedChunks(acts) + {a.i} else FailedChunks(acts)
  {
    var all := acts + [a];
    forall i | i in FailedChunks(acts) ensures i in FailedChunks(all) {
      var j :| 0 <= j < |acts| && Failing(acts[j]) && acts[j].i == i;
      assert all[j] == acts[j];
    }
    if Failing(a) {
      assert all[|acts|] == a;
    }
  }

  lemma FewerWorkers(s: State, ws: map<nat, Phase>, job: Job)
    requires ws.Keys <= s.workers.Keys && |s.workers| <= job.maxParallel
    ensures |ws| <= job.maxParallel
  {
    SubsetSize(ws.Keys, s.workers.Keys);
  }

  lemma FetchLedger(job: Job, s: State, i: nat, o: Outcome, failed: set<nat>)
    requires Books(job, s) && Ledger(job, s, failed) && Enabled(job, s, FetchDone(i, o))
    ensures Ledger(job, Apply(job, s, FetchDone(i, o)), failed + if o.Failed? then {i} else {})
  {
    FewerWorkers(s, Apply(job, s, FetchDone(i, o)).workers, job);
  }

  lemma WriteLedger(job: Job, s: State, i: nat, ok: bool, count: nat, failed: set<nat>)
    requires Books(job, s) && Ledger(job, s, failed) && Enabled(job, s, Write(i, ok, count))
    ensures Ledger(job, Apply(job, s, Write(i, ok, count)), failed + if ok then {} else {i})
  {
    FewerWorkers(s, Apply(job, s, Write(i, ok, count)).workers, job);
  }

  lemma RecordLedger(job: Job, s: State, i: nat, failed: set<nat>)
    requires Books(job, s) && Ledger(job, s, failed) && Enabled(job, s, Record(i))
    ensures Ledger(job, Apply(job, s, Record(i)), failed)
  {
    FewerWorkers(s, Apply(job, s, Record(i)).workers, job);
    assert multiset(s.recorded + [i]) == multiset(s.recorded) + multiset{i};
  }

  lemma DispatchLedger(job: Job, s: State, a: Action, failed: set<nat>)
    requires Books(job, s) && Ledger(job, s, failed) && Enabled(job, s, a) && !a.FetchDone? && !a.Write? && !a.Record?
    ensures Ledger(job, Apply(job, s, a), failed)
  {
  }

  lemma StepLedger(job: Job, s: State, a: Action, failed: set<nat>)
    requires Books(job, s) && Ledger(job, s, failed) && Enabled(job, s, a)
    ensures Ledger(job, Apply(job, s, a), failed + if Failing(a) then {a.i} else {})
  {
    match a
    case FetchDone(i, o) => FetchLedger(job, s, i, o, failed);
    case Write(i, ok, count) => WriteLedger(job, s, i, ok, count, failed);
    case Record(i) => RecordLedger(job, s, i, failed);
    case _ => DispatchLedger(job, s, a, failed);
  }

  lemma PrefixFailed(acts: seq<Action>, i: nat)
    requires i < |acts|
    ensures FailedChunks(acts[..i + 1]) == FailedChunks(acts[..i]) + if Failing(acts[i]) then {acts[i].i} else {}
  {
    assert acts[..i + 1] == acts[..i] + [acts[i]];
    FailedAppend(acts[..i], acts[i]);
  }

  lemma InitLedger(job: Job, file: Bytes)
    ensures Ledger(job, Init(job, file), {})
  {
  }

  lemma RunStepLedger(job: Job, s: State, acts: seq<Action>, i: nat)
    requires Books(job, s) && i < |acts| && Ledger(job, s, FailedChunks(acts[..i])) && Enabled(job, s, acts[i])
    ensures Ledger(job, Apply(job, s, acts[i]), FailedChunks(acts[..i + 1]))
  {
    var failed := FailedChunks(acts[..i]) + if Failing(acts[i]) then {acts[i].i} else {};
    StepLedger(job, s, acts[i], FailedChunks(acts[..i]));
    assert failed == FailedChunks(acts[..i + 1]) by {
      PrefixFailed(acts, i);
    }
  }

  lemma {:induction false} RunLedger(job: Job, file: Bytes, states: seq<State>, acts: seq<Action>, i: nat)
    requires IsRun(job, file, states, acts) && i <= |acts|
    ensures Ledger(job, states[i], FailedChunks(acts[..i]))
  {
    if i == 0 {
      InitLedger(job, file);
      assert FailedChunks(acts[..0]) == {};
    } else {
      RunLedger(job, file, states, acts, i - 1);
      RunBooks(job, file, states, acts, i - 1);
      RunStepLedger(job, states[i - 1], acts, i - 1);
    }
  }

  /** A call with chunks returns nil exactly when no fetch and no write failed and the root is that of the
      chunk list, for any manifest, cancelled or not. By then the sidecar has one new line for every
      finished chunk; without a cancellation these are all the missing chunks that did not fail. */
  lemma NilIffNothingFailed(job: Job, file: Bytes, states: seq<State>, acts: seq<Action>)
    requires IsRun(job, file, states, acts) && states[|acts|].main.Returned?
    ensures states[|acts|].main.ok <==>
            job.m.chunks == [] || (FailedChunks(acts) == {} && job.m.merkleRoot == Root(Leaves(job.m.chunks)))
    ensures multiset(states[|acts|].recorded) == multiset(states[|acts|].done)
    ensures !states[|acts|].cancelled ==>
      states[|acts|].done == (set i: nat | i < |job.m.chunks| && i !in job.skip) - FailedChunks(acts)
  {
    RunLedger(job, file, states, acts, |acts|);
    RunBooks(job, file, states, acts, |acts|);
    assert acts[..|acts|] == acts;
  }

  /** A download of a real file that is not cancelled and in which nothing fails returns nil and leaves the
      original. */
  lemma CleanRunDownloads(job: Job, data: Bytes, file: Bytes, states: seq<State>, acts: seq<Action>)
    requires IsRun(job, file, states, acts) && Resumable(job, data, file)
    requires states[|acts|].main.Returned? && !states[|acts|].cancelled && FailedChunks(acts) == {}
    ensures states[|acts|].main == Returned(true) && states[|acts|].file == data
  {
    RunInv(job, data, file, states, acts, |acts|);
    NilIffNothingFailed(job, file, states, acts);
    forall i | 0 <= i < |job.m.chunks| ensures Good(job.m, states[|acts|].file, i) {}
    AllGoodIsComplete(job.m, data, states[|acts|].file);
  }
}
