/** Crash-resumable upload: an append-only sidecar of JSON lines, re-created on every attempt, beside a
    content-addressed store (Storage/pending/pending.go, Server/server.go storeDataInternal), and what a
    download makes of the stored chunks. */
module PendingUpload {
  import opened Common
  import opened Sha256
  import opened Chunker
  import opened Lines
  import ChunkFetch
  import StreamCipher

  /** JSON as seen by the sidecar: the header line this attempt writes, and how lines are encoded
      and parsed. */
  datatype Codec = Codec(header: Text, isHeader: Text -> bool, encode: ChunkInfo -> Text, parse: Text -> Option<ChunkInfo>)

  /** A JSON object on one line: it parses back, and no proper prefix of it parses at all. */
  ghost predicate Sound(c: Codec) {
    && '\n' !in c.header && c.isHeader(c.header)
    && (forall n :: 0 <= n < |c.header| ==> !c.isHeader(c.header[..n]))
    && (forall r :: c.encode(r) != [] && '\n' !in c.encode(r) && c.parse(c.encode(r)) == Some(r))
    && (forall r, n :: 0 <= n < |c.encode(r)| ==> c.parse(c.encode(r)[..n]) == None)
  }

  // ---------------------------------------------------------------- loading

  /** The first-come records of the lines: unparsable lines and repeated indices are skipped. */
  function Records(c: Codec, lines: seq<Text>, seen: set<nat>): seq<ChunkInfo> {
    if lines == [] then []
    else
      var r := c.parse(lines[0]);
      if r.None? || r.value.index in seen then Records(c, lines[1..], seen)
      else [r.value] + Records(c, lines[1..], seen + {r.value.index})
  }

  function Skips(resumed: seq<ChunkInfo>): set<nat> {
    set r | r in resumed :: r.index
  }

  lemma SkipsAppend(infos: seq<ChunkInfo>, r: ChunkInfo)
    ensures Skips(infos + [r]) == Skips(infos) + {r.index}
  {
    assert r in infos + [r];
    forall x | x in infos ensures x in infos + [r] {}
  }

  /** Of the lines that parse to one index the first one counts. */
  predicate FirstCome(c: Codec, lines: seq<Text>, k: nat)
    requires k < |lines|
  {
    && c.parse(lines[k]).Some?
    && forall j :: 0 <= j < k && c.parse(lines[j]).Some? ==> c.parse(lines[j]).value.index != c.parse(lines[k]).value.index
  }

  /** `rs` are the records of the lines at the increasing positions `at`, which are the first ones of
      their indices. */
  ghost predicate Firsts(c: Codec, lines: seq<Text>, rs: seq<ChunkInfo>, at: seq<nat>) {
    && |rs| == |at|
    && (forall i, j :: 0 <= i < j < |at| ==> at[i] < at[j])
    && (forall i :: 0 <= i < |at| ==> at[i] < |lines| && c.parse(lines[at[i]]) == Some(rs[i]))
    && (forall k: nat :: k in at <==> k < |lines| && FirstCome(c, lines, k))
  }

  lemma FirstsSnoc(c: Codec, lines: seq<Text>, last: Text, rs: seq<ChunkInfo>, at: seq<nat>)
    requires Firsts(c, lines, rs, at)
    ensures var n := |lines|;
      if FirstCome(c, lines + [last], n) then Firsts(c, lines + [last], rs + [c.parse(last).value], at + [n])
      else Firsts(c, lines + [last], rs, at)
  {
    var all := lines + [last];
    forall k: nat | k < |lines| ensures FirstCome(c, all, k) <==> FirstCome(c, lines, k) {
      assert forall j :: 0 <= j <= k ==> all[j] == lines[j];
    }
  }

  /** Exactly the lines whose index no earlier line has give the records, in the order of the lines. */
  lemma {:induction false} RecordsAreFirst(c: Codec, lines: seq<Text>) returns (at: seq<nat>)
    ensures Firsts(c, lines, Records(c, lines, {}), at)
  {
    if lines == [] {
      at := [];
    } else {
      var n := |lines| - 1;
      var front, last := lines[..n], lines[n];
      var before := RecordsAreFirst(c, front);
      assert lines == front + [last];
      RecordsSnoc(c, front, last, {});
      FirstsSnoc(c, front, last, Records(c, front, {}), before);
      RecordedIndices(c, front, Records(c, front, {}), before);
      at := if FirstCome(c, lines, n) then before + [n] else before;
    }
  }

  lemma RecordedIndices(c: Codec, lines: seq<Text>, rs: seq<ChunkInfo>, at: seq<nat>)
    requires Firsts(c, lines, rs, at)
    ensures forall x: nat :: x in Skips(rs) <==>
              exists k :: 0 <= k < |lines| && c.parse(lines[k]).Some? && c.parse(lines[k]).value.index == x
  {
    forall k | 0 <= k < |lines| && c.parse(lines[k]).Some? ensures c.parse(lines[k]).value.index in Skips(rs) {
      var f := FirstOf(c, lines, k);
      assert f in at;
      var i :| 0 <= i < |at| && at[i] == f;
      assert rs[i] in rs;
    }
    forall r | r in rs ensures exists k :: 0 <= k < |lines| && c.parse(lines[k]).Some? && c.parse(lines[k]).value.index == r.index {
      var i :| 0 <= i < |rs| && rs[i] == r;
      assert c.parse(lines[at[i]]) == Some(r);
    }
  }

  lemma {:induction false} FirstOf(c: Codec, lines: seq<Text>, k: nat) returns (f: nat)
    requires k < |lines| && c.parse(lines[k]).Some?
    ensures f <= k && FirstCome(c, lines, f) && c.parse(lines[f]).value.index == c.parse(lines[k]).value.index
    decreases k
  {
    if FirstCome(c, lines, k) {
      f := k;
    } else {
      var j :| 0 <= j < k && c.parse(lines[j]).Some? && c.parse(lines[j]).value.index == c.parse(lines[k]).value.index;
      f := FirstOf(c, lines, j);
    }
  }

  lemma {:induction false} RecordsSnoc(c: Codec, lines: seq<Text>, last: Text, seen: set<nat>)
    ensures var r := c.parse(last);
      var rs := Records(c, lines, seen);
      Records(c, lines + [last], seen) == if r.None? || r.value.index in seen + Skips(rs) then rs else rs + [r.value]
    decreases |lines|
  {
    if lines == [] {
      assert [last][1..] == [] && Skips([]) == {};
    } else {
      var r := c.parse(lines[0]);
      var seen' := if r.None? || r.value.index in seen then seen else seen + {r.value.index};
      RecordsSnoc(c, lines[1..], last, seen');
      assert (lines + [last])[1..] == lines[1..] + [last];
      SkipsHead(Records(c, lines, seen));
    }
  }

  lemma SkipsHead(rs: seq<ChunkInfo>)
    ensures rs != [] ==> Skips(rs) == {rs[0].index} + Skips(rs[1..])
  {
    if rs != [] {
      assert rs == [rs[0]] + rs[1..];
    }
  }

  datatype LoadResult = NoSidecar | Corrupt | Loaded(infos: seq<ChunkInfo>)

  function LoadSpec(c: Codec, file: Option<Text>): LoadResult {
    match file
    case None => NoSidecar
    case Some(text) =>
      var lines := Scan([], text);
      if lines == [] || !c.isHeader(lines[0]) then Corrupt else Loaded(Records(c, lines[1..], {}))
  }

  method Load(c: Codec, file: Option<Text>) returns (r: LoadResult, completed: set<nat>)
    ensures r == LoadSpec(c, file)
    ensures r.Loaded? ==> completed == Skips(r.infos)
  {
    completed := {};
    if file.None? {
      return NoSidecar, completed;
    }
    var lines := Scan([], file.value);
    if |lines| == 0 || !c.isHeader(lines[0]) {
      return Corrupt, completed;
    }
    var infos: seq<ChunkInfo> := [];
    var i := 1;
    while i < |lines|
      invariant 1 <= i <= |lines|
      invariant Records(c, lines[1..], {}) == infos + Records(c, lines[i..], completed)
      invariant completed == Skips(infos)
    {
      var rec := c.parse(lines[i]);
      assert lines[i..][1..] == lines[i + 1..];
      i := i + 1;
      if rec.None? || rec.value.index in completed {
        continue;
      }
      SkipsAppend(infos, rec.value);
      completed := completed + {rec.value.index};
      infos := infos + [rec.value];
    }
    r := Loaded(infos);
  }

  // ---------------------------------------------------------------- the log of an attempt

  function Line(c: Codec, r: ChunkInfo): Text {
    c.encode(r) + "\n"
  }

  function Body(c: Codec, infos: seq<ChunkInfo>): Text {
    if infos == [] then [] else Line(c, infos[0]) + Body(c, infos[1..])
  }

  function Log(c: Codec, infos: seq<ChunkInfo>): Text {
    c.header + "\n" + Body(c, infos)
  }

  lemma {:induction false} BodyAppend(c: Codec, infos: seq<ChunkInfo>, r: ChunkInfo)
    ensures Body(c, infos + [r]) == Body(c, infos) + Line(c, r)
  {
    if infos == [] {
      assert infos + [r] == [r];
    } else {
      BodyAppend(c, infos[1..], r);
      assert (infos + [r])[1..] == infos[1..] + [r];
    }
  }

  ghost predicate Numbered(infos: seq<ChunkInfo>, base: nat) {
    forall i :: 0 <= i < |infos| ==> infos[i].index == base + i
  }

  /** How many records of a log body are whole, its last newline aside, when it is cut to `n` bytes. */
  function Whole(c: Codec, infos: seq<ChunkInfo>, n: nat): nat {
    if infos == [] then 0
    else
      var line := |c.encode(infos[0])|;
      if n <= line then (if n == line then 1 else 0) else 1 + Whole(c, infos[1..], n - line - 1)
  }

  lemma {:induction false} WholeIff(c: Codec, infos: seq<ChunkInfo>, n: nat, i: nat)
    requires i <= |infos|
    ensures Whole(c, infos, n) <= |infos|
    ensures i <= Whole(c, infos, n) <==> i == 0 || |Body(c, infos[..i])| <= n + 1
    decreases |infos|
  {
    if infos != [] {
      var line := |c.encode(infos[0])|;
      WholeIff(c, infos[1..], if n <= line then 0 else n - line - 1, if i == 0 then 0 else i - 1);
      if i > 0 {
        assert infos[..i][1..] == infos[1..][..i - 1];
        assert |Body(c, infos[..i])| == line + 1 + |Body(c, infos[1..][..i - 1])|;
        if i > 1 {
          assert infos[1..][..i - 1] != [];
        }
      }
    }
  }

  /** However a log body is cut, what parses is a prefix of its records. */
  lemma {:induction false} CutBody(c: Codec, infos: seq<ChunkInfo>, base: nat, seen: set<nat>, text: Text) returns (k: nat)
    requires Sound(c) && Numbered(infos, base) && text <= Body(c, infos) && forall i :: i in seen ==> i < base
    ensures k <= |infos| && Records(c, Scan([], text), seen) == infos[..k] && k == Whole(c, infos, |text|)
    ensures text == Body(c, infos) ==> k == |infos|
    decreases |infos|
  {
    if infos == [] {
      k := 0;
    } else {
      var line := c.encode(infos[0]);
      var body := Body(c, infos);
      if |text| <= |line| {
        CutLine(c, infos, seen, text);
        k := if text == line then 1 else 0;
        assert infos[..1] == [infos[0]];
      } else {
        var rest := text[|line| + 1..];
        assert body == line + "\n" + Body(c, infos[1..]);
        assert text == line + "\n" + rest;
        assert rest <= Body(c, infos[1..]);
        ScanLine([], line, rest);
        assert [] + line == line;
        var k' := CutBody(c, infos[1..], base + 1, seen + {base}, rest);
        k := k' + 1;
        assert Scan([], text)[1..] == Scan([], rest);
        assert infos[..k] == [infos[0]] + infos[1..][..k'];
      }
    }
  }

  lemma OneRecord(c: Codec, text: Text, seen: set<nat>)
    ensures c.parse(text) == None ==> Records(c, [text], seen) == []
    ensures c.parse(text).Some? && c.parse(text).value.index !in seen ==> Records(c, [text], seen) == [c.parse(text).value]
  {
    assert [text][1..] == [];
  }

  /** A cut within the first line. */
  lemma CutLine(c: Codec, infos: seq<ChunkInfo>, seen: set<nat>, text: Text)
    requires Sound(c) && infos != [] && text <= Body(c, infos) && |text| <= |c.encode(infos[0])| && infos[0].index !in seen
    ensures Records(c, Scan([], text), seen) == if text == c.encode(infos[0]) then [infos[0]] else []
    ensures text != Body(c, infos)
  {
    var line, n := c.encode(infos[0]), |text|;
    var body := line + "\n" + Body(c, infos[1..]);
    assert body == Body(c, infos);
    assert text == body[..n] == line[..n];
    ScanLast([], text);
    assert [] + text == text;
    OneRecord(c, text, seen);
    if n == |line| {
      assert text == line;
    }
  }

  /** However a whole log is cut (at any byte: a torn record, a torn header, an empty file), it loads
      as a prefix of its records or is rejected, and uncut it loads in full. */
  lemma CutLog(c: Codec, infos: seq<ChunkInfo>, text: Text) returns (k: nat)
    requires Sound(c) && Numbered(infos, 0) && text <= Log(c, infos)
    ensures k <= |infos| && k == if |text| <= |c.header| then 0 else Whole(c, infos, |text| - |c.header| - 1)
    ensures LoadSpec(c, Some(text)) == if text == [] || |text| < |c.header| then Corrupt else Loaded(infos[..k])
    ensures text == Log(c, infos) ==> LoadSpec(c, Some(text)) == Loaded(infos)
  {
    var h := c.header;
    if |text| <= |h| {
      assert text == h[..|text|];
      ScanLast([], text);
      assert [] + text == text;
      k := 0;
      if text == h && text != [] {
        assert Scan([], text)[1..] == [];
      }
    } else {
      var rest := text[|h| + 1..];
      assert text == h + "\n" + rest;
      ScanLine([], h, rest);
      assert [] + h == h;
      assert Scan([], text)[1..] == Scan([], rest);
      k := CutBody(c, infos, 0, {}, rest);
      if text == Log(c, infos) {
        assert rest == Body(c, infos);
        assert infos[..k] == infos;
      }
    }
  }

  // ---------------------------------------------------------------- what one attempt makes of a source

  /** zstd: None from `compress` when the chunk is not worth compressing or does not shrink. */
  datatype Compression = Compression(compress: Bytes -> Option<Bytes>, decompress: Bytes -> Option<Bytes>)

  ghost predicate Lossless(z: Compression) {
    forall b :: z.compress(b).Some? ==> z.decompress(z.compress(b).value) == Some(b)
  }

  /** The source with what the upload does to its chunks; no cipher on the plaintext path. */
  datatype Job = Job(key: string, source: Bytes, fileSize: nat, zip: Compression, cipher: Option<StreamCipher.Aead>)

  /** The stored form of chunk `i`: compressed where that helps, then encrypted with the chunk's index. */
  function Processed(job: Job, i: nat, part: Bytes): Bytes {
    var zipped := job.zip.compress(part);
    var plain := if zipped.Some? then zipped.value else part;
    if job.cipher.None? then plain else StreamCipher.Encrypted(job.cipher.value, plain, i)
  }

  function Infos(job: Job): (infos: seq<ChunkInfo>)
    ensures |infos| == |Split(job.source, DEFAULT_CHUNK_SIZE)|
  {
    var parts := Split(job.source, DEFAULT_CHUNK_SIZE);
    seq(|parts|, i requires 0 <= i < |parts| =>
      ChunkInfo(i, Hex(Sum256(parts[i])), |parts[i]|, Sum256(Processed(job, i, parts[i])), job.zip.compress(parts[i]).Some?))
  }

  lemma InfosDescribe(job: Job)
    ensures Describes(Infos(job), job.source, DEFAULT_CHUNK_SIZE) && Numbered(Infos(job), 0)
  {
  }

  predicate UsesSidecar(job: Job) {
    job.fileSize == 0 || job.fileSize > DEFAULT_CHUNK_SIZE
  }

  /** For a source of known size a sidecar is kept exactly when there is more than one chunk to resume. */
  lemma SidecarIffSeveralChunks(job: Job)
    requires job.fileSize == |job.source| > 0
    ensures UsesSidecar(job) <==> |Split(job.source, DEFAULT_CHUNK_SIZE)| > 1
  {
    SplitTiles(job.source, DEFAULT_CHUNK_SIZE, 0);
  }

  /** The records of the chunks from `i` on that are not skipped. */
  function Fresh(infos: seq<ChunkInfo>, skip: set<nat>, i: nat): seq<ChunkInfo>
    requires i <= |infos|
    decreases |infos| - i
  {
    if i == |infos| then [] else (if i in skip then [] else [infos[i]]) + Fresh(infos, skip, i + 1)
  }

  type Store = map<Digest, Bytes>

  /** Content addressing: what is stored under a hash has that hash. */
  ghost predicate Addressed(cas: Store) {
    forall d :: d in cas ==> Sum256(cas[d]) == d
  }

  /** A chunk that is present already is not written again. */
  function Put(cas: Store, data: Bytes): (r: Store)
    ensures Addressed(cas) ==> Addressed(r)
    ensures Sum256(data) in r
    ensures forall d :: d in cas ==> d in r && r[d] == cas[d]
  {
    if Sum256(data) in cas then cas else cas[Sum256(data) := data]
  }

  method ProcessChunk(job: Job, index: nat, data: Bytes) returns (processed: Bytes, wasCompressed: bool)
    ensures processed == Processed(job, index, data) && wasCompressed == job.zip.compress(data).Some?
  {
    processed, wasCompressed := data, false;
    var zipped := job.zip.compress(data);
    if zipped.Some? {
      processed, wasCompressed := zipped.value, true;
    }
    if job.cipher.Some? {
      var failed;
      processed, failed := StreamCipher.EncryptStream(job.cipher.value, processed, false, index);
    }
  }

  /** Both pipeline stages of an undisturbed attempt: start from what was resumed, then read the
      whole source again and store and append every chunk that is not skipped. */
  method UploadChunks(job: Job, cas: Store, resumed: seq<ChunkInfo>) returns (chunkInfos: seq<ChunkInfo>, stored: Store)
    ensures chunkInfos == resumed + Fresh(Infos(job), Skips(resumed), 0)
    ensures Addressed(cas) ==> Addressed(stored)
    ensures forall d :: d in cas ==> d in stored && stored[d] == cas[d]
    ensures forall i :: 0 <= i < |Infos(job)| && i !in Skips(resumed) ==> Infos(job)[i].encHash in stored
  {
    var chunks, failed := ChunkReader(job.source, DEFAULT_CHUNK_SIZE, false);
    var skip := set r | r in resumed :: r.index;
    ghost var infos, all := Infos(job), resumed + Fresh(Infos(job), skip, 0);
    chunkInfos, stored := resumed, cas;
    for i := 0 to |chunks|
      invariant chunkInfos + Fresh(infos, skip, i) == all
      invariant Addressed(cas) ==> Addressed(stored)
      invariant forall d :: d in cas ==> d in stored && stored[d] == cas[d]
      invariant forall k :: 0 <= k < i && k !in skip ==> infos[k].encHash in stored
    {
      var chunk := chunks[i];
      if chunk.index !in skip {
        var processed, wasCompressed := ProcessChunk(job, chunk.index, chunk.data);
        stored := Put(stored, processed);
        chunkInfos := chunkInfos + [ChunkInfo(chunk.index, Hex(chunk.hash), chunk.size, Sum256(processed), wasCompressed)];
      }
    }
  }

  lemma {:induction false} FreshAfterPrefix(infos: seq<ChunkInfo>, k: nat, skip: set<nat>, i: nat)
    requires k <= |infos| && i <= |infos| && forall j: nat :: j in skip <==> j < k
    ensures Fresh(infos, skip, i) == infos[if i < k then k else i..]
    decreases |infos| - i
  {
    if i < |infos| {
      FreshAfterPrefix(infos, k, skip, i + 1);
    }
  }

  lemma SkipsOfPrefix(infos: seq<ChunkInfo>, k: nat)
    requires Numbered(infos, 0) && k <= |infos|
    ensures forall j: nat :: j in Skips(infos[..k]) <==> j < k
  {
    forall j: nat | j < k ensures j in Skips(infos[..k]) {
      assert infos[..k][j] in infos[..k];
    }
    forall r | r in infos[..k] ensures r.index < k {
      var j :| 0 <= j < k && infos[..k][j] == r;
    }
  }

  /** The attempt's chunk list is the source's exactly when what it resumed from was a prefix of it.
      A sidecar with a gap (a record that was never written although later ones were) would put
      the missing chunk at the end of the manifest. */
  lemma ResumeIsRightIff(job: Job, resumed: seq<ChunkInfo>)
    ensures resumed + Fresh(Infos(job), Skips(resumed), 0) == Infos(job) <==> resumed <= Infos(job)
  {
    var infos := Infos(job);
    if resumed <= infos {
      var k := |resumed|;
      assert resumed == infos[..k];
      SkipsOfPrefix(infos, k);
      FreshAfterPrefix(infos, k, Skips(resumed), 0);
      assert infos == infos[..k] + infos[k..];
    }
  }

  // ---------------------------------------------------------------- crashes at any step

  datatype Proc =
    | Down
    | Resuming(resumed: seq<ChunkInfo>)                          // sidecar loaded
    | Opened(resumed: seq<ChunkInfo>)                            // sidecar truncated, header not written
    | ReRecording(resumed: seq<ChunkInfo>, j: nat)
    | Uploading(resumed: seq<ChunkInfo>, i: nat, acc: seq<ChunkInfo>)
    | Storing(resumed: seq<ChunkInfo>, i: nat, acc: seq<ChunkInfo>)   // chunk i in the store, not recorded
    | Built(manifest: Manifest)
    | Done(manifest: Manifest)

  datatype State = State(file: Option<Text>, cas: Store, proc: Proc)

  datatype Action = Begin | Truncate | WriteHeader | ReRecord | StartChunks | SkipChunk | StoreChunk | RecordChunk | Build | Finalize
    | Crash(len: nat)

  /** No sidecar yet; the store may hold other uploads' chunks. */
  ghost predicate IsInit(s: State) {
    s.file == None && s.proc == Down && Addressed(s.cas)
  }

  function Resumed(c: Codec, file: Option<Text>): seq<ChunkInfo> {
    var r := LoadSpec(c, file);
    if r.Loaded? then r.infos else []
  }

  /** From a cut log exactly those records are resumed whose lines survived, the last newline aside. */
  lemma ResumesWhatSurvived(c: Codec, infos: seq<ChunkInfo>, text: Text, i: nat)
    requires Sound(c) && Numbered(infos, 0) && text <= Log(c, infos) && i <= |infos|
    ensures Resumed(c, Some(text)) <= infos
    ensures i <= |Resumed(c, Some(text))| <==> i == 0 || |Log(c, infos[..i])| <= |text| + 1
  {
    var k := CutLog(c, infos, text);
    assert |Log(c, infos[..i])| == |c.header| + 1 + |Body(c, infos[..i])|;
    if i > 0 {
      assert infos[..i] != [] && |Body(c, infos[..i])| > 1;
    }
    if |text| > |c.header| {
      WholeIff(c, infos, |text| - |c.header| - 1, i);
    }
  }

  /** The write that a crash may tear. */
  function PendingWrite(c: Codec, job: Job, p: Proc): Text {
    match p
    case Opened(_) => c.header + "\n"
    case ReRecording(r, j) => if j < |r| then Line(c, r[j]) else []
    case Storing(_, i, _) => if i < |Infos(job)| && UsesSidecar(job) then Line(c, Infos(job)[i]) else []
    case _ => []
  }

  predicate Enabled(c: Codec, job: Job, s: State, a: Action) {
    match a
    case Begin => s.proc.Down?
    case Truncate => s.proc.Resuming?
    case WriteHeader => s.proc.Opened? && s.file.Some?
    case ReRecord => s.proc.ReRecording? && s.proc.j < |s.proc.resumed| && s.file.Some?
    case StartChunks => s.proc.ReRecording? && s.proc.j == |s.proc.resumed|
    case SkipChunk => s.proc.Uploading? && s.proc.i < |Infos(job)| && s.proc.i in Skips(s.proc.resumed)
    case StoreChunk => s.proc.Uploading? && s.proc.i < |Infos(job)| && s.proc.i !in Skips(s.proc.resumed)
    case RecordChunk => s.proc.Storing? && s.proc.i < |Infos(job)| && (UsesSidecar(job) ==> s.file.Some?)
    case Build => s.proc.Uploading? && s.proc.i == |Infos(job)|
    case Finalize => s.proc.Built?
    case Crash(len) =>
      !s.proc.Down? && !s.proc.Done? && (s.file.Some? ==> len <= |s.file.value + PendingWrite(c, job, s.proc)|)
  }

  /** A crash leaves any prefix of what was written, including the write in progress. */
  function Apply(c: Codec, job: Job, s: State, a: Action): State
    requires Enabled(c, job, s, a)
  {
    match a
    case Begin => s.(proc := if UsesSidecar(job) then Resuming(Resumed(c, s.file)) else Uploading([], 0, []))
    case Truncate => s.(file := Some([]), proc := Opened(s.proc.resumed))
    case WriteHeader => s.(file := Some(s.file.value + c.header + "\n"), proc := ReRecording(s.proc.resumed, 0))
    case ReRecord =>
      s.(file := Some(s.file.value + Line(c, s.proc.resumed[s.proc.j])), proc := ReRecording(s.proc.resumed, s.proc.j + 1))
    case StartChunks => s.(proc := Uploading(s.proc.resumed, 0, s.proc.resumed))
    case SkipChunk => s.(proc := Uploading(s.proc.resumed, s.proc.i + 1, s.proc.acc))
    case StoreChunk =>
      var part := Split(job.source, DEFAULT_CHUNK_SIZE)[s.proc.i];
      s.(cas := Put(s.cas, Processed(job, s.proc.i, part)), proc := Storing(s.proc.resumed, s.proc.i, s.proc.acc))
    case RecordChunk =>
      var info := Infos(job)[s.proc.i];
      State(if UsesSidecar(job) then Some(s.file.value + Line(c, info)) else s.file, s.cas,
            Uploading(s.proc.resumed, s.proc.i + 1, s.proc.acc + [info]))
    case Build => s.(proc := Built(ManifestOf(job.key, s.proc.acc)))
    case Finalize => State(if UsesSidecar(job) then None else s.file, s.cas, Done(s.proc.manifest))
    case Crash(len) =>
      State(if s.file.None? then None else Some((s.file.value + PendingWrite(c, job, s.proc))[..len]), s.cas, Down)
  }

  /** The records 0..k-1 of the source, all of whose chunks are in the store. */
  ghost predicate Secured(job: Job, cas: Store, infos: seq<ChunkInfo>) {
    infos <= Infos(job) && forall i :: 0 <= i < |infos| ==> infos[i].encHash in cas
  }

  ghost predicate CutOf(c: Codec, job: Job, s: State, k: nat) {
    k <= |Infos(job)| && Secured(job, s.cas, Infos(job)[..k]) && (s.file.Some? ==> s.file.value <= Log(c, Infos(job)[..k]))
  }

  ghost predicate Inv(c: Codec, job: Job, s: State) {
    && (exists k: nat :: CutOf(c, job, s, k))
    && match s.proc
       case Down => true
       case Resuming(r) => Secured(job, s.cas, r) && UsesSidecar(job)
       case Opened(r) => Secured(job, s.cas, r) && UsesSidecar(job) && s.file == Some([])
       case ReRecording(r, j) =>
         Secured(job, s.cas, r) && UsesSidecar(job) && j <= |r| && s.file == Some(Log(c, r[..j]))
       case Uploading(r, i, acc) =>
         Secured(job, s.cas, acc) && r <= acc && i <= |Infos(job)| && |acc| == (if i < |r| then |r| else i)
         && (UsesSidecar(job) ==> s.file == Some(Log(c, acc)))
       case Storing(r, i, acc) =>
         Secured(job, s.cas, acc) && r <= acc && |acc| == i < |Infos(job)| && Infos(job)[i].encHash in s.cas
         && (UsesSidecar(job) ==> s.file == Some(Log(c, acc)))
       case Built(m) => Secured(job, s.cas, Infos(job)) && m == ManifestOf(job.key, Infos(job))
       case Done(m) =>
         Secured(job, s.cas, Infos(job)) && m == ManifestOf(job.key, Infos(job)) && (UsesSidecar(job) ==> s.file == None)
  }

  lemma LogExtend(c: Codec, infos: seq<ChunkInfo>, r: ChunkInfo)
    ensures Log(c, infos + [r]) == Log(c, infos) + Line(c, r)
  {
    BodyAppend(c, infos, r);
  }

  /** Whatever is left in the sidecar loads as records 0..k-1 of chunks already in the store. */
  lemma LoadsSecured(c: Codec, job: Job, s: State)
    requires Sound(c) && exists k: nat :: CutOf(c, job, s, k)
    ensures Secured(job, s.cas, Resumed(c, s.file))
  {
    var k: nat :| CutOf(c, job, s, k);
    InfosDescribe(job);
    if s.file.Some? {
      var j := CutLog(c, Infos(job)[..k], s.file.value);
      assert Infos(job)[..k][..j] == Infos(job)[..j];
    }
  }

  lemma PrefixStep(infos: seq<ChunkInfo>, acc: seq<ChunkInfo>)
    requires acc <= infos && |acc| < |infos|
    ensures acc + [infos[|acc|]] == infos[..|acc| + 1] && acc + [infos[|acc|]] <= infos
  {
  }

  /** The pending write brings the sidecar to the log of one more record. */
  lemma CrashInWrite(c: Codec, job: Job, s: State, len: nat, k: nat)
    requires Enabled(c, job, s, Crash(len)) && s.file.Some? && k <= |Infos(job)|
    requires Secured(job, s.cas, Infos(job)[..k]) && s.file.value + PendingWrite(c, job, s.proc) == Log(c, Infos(job)[..k])
    ensures Inv(c, job, Apply(c, job, s, Crash(len)))
  {
    assert CutOf(c, job, Apply(c, job, s, Crash(len)), k);
  }

  lemma CrashInv(c: Codec, job: Job, s: State, len: nat)
    requires Sound(c) && Inv(c, job, s) && Enabled(c, job, s, Crash(len))
    ensures Inv(c, job, Apply(c, job, s, Crash(len)))
  {
    if PendingWrite(c, job, s.proc) == [] {
      CrashElsewhere(c, job, s, len);
    } else {
      match s.proc
      case Opened(_) => CrashInHeader(c, job, s, len);
      case ReRecording(_, _) => CrashInReRecord(c, job, s, len);
      case Storing(_, _, _) => CrashInRecord(c, job, s, len);
    }
  }

  lemma CrashInHeader(c: Codec, job: Job, s: State, len: nat)
    requires Inv(c, job, s) && Enabled(c, job, s, Crash(len)) && s.proc.Opened?
    ensures Inv(c, job, Apply(c, job, s, Crash(len)))
  {
    assert Infos(job)[..0] == [];
    assert [] + (c.header + "\n") == Log(c, []);
    CrashInWrite(c, job, s, len, 0);
  }

  lemma CrashInReRecord(c: Codec, job: Job, s: State, len: nat)
    requires Inv(c, job, s) && Enabled(c, job, s, Crash(len)) && s.proc.ReRecording? && PendingWrite(c, job, s.proc) != []
    ensures Inv(c, job, Apply(c, job, s, Crash(len)))
  {
    var r, j := s.proc.resumed, s.proc.j;
    LogExtend(c, r[..j], r[j]);
    assert r[..j] + [r[j]] == r[..j + 1] == Infos(job)[..j + 1];
    CrashInWrite(c, job, s, len, j + 1);
  }

  lemma CrashInRecord(c: Codec, job: Job, s: State, len: nat)
    requires Inv(c, job, s) && Enabled(c, job, s, Crash(len)) && s.proc.Storing? && PendingWrite(c, job, s.proc) != []
    ensures Inv(c, job, Apply(c, job, s, Crash(len)))
  {
    var i, acc := s.proc.i, s.proc.acc;
    PrefixStep(Infos(job), acc);
    LogExtend(c, acc, Infos(job)[i]);
    CrashInWrite(c, job, s, len, i + 1);
  }

  lemma CrashElsewhere(c: Codec, job: Job, s: State, len: nat)
    requires Inv(c, job, s) && Enabled(c, job, s, Crash(len)) && PendingWrite(c, job, s.proc) == []
    ensures Inv(c, job, Apply(c, job, s, Crash(len)))
  {
    var k: nat :| CutOf(c, job, s, k);
    if s.file.Some? {
      assert s.file.value + [] == s.file.value;
    }
    assert CutOf(c, job, Apply(c, job, s, Crash(len)), k);
  }

  lemma WriteInv(c: Codec, job: Job, s: State, a: Action)
    requires Sound(c) && Inv(c, job, s) && Enabled(c, job, s, a) && (a.Truncate? || a.WriteHeader? || a.ReRecord?)
    ensures Inv(c, job, Apply(c, job, s, a))
  {
    var infos := Infos(job);
    var s' := Apply(c, job, s, a);
    match a
    case Truncate =>
      assert infos[..0] == [];
      assert CutOf(c, job, s', 0);
    case WriteHeader =>
      assert infos[..0] == [] && s.proc.resumed[..0] == [];
      assert s'.file.value == Log(c, []);
      assert CutOf(c, job, s', 0);
    case ReRecord =>
      var r, j := s.proc.resumed, s.proc.j;
      LogExtend(c, r[..j], r[j]);
      assert r[..j] + [r[j]] == r[..j + 1] == infos[..j + 1];
      assert CutOf(c, job, s', j + 1);
  }

  lemma ChunkInv(c: Codec, job: Job, s: State, a: Action)
    requires Sound(c) && Inv(c, job, s) && Enabled(c, job, s, a) && (a.SkipChunk? || a.StoreChunk? || a.RecordChunk?)
    ensures Inv(c, job, Apply(c, job, s, a))
  {
    var infos := Infos(job);
    var s' := Apply(c, job, s, a);
    var k: nat :| CutOf(c, job, s, k);
    InfosDescribe(job);
    var r := s.proc.resumed;
    assert r == infos[..|r|];
    SkipsOfPrefix(infos, |r|);
    if a.RecordChunk? {
      var acc := s.proc.acc;
      PrefixStep(infos, acc);
      LogExtend(c, acc, infos[|acc|]);
      if UsesSidecar(job) {
        assert CutOf(c, job, s', |acc| + 1);
      } else {
        assert CutOf(c, job, s', k);
      }
    } else {
      assert CutOf(c, job, s', k);
    }
  }

  lemma StepInv(c: Codec, job: Job, s: State, a: Action)
    requires Sound(c) && Inv(c, job, s) && Enabled(c, job, s, a)
    ensures Inv(c, job, Apply(c, job, s, a))
  {
    match a
    case Crash(len) => CrashInv(c, job, s, len);
    case Truncate => WriteInv(c, job, s, a);
    case WriteHeader => WriteInv(c, job, s, a);
    case ReRecord => WriteInv(c, job, s, a);
    case SkipChunk => ChunkInv(c, job, s, a);
    case StoreChunk => ChunkInv(c, job, s, a);
    case RecordChunk => ChunkInv(c, job, s, a);
    case Begin =>
      LoadsSecured(c, job, s);
      var k: nat :| CutOf(c, job, s, k);
      assert CutOf(c, job, Apply(c, job, s, a), k);
    case Finalize =>
      var k: nat :| CutOf(c, job, s, k);
      assert CutOf(c, job, Apply(c, job, s, a), k);
    case StartChunks =>
      var k: nat :| CutOf(c, job, s, k);
      assert s.proc.resumed[..s.proc.j] == s.proc.resumed;
      assert CutOf(c, job, Apply(c, job, s, a), k);
    case Build =>
      var k: nat :| CutOf(c, job, s, k);
      assert s.proc.acc == Infos(job);
      assert CutOf(c, job, Apply(c, job, s, a), k);
  }

  /** The records the attempt has written since it re-created the sidecar, the one it is writing included. */
  function Underway(job: Job, p: Proc): seq<ChunkInfo> {
    match p
    case ReRecording(r, j) => if j < |r| then r[..j + 1] else r
    case Uploading(_, _, acc) => acc
    case Storing(_, i, acc) => if i < |Infos(job)| then acc + [Infos(job)[i]] else acc
    case _ => []
  }

  lemma PendingCompletes(c: Codec, job: Job, s: State)
    requires Inv(c, job, s) && UsesSidecar(job)
    requires s.proc.Opened? || s.proc.ReRecording? || s.proc.Uploading? || s.proc.Storing?
    ensures s.file.Some? && s.file.value + PendingWrite(c, job, s.proc) == Log(c, Underway(job, s.proc))
    ensures Underway(job, s.proc) <= Infos(job)
  {
    match s.proc
    case Opened(_) => assert [] + (c.header + "\n") == Log(c, []);
    case ReRecording(r, j) =>
      if j < |r| {
        LogExtend(c, r[..j], r[j]);
        assert r[..j] + [r[j]] == r[..j + 1];
      } else {
        assert r[..j] == r;
      }
    case Uploading(_, _, acc) => assert Log(c, acc) + [] == Log(c, acc);
    case Storing(_, i, acc) =>
      PrefixStep(Infos(job), acc);
      LogExtend(c, acc, Infos(job)[i]);
  }

  /** After a crash the next attempt resumes exactly the records whose lines were out: all of them when
      nothing was torn, but none after a crash between re-creating the sidecar and writing to it. */
  lemma CrashCostsOnlyTornLines(c: Codec, job: Job, s: State, len: nat, i: nat)
    requires Sound(c) && Inv(c, job, s) && UsesSidecar(job)
    requires s.proc.Opened? || s.proc.ReRecording? || s.proc.Uploading? || s.proc.Storing?
    requires Enabled(c, job, s, Crash(len)) && i <= |Underway(job, s.proc)|
    ensures var resumed := Resumed(c, Apply(c, job, s, Crash(len)).file);
      && resumed <= Underway(job, s.proc)
      && (i <= |resumed| <==> i == 0 || |Log(c, Underway(job, s.proc)[..i])| <= len + 1)
  {
    var infos := Underway(job, s.proc);
    InfosDescribe(job);
    PendingCompletes(c, job, s);
    assert Apply(c, job, s, Crash(len)).file == Some(Log(c, infos)[..len]);
    ResumesWhatSurvived(c, infos, Log(c, infos)[..len], i);
  }

  ghost predicate IsRun(c: Codec, job: Job, states: seq<State>, acts: seq<Action>) {
    && |states| == |acts| + 1 && IsInit(states[0])
    && forall i :: 0 <= i < |acts| ==> Enabled(c, job, states[i], acts[i]) && states[i + 1] == Apply(c, job, states[i], acts[i])
  }

  lemma {:induction false} RunInv(c: Codec, job: Job, states: seq<State>, acts: seq<Action>, i: nat)
    requires Sound(c) && IsRun(c, job, states, acts) && i <= |acts|
    ensures Inv(c, job, states[i])
  {
    if i == 0 {
      assert Infos(job)[..0] == [];
      assert CutOf(c, job, states[0], 0);
    } else {
      RunInv(c, job, states, acts, i - 1);
      StepInv(c, job, states[i - 1], acts[i - 1]);
    }
  }

  /** Any number of crashes, at any byte of any write: at every moment the sidecar loads as records
      0..k-1 of chunks already stored, and when the upload completes its manifest lists exactly the
      source's chunks, with the source's size and Merkle root. */
  lemma CrashesAreInvisible(c: Codec, job: Job, states: seq<State>, acts: seq<Action>)
    requires Sound(c) && IsRun(c, job, states, acts)
    ensures forall i :: 0 <= i <= |acts| ==> Secured(job, states[i].cas, Resumed(c, states[i].file))
    ensures var p := states[|acts|].proc;
      p.Done? ==>
        && (UsesSidecar(job) ==> states[|acts|].file == None)
        && p.manifest == ManifestOf(job.key, Infos(job))
        && Describes(p.manifest.chunks, job.source, DEFAULT_CHUNK_SIZE)
        && p.manifest.totalSize == |job.source|
  {
    forall i | 0 <= i <= |acts| ensures Secured(job, states[i].cas, Resumed(c, states[i].file)) {
      RunInv(c, job, states, acts, i);
      LoadsSecured(c, job, states[i]);
    }
    RunInv(c, job, states, acts, |acts|);
    InfosDescribe(job);
    TotalIsLength(Infos(job), job.source, DEFAULT_CHUNK_SIZE);
  }

  /** So two completed uploads of one source, one interrupted and one not, have one manifest. */
  lemma InterruptedEqualsUninterrupted(c: Codec, d: Codec, job: Job, states: seq<State>, acts: seq<Action>,
                                       states': seq<State>, acts': seq<Action>)
    requires Sound(c) && IsRun(c, job, states, acts) && states[|acts|].proc.Done?
    requires Sound(d) && IsRun(d, job, states', acts') && states'[|acts'|].proc.Done?
    ensures states[|acts|].proc == states'[|acts'|].proc
  {
    CrashesAreInvisible(c, job, states, acts);
    CrashesAreInvisible(d, job, states', acts');
  }

  // ---------------------------------------------------------------- what a download gets back

  /** What a downloader with the upload's key is wired to, when every peer serves the content store `cas`. */
  function DownloadFrom(job: Job, cas: Store, info: ChunkInfo): ChunkFetch.Pipeline {
    ChunkFetch.Pipeline(
      _ => if info.encHash in cas then Some(cas[info.encHash]) else None,
      stored => Decipher(job, info.index, stored),
      job.zip.decompress)
  }

  function Decipher(job: Job, index: nat, stored: Bytes): Option<Bytes> {
    if job.cipher.None? then Some(stored)
    else
      match StreamCipher.Decrypted(job.cipher.value, stored, index)
      case Ok(plain) => Some(plain)
      case Err => None
  }

  ghost predicate Reversible(job: Job) {
    Lossless(job.zip) && (job.cipher.Some? ==> StreamCipher.Sound(job.cipher.value))
  }

  lemma StoredIsServed(job: Job, cas: Store, i: nat, peer: string)
    requires Reversible(job) && Addressed(cas) && i < |Infos(job)| && Infos(job)[i].encHash in cas
    ensures ChunkFetch.Served(DownloadFrom(job, cas, Infos(job)[i]), Infos(job)[i], peer)
            == Some(Split(job.source, DEFAULT_CHUNK_SIZE)[i])
  {
    var info, part := Infos(job)[i], Split(job.source, DEFAULT_CHUNK_SIZE)[i];
    assert cas[info.encHash] == Processed(job, i, part);
    if job.cipher.Some? {
      var zipped := job.zip.compress(part);
      StreamCipher.DecryptInvertsEncrypt(job.cipher.value, if zipped.Some? then zipped.value else part, i);
    }
  }

  lemma {:induction false} RunAddressed(c: Codec, job: Job, states: seq<State>, acts: seq<Action>, i: nat)
    requires IsRun(c, job, states, acts) && i <= |acts|
    ensures Addressed(states[i].cas)
  {
    if i > 0 {
      RunAddressed(c, job, states, acts, i - 1);
    }
  }

  /** From upload to download: when the upload completes, after any number of crashes, every chunk its
      manifest lists is in the store, and a peer that serves the store is honest about it: fetched,
      decrypted and, where the manifest says so, decompressed, it is that piece of the source. */
  lemma UploadRoundTrip(c: Codec, job: Job, states: seq<State>, acts: seq<Action>, i: nat, peer: string)
    requires Sound(c) && Reversible(job) && IsRun(c, job, states, acts) && states[|acts|].proc.Done?
    requires i < |states[|acts|].proc.manifest.chunks|
    ensures |states[|acts|].proc.manifest.chunks| == |Split(job.source, DEFAULT_CHUNK_SIZE)|
    ensures var info := states[|acts|].proc.manifest.chunks[i];
            var p := DownloadFrom(job, states[|acts|].cas, info);
      && info.encHash in states[|acts|].cas
      && ChunkFetch.Served(p, info, peer) == Some(Split(job.source, DEFAULT_CHUNK_SIZE)[i])
      && ChunkFetch.Honest(p, info, peer)
  {
    RunInv(c, job, states, acts, |acts|);
    RunAddressed(c, job, states, acts, |acts|);
    StoredIsServed(job, states[|acts|].cas, i, peer);
  }

  /** The chunk list of an attempt that resumes the first `k` records of an earlier one with another key. */
  function Mixed(earlier: Job, later: Job, k: nat): seq<ChunkInfo>
    requires k <= |Infos(earlier)|
  {
    Infos(earlier)[..k] + Fresh(Infos(later), Skips(Infos(earlier)[..k]), 0)
  }

  lemma MixedChunks(earlier: Job, later: Job, k: nat)
    requires earlier.source == later.source && k <= |Infos(earlier)|
    ensures Mixed(earlier, later, k) == Infos(earlier)[..k] + Infos(later)[k..]
  {
    InfosDescribe(earlier);
    SkipsOfPrefix(Infos(earlier), k);
    FreshAfterPrefix(Infos(later), k, Skips(Infos(earlier)[..k]), 0);
  }

  lemma OldChunkNotServed(earlier: Job, later: Job, cas: Store, i: nat, peer: string)
    requires later == earlier.(cipher := later.cipher) && earlier.cipher.Some? && later.cipher.Some?
    requires StreamCipher.Sound(earlier.cipher.value) && StreamCipher.Strangers(earlier.cipher.value, later.cipher.value)
    requires Addressed(cas) && i < |Infos(earlier)| && Infos(earlier)[i].encHash in cas
    requires forall b :: earlier.zip.compress(b) != Some([])
    ensures ChunkFetch.Served(DownloadFrom(later, cas, Infos(earlier)[i]), Infos(earlier)[i], peer) == None
  {
    var part := Split(earlier.source, DEFAULT_CHUNK_SIZE)[i];
    var zipped := earlier.zip.compress(part);
    StreamCipher.SplitSizes(earlier.source, DEFAULT_CHUNK_SIZE);
    assert part in Split(earlier.source, DEFAULT_CHUNK_SIZE);
    assert cas[Infos(earlier)[i].encHash] == Processed(earlier, i, part);
    StreamCipher.OtherKeyRejectedIff(
      earlier.cipher.value, later.cipher.value, if zipped.Some? then zipped.value else part, i);
  }

  /** The sidecar does not say under which key its chunks were stored, while every encrypted upload command
      draws a new one. An upload resumed under another key completes, but what it stored can be read back
      with its own key exactly when there was nothing to resume. */
  lemma OtherKeyReadsBackIff(earlier: Job, later: Job, k: nat, cas: Store, peer: string)
    requires later == earlier.(cipher := later.cipher) && earlier.cipher.Some? && later.cipher.Some?
    requires Reversible(earlier) && Reversible(later) && StreamCipher.Strangers(earlier.cipher.value, later.cipher.value)
    requires forall b :: earlier.zip.compress(b) != Some([])
    requires k <= |Infos(earlier)| && Addressed(cas) && forall r :: r in Mixed(earlier, later, k) ==> r.encHash in cas
    ensures |Mixed(earlier, later, k)| == |Split(later.source, DEFAULT_CHUNK_SIZE)|
    ensures (forall i :: 0 <= i < |Mixed(earlier, later, k)| ==>
               ReadsBack(later, cas, Mixed(earlier, later, k)[i], i, peer)) <==> k == 0
  {
    MixedChunks(earlier, later, k);
    var list := Mixed(earlier, later, k);
    forall i | k <= i < |list| ensures ReadsBack(later, cas, list[i], i, peer) {
      assert list[i] == Infos(later)[i] && list[i] in list;
      StoredIsServed(later, cas, i, peer);
    }
    if k > 0 {
      assert list[0] == Infos(earlier)[0] && list[0] in list;
      OldChunkNotServed(earlier, later, cas, 0, peer);
      assert !ReadsBack(later, cas, list[0], 0, peer);
    }
  }

  /** A peer that serves the store delivers the source's piece `i` for this record. */
  ghost predicate ReadsBack(job: Job, cas: Store, info: ChunkInfo, i: nat, peer: string)
    requires i < |Split(job.source, DEFAULT_CHUNK_SIZE)|
  {
    ChunkFetch.Served(DownloadFrom(job, cas, info), info, peer) == Some(Split(job.source, DEFAULT_CHUNK_SIZE)[i])
  }

  // ---------------------------------------------------------------- an attempt ends

  function Rank(job: Job, p: Proc): int {
    var n := |Infos(job)|;
    match p
    case Down => 3 * n + 8
    case Resuming(_) => 3 * n + 7
    case Opened(_) => 3 * n + 6
    case ReRecording(r, j) => 2 * n + 4 + |r| - j
    case Uploading(_, i, _) => 2 * (n - i) + 3
    case Storing(_, i, _) => 2 * (n - i) + 2
    case Built(_) => 1
    case Done(_) => 0
  }

  /** Until the upload is done the process can take a step other than crashing. */
  lemma Progress(c: Codec, job: Job, s: State) returns (a: Action)
    requires Inv(c, job, s) && !s.proc.Done?
    ensures !a.Crash? && Enabled(c, job, s, a)
  {
    match s.proc
    case Down => a := Begin;
    case Resuming(_) => a := Truncate;
    case Opened(_) => a := WriteHeader;
    case ReRecording(r, j) => a := if j < |r| then ReRecord else StartChunks;
    case Uploading(r, i, _) => a := if i == |Infos(job)| then Build else if i in Skips(r) then SkipChunk else StoreChunk;
    case Storing(_, _, _) => a := RecordChunk;
    case Built(_) => a := Finalize;
  }

  lemma RankBounds(c: Codec, job: Job, s: State)
    requires Inv(c, job, s)
    ensures 0 <= Rank(job, s.proc) <= 3 * |Infos(job)| + 8
  {
  }

  lemma StepRank(c: Codec, job: Job, s: State, a: Action)
    requires Inv(c, job, s) && Enabled(c, job, s, a) && !a.Crash?
    ensures Rank(job, Apply(c, job, s, a).proc) < Rank(job, s.proc)
  {
  }

  function Crashes(acts: seq<Action>): nat {
    if acts == [] then 0 else Crashes(acts[..|acts| - 1]) + if acts[|acts| - 1].Crash? then 1 else 0
  }

  /** Steps enough for an upload of n chunks with k crashes: k + 1 attempts of 3n + 9 steps. */
  function Budget(n: nat, k: nat): nat {
    if k == 0 then 3 * n + 9 else Budget(n, k - 1) + 3 * n + 9
  }

  lemma {:induction false} BudgetValue(n: nat, k: nat)
    ensures Budget(n, k) == (k + 1) * (3 * n + 9)
  {
    if k > 0 {
      BudgetValue(n, k - 1);
    }
  }

  lemma RunStepBound(c: Codec, job: Job, states: seq<State>, acts: seq<Action>, i: nat)
    requires Sound(c) && IsRun(c, job, states, acts) && i < |acts|
    ensures 0 <= Rank(job, states[i].proc)
    ensures Rank(job, states[i + 1].proc) <= if acts[i].Crash? then 3 * |Infos(job)| + 8 else Rank(job, states[i].proc) - 1
  {
    RunInv(c, job, states, acts, i);
    RankBounds(c, job, states[i]);
    if !acts[i].Crash? {
      StepRank(c, job, states[i], acts[i]);
    }
  }

  lemma CrashesStep(acts: seq<Action>, i: nat)
    requires i < |acts|
    ensures Crashes(acts[..i + 1]) == Crashes(acts[..i]) + if acts[i].Crash? then 1 else 0
  {
    assert acts[..i + 1][..i] == acts[..i];
  }

  lemma {:induction false} RunBound(c: Codec, job: Job, states: seq<State>, acts: seq<Action>, i: nat)
    requires Sound(c) && IsRun(c, job, states, acts) && i <= |acts|
    ensures i + Rank(job, states[i].proc) < Budget(|Infos(job)|, Crashes(acts[..i]))
  {
    if i > 0 {
      RunBound(c, job, states, acts, i - 1);
      RunStepBound(c, job, states, acts, i - 1);
      CrashesStep(acts, i - 1);
    }
  }

  lemma RunProgress(c: Codec, job: Job, states: seq<State>, acts: seq<Action>)
    requires Sound(c) && IsRun(c, job, states, acts)
    ensures 0 <= Rank(job, states[|acts|].proc)
    ensures (forall a :: Enabled(c, job, states[|acts|], a) ==> a.Crash?) ==> states[|acts|].proc.Done?
  {
    RunInv(c, job, states, acts, |acts|);
    RankBounds(c, job, states[|acts|]);
    if !states[|acts|].proc.Done? {
      var a := Progress(c, job, states[|acts|]);
      assert Enabled(c, job, states[|acts|], a);
    }
  }

  /** An upload of n chunks with k crashes takes fewer than (k + 1)(3n + 9) steps, and one that can only
      crash any more is done. */
  lemma EveryUploadEnds(c: Codec, job: Job, states: seq<State>, acts: seq<Action>)
    requires Sound(c) && IsRun(c, job, states, acts)
    ensures |acts| < Budget(|Infos(job)|, Crashes(acts))
    ensures (forall a :: Enabled(c, job, states[|acts|], a) ==> a.Crash?) ==> states[|acts|].proc.Done?
  {
    RunBound(c, job, states, acts, |acts|);
    assert acts[..|acts|] == acts;
    RunProgress(c, job, states, acts);
  }
}
