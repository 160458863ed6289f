/** AEAD stream framing (Crypto/crypto.go): frames of [4-byte size][12-byte nonce][ciphertext and tag]
    with nonces counted from the file-level chunk index. AES-GCM is an abstract Seal/Open pair. */
module StreamCipher {
  import opened Common
  import opened Chunker

  const CHUNK_SIZE: nat := 4 * 1024 * 1024
  const NONCE_SIZE: nat := 12
  const TAG_SIZE: nat := 16
  const FRAME_SIZE: nat := 4 + NONCE_SIZE + CHUNK_SIZE + TAG_SIZE
  const WRAP64: nat := 0x1_0000_0000_0000_0000
  const WRAP32: nat := 0x1_0000_0000

  datatype Aead = Aead(seal: (Bytes, Bytes) -> Bytes, open: (Bytes, Bytes) -> Option<Bytes>)

  ghost predicate Sound(aead: Aead) {
    && (forall n, p :: aead.open(n, aead.seal(n, p)) == Some(p))
    && (forall n, p :: |aead.seal(n, p)| == |p| + TAG_SIZE)
  }

  // ---------------------------------------------------------------- little-endian integers

  function LittleEndian(n: nat, k: nat): (b: Bytes)
    ensures |b| == k
  {
    if k == 0 then [] else [(n % 256) as Byte] + LittleEndian(n / 256, k - 1)
  }

  function FromLittleEndian(b: Bytes): nat {
    if b == [] then 0 else b[0] as nat + 256 * FromLittleEndian(b[1..])
  }

  function Pow256(k: nat): nat {
    if k == 0 then 1 else 256 * Pow256(k - 1)
  }

  lemma {:induction false} LittleEndianInverse(n: nat, k: nat)
    requires n < Pow256(k)
    ensures FromLittleEndian(LittleEndian(n, k)) == n
  {
    if k > 0 {
      LittleEndianInverse(n / 256, k - 1);
      assert LittleEndian(n, k)[1..] == LittleEndian(n / 256, k - 1);
    }
  }

  lemma {:induction false} Pow256Positive(k: nat)
    ensures Pow256(k) > 0
  {
    if k > 0 {
      Pow256Positive(k - 1);
    }
  }

  /** The least significant byte comes first. */
  lemma {:induction false} LittleEndianDigits(n: nat, k: nat, i: nat)
    requires i < k
    ensures Pow256(i) > 0 && LittleEndian(n, k)[i] == n / Pow256(i) % 256
  {
    Pow256Positive(i);
    if i > 0 {
      LittleEndianDigits(n / 256, k - 1, i - 1);
      DivideTwice(n, Pow256(i - 1));
    }
  }

  lemma DivideTwice(n: nat, b: nat)
    requires b > 0
    ensures n / 256 / b == n / (256 * b)
  {
    var q, r := n / 256, n % 256;
    var q2, r2 := q / b, q % b;
    assert q == b * q2 + r2;
    assert n == 256 * (b * q2) + 256 * r2 + r;
    assert q2 * (256 * b) == 256 * (b * q2);
    QuotientRemainder(n, 256 * b, q2, 256 * r2 + r);
  }

  lemma QuotientRemainder(n: nat, w: nat, q: nat, r: nat)
    requires n == q * w + r && r < w
    ensures n / w == q && n % w == r
  {
    var d := n / w - q;
    assert n == (n / w) * w + n % w;
    assert n % w - r == -d * w;
    assert d >= 1 ==> d * w >= w;
    assert d <= -1 ==> -d * w >= w;
  }

  lemma Pow256Values()
    ensures Pow256(4) == WRAP32 && Pow256(8) == WRAP64
  {
    assert Pow256(2) == 65536;
    assert Pow256(3) == 0x100_0000;
    assert Pow256(4) == WRAP32;
    assert Pow256(5) == 0x100_0000_0000;
    assert Pow256(6) == 0x1_0000_0000_0000;
    assert Pow256(7) == 0x100_0000_0000_0000;
  }

  /** The counter is a uint64 in the first eight bytes of the nonce. */
  function Nonce(index: nat): (b: Bytes)
    ensures |b| == NONCE_SIZE
  {
    LittleEndian(index % WRAP64, 8) + [0, 0, 0, 0]
  }

  lemma NonceReads(i: nat)
    ensures FromLittleEndian(Nonce(i)[..8]) == i % WRAP64
  {
    Pow256Values();
    LittleEndianInverse(i % WRAP64, 8);
    assert Nonce(i)[..8] == LittleEndian(i % WRAP64, 8);
  }

  lemma NonceTellsIndex(i: nat)
    requires i < WRAP64
    ensures FromLittleEndian(Nonce(i)[..8]) == i
  {
    NonceReads(i);
  }

  lemma NonceIdentifiesIndex(i: nat, j: nat)
    requires i < WRAP64 && j < WRAP64
    ensures Nonce(i) == Nonce(j) <==> i == j
  {
    NonceTellsIndex(i);
    NonceTellsIndex(j);
  }

  // ---------------------------------------------------------------- frames

  function Frame(aead: Aead, index: nat, plain: Bytes): Bytes {
    var ct := aead.seal(Nonce(index), plain);
    LittleEndian((NONCE_SIZE + |ct|) % WRAP32, 4) + Nonce(index) + ct
  }

  /** The frames of consecutive pieces, the first with nonce `index`. */
  function Frames(aead: Aead, parts: seq<Bytes>, index: nat): (fs: seq<Bytes>)
    ensures |fs| == |parts|
  {
    if parts == [] then [] else [Frame(aead, index, parts[0])] + Frames(aead, parts[1..], index + 1)
  }

  function Encrypted(aead: Aead, plain: Bytes, nonceOffset: nat): Bytes {
    Flatten(Frames(aead, Split(plain, CHUNK_SIZE), nonceOffset))
  }

  /** `readError` says that the source fails after delivering `src` rather than ending. */
  method EncryptStream(aead: Aead, src: Bytes, readError: bool, nonceOffset: nat) returns (dst: Bytes, failed: bool)
    ensures dst == Encrypted(aead, src, nonceOffset) && failed == readError
  {
    var chunkIndex := nonceOffset;
    var rest := src;
    dst := [];
    while true
      invariant Encrypted(aead, src, nonceOffset) == dst + Encrypted(aead, rest, chunkIndex)
      decreases |rest|
    {
      var n := Min(CHUNK_SIZE, |rest|);
      var short := |rest| < CHUNK_SIZE;
      if n > 0 {
        AppendFrame(aead, dst, rest, chunkIndex);
        var ciphertext := aead.seal(Nonce(chunkIndex), rest[..n]);
        dst := WriteFrame(dst, chunkIndex, ciphertext);
        chunkIndex := chunkIndex + 1;
        rest := rest[n..];
      }
      if short {
        break;
      }
    }
    EncryptedNothing(aead, rest, chunkIndex);
    failed := readError;
  }

  /** The three writes that make up a frame. */
  method WriteFrame(dst: Bytes, index: nat, ciphertext: Bytes) returns (out: Bytes)
    ensures out == dst + (LittleEndian((NONCE_SIZE + |ciphertext|) % WRAP32, 4) + Nonce(index) + ciphertext)
  {
    var chunkSize := (NONCE_SIZE + |ciphertext|) % WRAP32;
    out := dst + LittleEndian(chunkSize, 4);
    out := out + Nonce(index);
    out := out + ciphertext;
  }

  lemma Regroup(a: Bytes, b: Bytes, c: Bytes)
    ensures (a + b) + c == a + (b + c)
  {
  }

  lemma AppendFrame(aead: Aead, dst: Bytes, rest: Bytes, index: nat)
    requires rest != []
    ensures var n := Min(CHUNK_SIZE, |rest|);
      dst + Encrypted(aead, rest, index) == dst + Frame(aead, index, rest[..n]) + Encrypted(aead, rest[n..], index + 1)
  {
    var n := Min(CHUNK_SIZE, |rest|);
    EncryptedStep(aead, rest, index);
    Regroup(dst, Frame(aead, index, rest[..n]), Encrypted(aead, rest[n..], index + 1));
  }

  lemma EncryptedNothing(aead: Aead, rest: Bytes, index: nat)
    ensures rest == [] ==> Encrypted(aead, rest, index) == []
  {
  }

  lemma EncryptedStep(aead: Aead, rest: Bytes, index: nat)
    requires rest != []
    ensures var n := Min(CHUNK_SIZE, |rest|);
      Encrypted(aead, rest, index) == Frame(aead, index, rest[..n]) + Encrypted(aead, rest[n..], index + 1)
  {
    var n := Min(CHUNK_SIZE, |rest|);
    var parts := Split(rest, CHUNK_SIZE);
    assert parts[0] == rest[..n] && parts[1..] == Split(rest[n..], CHUNK_SIZE);
    var fs := Frames(aead, parts, index);
    assert fs[1..] == Frames(aead, parts[1..], index + 1);
  }

  /** The pooled encryptor seals into a slab that still holds earlier bytes; what it emits is the
      same. */
  method EncryptStreamPool(aead: Aead, src: Bytes, readError: bool, slab: array<Byte>, nonceOffset: nat)
    returns (dst: Bytes, failed: bool)
    modifies slab
    ensures dst == Encrypted(aead, src, nonceOffset) && failed == readError
  {
    var chunkIndex := nonceOffset;
    var rest := src;
    dst := [];
    ghost var all := Encrypted(aead, src, nonceOffset);
    while true
      invariant all == dst + Encrypted(aead, rest, chunkIndex)
      decreases |rest|
    {
      var n := Min(CHUNK_SIZE, |rest|);
      var short := |rest| < CHUNK_SIZE;
      if n > 0 {
        AppendFrame(aead, dst, rest, chunkIndex);
        var ciphertext := SealInto(slab, aead.seal(Nonce(chunkIndex), rest[..n]));
        dst := WriteFrame(dst, chunkIndex, ciphertext);
        chunkIndex := chunkIndex + 1;
        rest := rest[n..];
      }
      if short {
        break;
      }
    }
    EncryptedNothing(aead, rest, chunkIndex);
    failed := readError;
  }

  /** gcm.Seal appending to slab[:0]: in place when the slab has room, in fresh memory otherwise. */
  method SealInto(slab: array<Byte>, sealed: Bytes) returns (out: Bytes)
    modifies slab
    ensures out == sealed
  {
    if |sealed| > slab.Length {
      return sealed;
    }
    for i := 0 to |sealed|
      invariant slab[..i] == sealed[..i]
    {
      slab[i] := sealed[i];
    }
    out := slab[..|sealed|];
  }

  // ---------------------------------------------------------------- decryption

  datatype Result = Ok(plain: Bytes) | Err

  /** A whole frame at the front: its plaintext and its length. */
  datatype Opened = Opened(plain: Bytes, length: nat)

  function OpenFrame(aead: Aead, src: Bytes, index: nat): (r: Option<Opened>)
    ensures r.Some? ==> 4 + NONCE_SIZE <= r.value.length <= |src|
  {
    if |src| < 4 then None
    else
      var size := FromLittleEndian(src[..4]);
      if size < NONCE_SIZE || |src| - 4 < size then None
      else
        var nonce, ct := src[4..4 + NONCE_SIZE], src[4 + NONCE_SIZE..4 + size];
        if nonce != Nonce(index) then None
        else
          var plain := aead.open(nonce, ct);
          if plain.None? then None else Some(Opened(plain.value, 4 + size))
  }

  function Decrypted(aead: Aead, src: Bytes, index: nat): Result
    decreases |src|
  {
    if src == [] then Ok([])
    else
      match OpenFrame(aead, src, index)
      case None => Err
      case Some(f) => After(f.plain, Decrypted(aead, src[f.length..], index + 1))
  }

  /** The plaintext written out before decryption ends, well or badly. */
  function Released(aead: Aead, src: Bytes, index: nat): Bytes
    decreases |src|
  {
    match OpenFrame(aead, src, index)
    case None => []
    case Some(f) => f.plain + Released(aead, src[f.length..], index + 1)
  }

  lemma {:induction false} OkReleasesAll(aead: Aead, src: Bytes, index: nat)
    ensures Decrypted(aead, src, index).Ok? ==> Released(aead, src, index) == Decrypted(aead, src, index).plain
    decreases |src|
  {
    var f := OpenFrame(aead, src, index);
    if f.Some? {
      OkReleasesAll(aead, src[f.value.length..], index + 1);
    }
  }

  function After(done: Bytes, later: Result): Result {
    if later.Err? then Err else Ok(done + later.plain)
  }

  lemma AfterTwice(a: Bytes, b: Bytes, later: Result)
    ensures After(a, After(b, later)) == After(a + b, later)
  {
    if later.Ok? {
      assert a + (b + later.plain) == a + b + later.plain;
    }
  }

  /** `dst` has been written out, and what is left to read begins with frame `index`. */
  ghost predicate SoFar(aead: Aead, src: Bytes, nonceOffset: nat, dst: Bytes, rest: Bytes, index: nat) {
    && Decrypted(aead, src, nonceOffset) == After(dst, Decrypted(aead, rest, index))
    && Released(aead, src, nonceOffset) == dst + Released(aead, rest, index)
  }

  lemma NothingYet(aead: Aead, src: Bytes, nonceOffset: nat)
    ensures SoFar(aead, src, nonceOffset, [], src, nonceOffset)
  {
    var r := Decrypted(aead, src, nonceOffset);
    assert r.Ok? ==> [] + r.plain == r.plain;
    assert [] + Released(aead, src, nonceOffset) == Released(aead, src, nonceOffset);
  }

  lemma OneMore(aead: Aead, src: Bytes, nonceOffset: nat, dst: Bytes, rest: Bytes, index: nat, f: Opened)
    requires SoFar(aead, src, nonceOffset, dst, rest, index) && OpenFrame(aead, rest, index) == Some(f)
    ensures SoFar(aead, src, nonceOffset, dst + f.plain, rest[f.length..], index + 1)
  {
    AfterTwice(dst, f.plain, Decrypted(aead, rest[f.length..], index + 1));
    Regroup(dst, f.plain, Released(aead, rest[f.length..], index + 1));
  }

  lemma NoMore(aead: Aead, src: Bytes, nonceOffset: nat, dst: Bytes, rest: Bytes, index: nat)
    requires SoFar(aead, src, nonceOffset, dst, rest, index) && OpenFrame(aead, rest, index) == None
    ensures Decrypted(aead, src, nonceOffset) == if rest == [] then Ok(dst) else Err
    ensures Released(aead, src, nonceOffset) == dst
  {
    assert dst + [] == dst;
  }

  /** `dst` is what was written out, also when the stream turns out bad. */
  method DecryptStream(aead: Aead, src: Bytes, nonceOffset: nat) returns (ok: bool, dst: Bytes)
    ensures Decrypted(aead, src, nonceOffset) == if ok then Ok(dst) else Err
    ensures dst == Released(aead, src, nonceOffset)
  {
    var chunkIndex := nonceOffset;
    var rest := src;
    dst := [];
    NothingYet(aead, src, nonceOffset);
    while true
      invariant SoFar(aead, src, nonceOffset, dst, rest, chunkIndex)
      decreases |rest|
    {
      if |rest| == 0 {
        NoMore(aead, src, nonceOffset, dst, rest, chunkIndex);
        return true, dst;
      }
      var plaintext, chunkSize := ReadFrame(aead, rest, chunkIndex);
      if plaintext.None? {
        NoMore(aead, src, nonceOffset, dst, rest, chunkIndex);
        return false, dst;
      }
      OneMore(aead, src, nonceOffset, dst, rest, chunkIndex, Opened(plaintext.value, 4 + chunkSize));
      dst := dst + plaintext.value;
      rest := rest[4 + chunkSize..];
      chunkIndex := chunkIndex + 1;
    }
  }

  /** One round: the size, the frame, the nonce check, the authenticated decryption. */
  method ReadFrame(aead: Aead, rest: Bytes, chunkIndex: nat) returns (plaintext: Option<Bytes>, chunkSize: nat)
    ensures plaintext.None? <==> OpenFrame(aead, rest, chunkIndex).None?
    ensures plaintext.Some? ==> OpenFrame(aead, rest, chunkIndex) == Some(Opened(plaintext.value, 4 + chunkSize))
  {
    chunkSize := 0;
    if |rest| < 4 {
      return None, chunkSize;
    }
    chunkSize := FromLittleEndian(rest[..4]);
    if chunkSize < NONCE_SIZE {
      return None, chunkSize;
    }
    if |rest| - 4 < chunkSize {
      return None, chunkSize;
    }
    var nonce := rest[4..4 + NONCE_SIZE];
    var ciphertext := rest[4 + NONCE_SIZE..4 + chunkSize];
    if nonce != Nonce(chunkIndex) {
      return None, chunkSize;
    }
    plaintext := aead.open(nonce, ciphertext);
  }

  // ---------------------------------------------------------------- round trip and truncation

  lemma FrameSize(aead: Aead, index: nat, plain: Bytes)
    requires Sound(aead) && |plain| <= CHUNK_SIZE
    ensures var f := Frame(aead, index, plain);
      && |f| == 4 + NONCE_SIZE + |plain| + TAG_SIZE
      && FromLittleEndian(f[..4]) == |f| - 4
      && f[4..4 + NONCE_SIZE] == Nonce(index)
      && f[4 + NONCE_SIZE..] == aead.seal(Nonce(index), plain)
  {
    FrameParts(aead, index, plain);
    var ct := aead.seal(Nonce(index), plain);
    ThreeParts(LittleEndian(NONCE_SIZE + |ct|, 4), Nonce(index), ct);
  }

  lemma FrameParts(aead: Aead, index: nat, plain: Bytes)
    requires Sound(aead) && |plain| <= CHUNK_SIZE
    ensures var ct := aead.seal(Nonce(index), plain);
      var head := LittleEndian(NONCE_SIZE + |ct|, 4);
      && |ct| == |plain| + TAG_SIZE
      && Frame(aead, index, plain) == head + Nonce(index) + ct
      && FromLittleEndian(head) == NONCE_SIZE + |ct|
  {
    var ct := aead.seal(Nonce(index), plain);
    assert |ct| == |plain| + TAG_SIZE;
    SizeField(NONCE_SIZE + |ct|);
  }

  /** A size below 2^32 survives its four bytes. */
  lemma SizeField(size: nat)
    requires size < WRAP32
    ensures size % WRAP32 == size && FromLittleEndian(LittleEndian(size, 4)) == size
  {
    Pow256Values();
    LittleEndianInverse(size, 4);
  }

  lemma ThreeParts(a: Bytes, b: Bytes, c: Bytes)
    ensures (a + b + c)[..|a|] == a && (a + b + c)[|a|..|a| + |b|] == b && (a + b + c)[|a| + |b|..] == c
  {
  }

  /** Decrypting what starts with a whole frame yields its plaintext, then the rest. */
  lemma DecryptFrame(aead: Aead, index: nat, plain: Bytes, rest: Bytes)
    requires Sound(aead) && |plain| <= CHUNK_SIZE
    ensures Decrypted(aead, Frame(aead, index, plain) + rest, index) == After(plain, Decrypted(aead, rest, index + 1))
  {
    FrameSize(aead, index, plain);
    var f := Frame(aead, index, plain);
    var src := f + rest;
    assert src[..4] == f[..4] && src[4..4 + NONCE_SIZE] == f[4..4 + NONCE_SIZE];
    assert src[4 + NONCE_SIZE..|f|] == f[4 + NONCE_SIZE..];
    assert src[|f|..] == rest;
  }

  /** A proper, non-empty piece of a frame is rejected. */
  lemma TornFrame(aead: Aead, index: nat, plain: Bytes, n: nat)
    requires Sound(aead) && |plain| <= CHUNK_SIZE && 0 < n < |Frame(aead, index, plain)|
    ensures OpenFrame(aead, Frame(aead, index, plain)[..n], index) == None
    ensures Decrypted(aead, Frame(aead, index, plain)[..n], index) == Err
  {
    FrameSize(aead, index, plain);
    var f := Frame(aead, index, plain);
    if n >= 4 {
      assert f[..n][..4] == f[..4];
    }
  }

  ghost predicate IsBoundary(frames: seq<Bytes>, n: nat) {
    exists j: nat :: j <= |frames| && n == |Flatten(frames[..j])|
  }

  lemma BoundaryTail(frames: seq<Bytes>, n: nat)
    requires frames != [] && n >= |frames[0]|
    ensures IsBoundary(frames[1..], n - |frames[0]|) ==> IsBoundary(frames, n)
    ensures frames[0] != [] && IsBoundary(frames, n) ==> IsBoundary(frames[1..], n - |frames[0]|)
  {
    if j: nat :| j <= |frames[1..]| && n - |frames[0]| == |Flatten(frames[1..][..j])| {
      assert frames[..j + 1][1..] == frames[1..][..j];
      assert frames[..j + 1][0] == frames[0];
      assert n == |Flatten(frames[..j + 1])|;
    }
    if frames[0] != [] {
      if j: nat :| j <= |frames| && n == |Flatten(frames[..j])| {
        assert j > 0;
        assert frames[..j][1..] == frames[1..][..j - 1];
        assert n - |frames[0]| == |Flatten(frames[1..][..j - 1])|;
      }
    }
  }

  /** What a cut of `n` bytes decrypts to, if it is a boundary. */
  ghost predicate CutResult(aead: Aead, parts: seq<Bytes>, index: nat, n: nat)
    requires n <= |Flatten(Frames(aead, parts, index))|
  {
    CutAccepted(aead, parts, index, n) && CutPlain(aead, parts, index, n)
  }

  ghost predicate CutAccepted(aead: Aead, parts: seq<Bytes>, index: nat, n: nat)
    requires n <= |Flatten(Frames(aead, parts, index))|
  {
    var fs := Frames(aead, parts, index);
    Decrypted(aead, Flatten(fs)[..n], index).Ok? <==> IsBoundary(fs, n)
  }

  ghost predicate CutPlain(aead: Aead, parts: seq<Bytes>, index: nat, n: nat)
    requires n <= |Flatten(Frames(aead, parts, index))|
  {
    var fs := Frames(aead, parts, index);
    forall j: nat :: j <= |parts| && n == |Flatten(fs[..j])| ==> Decrypted(aead, Flatten(fs)[..n], index) == Ok(Flatten(parts[..j]))
  }

  lemma BoundaryPieces(aead: Aead, parts: seq<Bytes>, index: nat, n: nat, j: nat)
    requires parts != [] && j <= |parts| && 0 < |Frame(aead, index, parts[0])| <= n
    requires n == |Flatten(Frames(aead, parts, index)[..j])|
    ensures j > 0 && Flatten(parts[..j]) == parts[0] + Flatten(parts[1..][..j - 1])
    ensures n - |Frame(aead, index, parts[0])| == |Flatten(Frames(aead, parts[1..], index + 1)[..j - 1])|
  {
    var fs := Frames(aead, parts, index);
    assert fs[1..] == Frames(aead, parts[1..], index + 1);
    assert fs[..j][1..] == fs[1..][..j - 1] && fs[..j][0] == fs[0];
    assert parts[..j][1..] == parts[1..][..j - 1] && parts[..j][0] == parts[0];
  }

  lemma CutTail(aead: Aead, parts: seq<Bytes>, index: nat, n: nat)
    requires Sound(aead) && parts != [] && |parts[0]| <= CHUNK_SIZE
    requires |Frame(aead, index, parts[0])| <= n <= |Flatten(Frames(aead, parts, index))|
    ensures var fs := Frames(aead, parts, index);
      && fs[1..] == Frames(aead, parts[1..], index + 1) && fs[0] != [] && n - |fs[0]| <= |Flatten(fs[1..])|
      && Decrypted(aead, Flatten(fs)[..n], index)
         == After(parts[0], Decrypted(aead, Flatten(fs[1..])[..n - |fs[0]|], index + 1))
  {
    var fs := Frames(aead, parts, index);
    var f := fs[0];
    var rest := Flatten(fs[1..])[..n - |f|];
    assert Flatten(fs)[..n] == f + rest;
    FrameSize(aead, index, parts[0]);
    DecryptFrame(aead, index, parts[0], rest);
  }

  lemma CutInLater(aead: Aead, parts: seq<Bytes>, index: nat, n: nat)
    requires Sound(aead) && parts != [] && |parts[0]| <= CHUNK_SIZE
    requires |Frame(aead, index, parts[0])| <= n <= |Flatten(Frames(aead, parts, index))|
    requires CutResult(aead, parts[1..], index + 1, n - |Frame(aead, index, parts[0])|)
    ensures CutResult(aead, parts, index, n)
  {
    var fs := Frames(aead, parts, index);
    CutTail(aead, parts, index, n);
    BoundaryTail(fs, n);
    forall j: nat | j <= |parts| && n == |Flatten(fs[..j])|
      ensures Decrypted(aead, Flatten(fs)[..n], index) == Ok(Flatten(parts[..j]))
    {
      BoundaryPieces(aead, parts, index, n, j);
    }
  }

  /** A cut stream is accepted exactly when the cut is a frame boundary, and then it decrypts to the
      pieces before it. */
  lemma {:induction false} CutDecrypts(aead: Aead, parts: seq<Bytes>, index: nat, n: nat)
    requires Sound(aead) && forall p :: p in parts ==> |p| <= CHUNK_SIZE
    requires n <= |Flatten(Frames(aead, parts, index))|
    ensures CutResult(aead, parts, index, n)
    decreases |parts|
  {
    var fs := Frames(aead, parts, index);
    if parts == [] {
      assert fs[..0] == [];
    } else if n < |fs[0]| {
      CutInFirst(aead, parts, index, n);
    } else {
      assert fs[1..] == Frames(aead, parts[1..], index + 1);
      CutDecrypts(aead, parts[1..], index + 1, n - |fs[0]|);
      CutInLater(aead, parts, index, n);
    }
  }

  lemma CutInFirst(aead: Aead, parts: seq<Bytes>, index: nat, n: nat)
    requires Sound(aead) && parts != [] && |parts[0]| <= CHUNK_SIZE
    requires n < |Frame(aead, index, parts[0])| && n <= |Flatten(Frames(aead, parts, index))|
    ensures var r := Decrypted(aead, Flatten(Frames(aead, parts, index))[..n], index);
      && (r.Ok? <==> n == 0) && (n == 0 ==> r == Ok([]))
    ensures IsBoundary(Frames(aead, parts, index), n) <==> n == 0
    ensures forall j: nat :: j <= |parts| && n == |Flatten(Frames(aead, parts, index)[..j])| ==> j == 0 && Flatten(parts[..j]) == []
  {
    var fs := Frames(aead, parts, index);
    var f := fs[0];
    assert Flatten(fs)[..n] == f[..n];
    if n > 0 {
      TornFrame(aead, index, parts[0], n);
    }
    assert fs[..0] == [] && |Flatten(fs[..0])| == 0;
    forall j: nat | 0 < j <= |parts| ensures |Flatten(fs[..j])| >= |f| {
      assert fs[..j][0] == f;
    }
  }

  lemma {:induction false} SplitSizes(data: Bytes, cs: nat)
    requires cs > 0
    ensures forall p :: p in Split(data, cs) ==> 0 < |p| <= cs
  {
    if |data| > cs {
      SplitSizes(data[cs..], cs);
    }
  }

  /** Round trip, for every plaintext and nonce offset. */
  lemma DecryptInvertsEncrypt(aead: Aead, plain: Bytes, nonceOffset: nat)
    requires Sound(aead)
    ensures Decrypted(aead, Encrypted(aead, plain, nonceOffset), nonceOffset) == Ok(plain)
  {
    var parts := Split(plain, CHUNK_SIZE);
    var fs := Frames(aead, parts, nonceOffset);
    SplitSizes(plain, CHUNK_SIZE);
    assert fs[..|parts|] == fs && parts[..|parts|] == parts;
    CutDecrypts(aead, parts, nonceOffset, |Flatten(fs)|);
    assert Flatten(fs)[..|Flatten(fs)|] == Flatten(fs);
    FlattenSplit(plain, CHUNK_SIZE);
  }

  /** The length of the first `j` frames when their pieces are full. */
  lemma {:induction false} FullFrames(aead: Aead, parts: seq<Bytes>, index: nat, j: nat)
    requires Sound(aead) && j <= |parts| && forall i :: 0 <= i < j ==> |parts[i]| == CHUNK_SIZE
    ensures |Flatten(Frames(aead, parts, index)[..j])| == j * FRAME_SIZE
    decreases j
  {
    if j > 0 {
      FullFrames(aead, parts[1..], index + 1, j - 1);
      FirstFrame(aead, parts, index, j);
    }
  }

  lemma FirstFrame(aead: Aead, parts: seq<Bytes>, index: nat, j: nat)
    requires Sound(aead) && 0 < j <= |parts| && |parts[0]| == CHUNK_SIZE
    ensures |Flatten(Frames(aead, parts, index)[..j])| == FRAME_SIZE + |Flatten(Frames(aead, parts[1..], index + 1)[..j - 1])|
  {
    var fs := Frames(aead, parts, index);
    FrameSize(aead, index, parts[0]);
    assert fs[1..] == Frames(aead, parts[1..], index + 1);
    assert fs[..j][0] == fs[0] && fs[..j][1..] == fs[1..][..j - 1];
  }

  lemma {:induction false} FrameAt(aead: Aead, parts: seq<Bytes>, index: nat, k: nat)
    requires k < |parts|
    ensures Frames(aead, parts, index)[k] == Frame(aead, index + k, parts[k])
  {
    if k > 0 {
      FrameAt(aead, parts[1..], index + 1, k - 1);
    }
  }

  /** Where the frames of a plaintext begin, and how much the last one adds. */
  lemma FrameOffsets(aead: Aead, plain: Bytes, index: nat, j: nat)
    requires Sound(aead)
    ensures var parts := Split(plain, CHUNK_SIZE);
      var fs := Frames(aead, parts, index);
      && (j < |parts| ==> |Flatten(fs[..j])| == j * FRAME_SIZE)
      && (j + 1 == |parts| ==> j * FRAME_SIZE < |Flatten(fs)| <= j * FRAME_SIZE + FRAME_SIZE)
  {
    var parts := Split(plain, CHUNK_SIZE);
    var fs := Frames(aead, parts, index);
    if j < |parts| {
      forall i | 0 <= i < j ensures |parts[i]| == CHUNK_SIZE {
        SplitTiles(plain, CHUNK_SIZE, i);
      }
      FullFrames(aead, parts, index, j);
      if j + 1 == |parts| {
        SplitSizes(plain, CHUNK_SIZE);
        LastFrame(aead, parts, index, j);
      }
    }
  }

  lemma LastFrame(aead: Aead, parts: seq<Bytes>, index: nat, j: nat)
    requires Sound(aead) && j + 1 == |parts| && 0 < |parts[j]| <= CHUNK_SIZE
    ensures var fs := Frames(aead, parts, index);
      |Flatten(fs[..j])| < |Flatten(fs)| <= |Flatten(fs[..j])| + FRAME_SIZE
  {
    var fs := Frames(aead, parts, index);
    FlattenTake(fs, j);
    assert fs[..j + 1] == fs;
    FrameAt(aead, parts, index, j);
    FrameSize(aead, index + j, parts[j]);
  }

  lemma Multiples(j: nat, n: nat)
    ensures j * FRAME_SIZE % FRAME_SIZE == 0
    ensures n % FRAME_SIZE == 0 ==> n == n / FRAME_SIZE * FRAME_SIZE
  {
    assert FRAME_SIZE == 4194336;
  }

  lemma BoundaryIsMultiple(aead: Aead, plain: Bytes, index: nat, j: nat)
    requires Sound(aead) && j <= |Split(plain, CHUNK_SIZE)|
    ensures var fs := Frames(aead, Split(plain, CHUNK_SIZE), index);
      |Flatten(fs[..j])| % FRAME_SIZE == 0 || |Flatten(fs[..j])| == |Flatten(fs)|
  {
    var fs := Frames(aead, Split(plain, CHUNK_SIZE), index);
    if j < |fs| {
      FrameOffsets(aead, plain, index, j);
      Multiples(j, 0);
    } else {
      assert fs[..j] == fs;
    }
  }

  lemma MultipleIsBoundary(aead: Aead, plain: Bytes, index: nat, j: nat)
    requires Sound(aead) && j * FRAME_SIZE <= |Encrypted(aead, plain, index)|
    ensures IsBoundary(Frames(aead, Split(plain, CHUNK_SIZE), index), j * FRAME_SIZE)
  {
    var fs := Frames(aead, Split(plain, CHUNK_SIZE), index);
    assert fs[..|fs|] == fs;
    if |fs| == 0 {
      assert fs[..0] == [];
    } else {
      FrameOffsets(aead, plain, index, |fs| - 1);
      FrameOffsets(aead, plain, index, j);
      if j >= |fs| {
        assert |Flatten(fs[..|fs|])| == j * FRAME_SIZE;
      } else {
        assert |Flatten(fs[..j])| == j * FRAME_SIZE;
      }
    }
  }

  lemma BoundaryForward(aead: Aead, plain: Bytes, index: nat, n: nat)
    requires Sound(aead) && IsBoundary(Frames(aead, Split(plain, CHUNK_SIZE), index), n)
    ensures n % FRAME_SIZE == 0 || n == |Encrypted(aead, plain, index)|
  {
    var fs := Frames(aead, Split(plain, CHUNK_SIZE), index);
    var j: nat :| j <= |fs| && n == |Flatten(fs[..j])|;
    BoundaryIsMultiple(aead, plain, index, j);
  }

  lemma WholeIsBoundary(frames: seq<Bytes>)
    ensures IsBoundary(frames, |Flatten(frames)|)
  {
    assert frames[..|frames|] == frames;
    assert |Flatten(frames[..|frames|])| == |Flatten(frames)|;
  }

  /** Cuts between frames are the multiples of the frame size, and the whole length. */
  lemma BoundaryIff(aead: Aead, plain: Bytes, index: nat, n: nat)
    requires Sound(aead) && n <= |Encrypted(aead, plain, index)|
    ensures IsBoundary(Frames(aead, Split(plain, CHUNK_SIZE), index), n) <==>
      n % FRAME_SIZE == 0 || n == |Encrypted(aead, plain, index)|
  {
    if IsBoundary(Frames(aead, Split(plain, CHUNK_SIZE), index), n) {
      BoundaryForward(aead, plain, index, n);
    }
    WholeIsBoundary(Frames(aead, Split(plain, CHUNK_SIZE), index));
    if n % FRAME_SIZE == 0 {
      Multiples(0, n);
      MultipleIsBoundary(aead, plain, index, n / FRAME_SIZE);
    }
  }

  /** A truncated ciphertext is accepted exactly when what is left is a whole number of full frames, or
      nothing is missing: only then is the loss silent. */
  lemma TruncationDetectedIff(aead: Aead, plain: Bytes, nonceOffset: nat, n: nat)
    requires Sound(aead) && n <= |Encrypted(aead, plain, nonceOffset)|
    ensures Decrypted(aead, Encrypted(aead, plain, nonceOffset)[..n], nonceOffset).Ok?
       <==> n % FRAME_SIZE == 0 || n == |Encrypted(aead, plain, nonceOffset)|
  {
    SplitSizes(plain, CHUNK_SIZE);
    CutDecrypts(aead, Split(plain, CHUNK_SIZE), nonceOffset, n);
    BoundaryIff(aead, plain, nonceOffset, n);
  }

  lemma ReleasedFrame(aead: Aead, index: nat, plain: Bytes, rest: Bytes)
    requires Sound(aead) && |plain| <= CHUNK_SIZE
    ensures Released(aead, Frame(aead, index, plain) + rest, index) == plain + Released(aead, rest, index + 1)
  {
    FrameSize(aead, index, plain);
    var f := Frame(aead, index, plain);
    var src := f + rest;
    assert src[..4] == f[..4] && src[4..4 + NONCE_SIZE] == f[4..4 + NONCE_SIZE];
    assert src[4 + NONCE_SIZE..|f|] == f[4 + NONCE_SIZE..];
    assert src[|f|..] == rest;
  }

  /** However the frames are cut, what is written out is a prefix of the plaintext. */
  lemma {:induction false} CutReleasesPrefix(aead: Aead, parts: seq<Bytes>, index: nat, n: nat)
    requires Sound(aead) && (forall p :: p in parts ==> |p| <= CHUNK_SIZE) && n <= |Flatten(Frames(aead, parts, index))|
    ensures Released(aead, Flatten(Frames(aead, parts, index))[..n], index) <= Flatten(parts)
    decreases |parts|
  {
    var fs := Frames(aead, parts, index);
    if parts != [] && n > 0 {
      var f := fs[0];
      assert fs[1..] == Frames(aead, parts[1..], index + 1);
      if n < |f| {
        assert Flatten(fs)[..n] == f[..n];
        TornFrame(aead, index, parts[0], n);
      } else {
        var rest := Flatten(fs[1..])[..n - |f|];
        assert Flatten(fs)[..n] == f + rest;
        ReleasedFrame(aead, index, parts[0], rest);
        CutReleasesPrefix(aead, parts[1..], index + 1, n - |f|);
      }
    }
  }

  /** A truncated ciphertext, detected or not, never puts out anything but a prefix of the plaintext. */
  lemma TruncationReleasesPrefix(aead: Aead, plain: Bytes, nonceOffset: nat, n: nat)
    requires Sound(aead) && n <= |Encrypted(aead, plain, nonceOffset)|
    ensures Released(aead, Encrypted(aead, plain, nonceOffset)[..n], nonceOffset) <= plain
  {
    SplitSizes(plain, CHUNK_SIZE);
    CutReleasesPrefix(aead, Split(plain, CHUNK_SIZE), nonceOffset, n);
    FlattenSplit(plain, CHUNK_SIZE);
  }

  // ---------------------------------------------------------------- nonces

  /** The nonces the encryption of `plain` uses. */
  function NoncesUsed(plain: Bytes, nonceOffset: nat): (ns: seq<Bytes>) {
    seq(|Split(plain, CHUNK_SIZE)|, k requires 0 <= k => Nonce(nonceOffset + k))
  }

  /** Neighbouring chunks of a file, encrypted at their own indices, share no nonce exactly when the
      first fits in one frame. */
  lemma NeighboursShareNoNonceIff(p: Bytes, q: Bytes, i: nat)
    requires p != [] && q != [] && i + 1 < WRAP64
    requires |q| <= CHUNK_SIZE
    ensures (forall x :: x in NoncesUsed(p, i) ==> x !in NoncesUsed(q, i + 1)) <==> |p| <= CHUNK_SIZE
  {
    NonceIdentifiesIndex(i, i + 1);
    var ps, qs := NoncesUsed(p, i), NoncesUsed(q, i + 1);
    assert |qs| == 1 && qs[0] == Nonce(i + 1);
    if |p| <= CHUNK_SIZE {
      assert |ps| == 1 && ps[0] == Nonce(i);
    } else {
      assert |Split(p, CHUNK_SIZE)| == 1 + |Split(p[CHUNK_SIZE..], CHUNK_SIZE)| >= 2;
      assert ps[1] == Nonce(i + 1) && ps[1] in ps && qs[0] in qs;
    }
  }

  /** The chunks of one file, none larger than a frame, use pairwise different nonces. */
  lemma FileNoncesDistinct(parts: seq<Bytes>, i: nat, j: nat)
    requires i < j < |parts| <= WRAP64 && forall p :: p in parts ==> |p| <= CHUNK_SIZE
    ensures forall x :: x in NoncesUsed(parts[i], i) ==> x !in NoncesUsed(parts[j], j)
  {
    NonceIdentifiesIndex(i, j);
    assert parts[i] in parts && parts[j] in parts;
    assert |NoncesUsed(parts[i], i)| <= 1 && |NoncesUsed(parts[j], j)| <= 1;
    assert parts[i] != [] ==> NoncesUsed(parts[i], i) == [Nonce(i)];
    assert parts[j] != [] ==> NoncesUsed(parts[j], j) == [Nonce(j)];
  }

  // ---------------------------------------------------------------- exactly what is accepted

  /** A stream of sealed texts: size, nonce and text of each, with consecutive nonces from `index`. */
  function Wire(cts: seq<Bytes>, index: nat): Bytes {
    if cts == [] then [] else LittleEndian(NONCE_SIZE + |cts[0]|, 4) + Nonce(index) + cts[0] + Wire(cts[1..], index + 1)
  }

  /** The sealed texts fit their size fields and open to `parts`. */
  ghost predicate OpensTo(aead: Aead, cts: seq<Bytes>, index: nat, parts: seq<Bytes>) {
    && |cts| == |parts|
    && forall k :: 0 <= k < |cts| ==> NONCE_SIZE + |cts[k]| < WRAP32 && aead.open(Nonce(index + k), cts[k]) == Some(parts[k])
  }

  lemma {:induction false} LittleEndianOnto(b: Bytes)
    ensures LittleEndian(FromLittleEndian(b), |b|) == b && FromLittleEndian(b) < Pow256(|b|)
  {
    if b != [] {
      LittleEndianOnto(b[1..]);
      assert (b[0] as nat + 256 * FromLittleEndian(b[1..])) / 256 == FromLittleEndian(b[1..]);
    }
  }

  lemma FourParts(a: Bytes, b: Bytes, c: Bytes, d: Bytes)
    ensures var s := a + b + c + d;
      && s[..|a|] == a && s[|a|..|a| + |b|] == b && s[|a| + |b|..|a| + |b| + |c|] == c && s[|a| + |b| + |c|..] == d
  {
  }

  /** A whole frame at the front opens exactly when it has the expected nonce and authenticates. */
  lemma FrontFrame(aead: Aead, nonce: Bytes, ct: Bytes, rest: Bytes, index: nat)
    requires |nonce| == NONCE_SIZE && NONCE_SIZE + |ct| < WRAP32
    ensures OpenFrame(aead, LittleEndian(NONCE_SIZE + |ct|, 4) + nonce + ct + rest, index) ==
            if nonce == Nonce(index) && aead.open(nonce, ct).Some?
            then Some(Opened(aead.open(nonce, ct).value, 4 + NONCE_SIZE + |ct|)) else None
  {
    SizeField(NONCE_SIZE + |ct|);
    FourParts(LittleEndian(NONCE_SIZE + |ct|, 4), nonce, ct, rest);
  }

  /** A frame with another nonce, or one that does not authenticate, fails the call and releases nothing. */
  lemma RefusedFrame(aead: Aead, nonce: Bytes, ct: Bytes, rest: Bytes, index: nat)
    requires |nonce| == NONCE_SIZE && NONCE_SIZE + |ct| < WRAP32
    requires nonce != Nonce(index) || aead.open(nonce, ct) == None
    ensures Decrypted(aead, LittleEndian(NONCE_SIZE + |ct|, 4) + nonce + ct + rest, index) == Err
    ensures Released(aead, LittleEndian(NONCE_SIZE + |ct|, 4) + nonce + ct + rest, index) == []
  {
    FrontFrame(aead, nonce, ct, rest, index);
  }

  lemma WireStep(aead: Aead, ct: Bytes, rest: Bytes, index: nat)
    requires NONCE_SIZE + |ct| < WRAP32 && aead.open(Nonce(index), ct).Some?
    ensures Decrypted(aead, LittleEndian(NONCE_SIZE + |ct|, 4) + Nonce(index) + ct + rest, index)
            == After(aead.open(Nonce(index), ct).value, Decrypted(aead, rest, index + 1))
  {
    FrontFrame(aead, Nonce(index), ct, rest, index);
    FourParts(LittleEndian(NONCE_SIZE + |ct|, 4), Nonce(index), ct, rest);
  }

  lemma {:induction false} WireIsAccepted(aead: Aead, cts: seq<Bytes>, index: nat, parts: seq<Bytes>)
    requires OpensTo(aead, cts, index, parts)
    ensures Decrypted(aead, Wire(cts, index), index) == Ok(Flatten(parts))
    decreases |cts|
  {
    if cts != [] {
      assert OpensTo(aead, cts[1..], index + 1, parts[1..]) by {
        forall k | 0 <= k < |cts| - 1 ensures aead.open(Nonce(index + 1 + k), cts[1..][k]) == Some(parts[1..][k]) {
          assert cts[1..][k] == cts[k + 1] && index + 1 + k == index + (k + 1);
        }
      }
      WireIsAccepted(aead, cts[1..], index + 1, parts[1..]);
      assert aead.open(Nonce(index + 0), cts[0]) == Some(parts[0]);
      WireStep(aead, cts[0], Wire(cts[1..], index + 1), index);
    }
  }

  lemma FrameAtFront(aead: Aead, src: Bytes, index: nat) returns (ct: Bytes)
    requires OpenFrame(aead, src, index).Some?
    ensures NONCE_SIZE + |ct| < WRAP32 && aead.open(Nonce(index), ct) == Some(OpenFrame(aead, src, index).value.plain)
    ensures src == LittleEndian(NONCE_SIZE + |ct|, 4) + Nonce(index) + ct + src[OpenFrame(aead, src, index).value.length..]
  {
    var size := FromLittleEndian(src[..4]);
    ct := src[4 + NONCE_SIZE..4 + size];
    LittleEndianOnto(src[..4]);
    Pow256Values();
    assert src == src[..4] + src[4..4 + NONCE_SIZE] + ct + src[4 + size..];
  }

  lemma {:induction false} AcceptedIsWire(aead: Aead, src: Bytes, index: nat) returns (cts: seq<Bytes>, parts: seq<Bytes>)
    requires Decrypted(aead, src, index).Ok?
    ensures src == Wire(cts, index) && OpensTo(aead, cts, index, parts)
    decreases |src|
  {
    if src == [] {
      cts, parts := [], [];
    } else {
      var f := OpenFrame(aead, src, index).value;
      var ct := FrameAtFront(aead, src, index);
      var cs, ps := AcceptedIsWire(aead, src[f.length..], index + 1);
      cts, parts := [ct] + cs, [f.plain] + ps;
      assert cts[1..] == cs;
      forall k | 0 <= k < |cts|
        ensures NONCE_SIZE + |cts[k]| < WRAP32 && aead.open(Nonce(index + k), cts[k]) == Some(parts[k])
      {
        if k > 0 {
          assert cts[k] == cs[k - 1] && parts[k] == ps[k - 1] && index + 1 + (k - 1) == index + k;
        }
      }
    }
  }

  /** Decryption succeeds exactly on streams of sealed texts with consecutive nonces that all authenticate,
      and yields what they open to; for any cipher and any bytes. */
  lemma DecryptsIff(aead: Aead, src: Bytes, index: nat, plain: Bytes)
    ensures Decrypted(aead, src, index) == Ok(plain) <==>
            exists cts, parts :: src == Wire(cts, index) && OpensTo(aead, cts, index, parts) && plain == Flatten(parts)
  {
    if Decrypted(aead, src, index).Ok? {
      var cts, parts := AcceptedIsWire(aead, src, index);
      WireIsAccepted(aead, cts, index, parts);
    }
    forall cts, parts | src == Wire(cts, index) && OpensTo(aead, cts, index, parts)
      ensures Decrypted(aead, src, index) == Ok(Flatten(parts))
    {
      WireIsAccepted(aead, cts, index, parts);
    }
  }

  lemma NextModulo(i: nat, j: nat, w: nat)
    requires w > 0 && i % w == j % w
    ensures (i + 1) % w == (j + 1) % w
  {
    SuccessorModulo(i, w);
    SuccessorModulo(j, w);
  }

  lemma SuccessorModulo(i: nat, w: nat)
    requires w > 0
    ensures (i + 1) % w == if i % w + 1 == w then 0 else i % w + 1
  {
    var q, r := i / w, i % w;
    assert i == q * w + r;
    if r + 1 == w {
      assert i + 1 == (q + 1) * w + 0;
      QuotientRemainder(i + 1, w, q + 1, 0);
    } else {
      assert i + 1 == q * w + (r + 1);
      QuotientRemainder(i + 1, w, q, r + 1);
    }
  }

  lemma SameFrame(aead: Aead, src: Bytes, i: nat, j: nat)
    requires Nonce(i) == Nonce(j)
    ensures OpenFrame(aead, src, i) == OpenFrame(aead, src, j)
  {
  }

  lemma {:induction false} SameModulo(aead: Aead, src: Bytes, i: nat, j: nat)
    requires i % WRAP64 == j % WRAP64
    ensures Decrypted(aead, src, i) == Decrypted(aead, src, j)
    decreases |src|
  {
    SameFrame(aead, src, i, j);
    var f := OpenFrame(aead, src, i);
    if src != [] && f.Some? {
      NextModulo(i, j, WRAP64);
      SameModulo(aead, src[f.value.length..], i + 1, j + 1);
    }
  }

  lemma SameNonce(i: nat, j: nat)
    ensures Nonce(i) == Nonce(j) <==> i % WRAP64 == j % WRAP64
  {
    NonceReads(i);
    NonceReads(j);
  }

  lemma OtherNonceRejected(aead: Aead, plain: Bytes, i: nat, j: nat)
    requires Sound(aead) && plain != [] && Nonce(i) != Nonce(j)
    ensures Decrypted(aead, Encrypted(aead, plain, i), j) == Err && Released(aead, Encrypted(aead, plain, i), j) == []
  {
    var parts := Split(plain, CHUNK_SIZE);
    SplitSizes(plain, CHUNK_SIZE);
    assert parts[0] in parts;
    FrameParts(aead, i, parts[0]);
    RefusedFrame(aead, Nonce(i), aead.seal(Nonce(i), parts[0]), Flatten(Frames(aead, parts, i)[1..]), j);
  }

  /** `b` authenticates nothing that `a` sealed, as ciphers under different keys. */
  ghost predicate Strangers(a: Aead, b: Aead) {
    forall n, p :: b.open(n, a.seal(n, p)) == None
  }

  /** A stream decrypted under another key is rejected, unless it is empty. */
  lemma OtherKeyRejectedIff(a: Aead, b: Aead, plain: Bytes, i: nat)
    requires Sound(a) && Strangers(a, b)
    ensures Decrypted(b, Encrypted(a, plain, i), i) == Err <==> plain != []
  {
    if plain != [] {
      var parts := Split(plain, CHUNK_SIZE);
      SplitSizes(plain, CHUNK_SIZE);
      assert parts[0] in parts;
      FrameParts(a, i, parts[0]);
      RefusedFrame(b, Nonce(i), a.seal(Nonce(i), parts[0]), Flatten(Frames(a, parts, i)[1..]), i);
    } else {
      EncryptedNothing(a, plain, i);
    }
  }

  /** A stream decrypted under another offset than it was encrypted with is rejected, unless it is empty or
      the offsets are one uint64. */
  lemma OtherOffsetRejectedIff(aead: Aead, plain: Bytes, i: nat, j: nat)
    requires Sound(aead)
    ensures Decrypted(aead, Encrypted(aead, plain, i), j) == if plain == [] || i % WRAP64 == j % WRAP64 then Ok(plain) else Err
    ensures plain != [] && i % WRAP64 != j % WRAP64 ==> Released(aead, Encrypted(aead, plain, i), j) == []
  {
    SameNonce(i, j);
    if i % WRAP64 == j % WRAP64 {
      DecryptInvertsEncrypt(aead, plain, i);
      SameModulo(aead, Encrypted(aead, plain, i), i, j);
    } else if plain != [] {
      OtherNonceRejected(aead, plain, i, j);
    }
  }
}
