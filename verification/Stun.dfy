/** The STUN response parser (Peer2Peer/nat/nat.go:144-237): an attribute walk over untrusted bytes, and
    the two address attributes of sections 15.1 and 15.2 of RFC 5389. */
module Stun {
  import opened Common

  type Word16 = x: int | 0 <= x < 0x1_0000

  datatype IP = V4(a: Byte, b: Byte, c: Byte, d: Byte) | V6(bytes: Bytes)

  datatype Endpoint = Endpoint(ip: IP, port: Word16) {
    predicate Valid() { ip.V6? ==> |ip.bytes| == 16 }
  }

  datatype Error = TooShort | WrongType(found: Word16) | WrongTransaction | NoAddress | ShortAddress | UnknownFamily(family: Word16)

  datatype Result = Found(endpoint: Endpoint) | Failed(error: Error)

  // ---------------------------------------------------------------- exclusive-or on naturals

  function Xor(x: nat, y: nat): nat
    decreases x + y
  {
    if x == 0 && y == 0 then 0 else 2 * Xor(x / 2, y / 2) + XorBit(x, y)
  }

  function XorBit(x: nat, y: nat): nat {
    if x % 2 == y % 2 then 0 else 1
  }

  /** Halving undoes appending a bit on both sides. */
  lemma XorDouble(u: nat, v: nat, a: nat, b: nat)
    requires a < 2 && b < 2
    ensures Xor(2 * u + a, 2 * v + b) == 2 * Xor(u, v) + XorBit(a, b)
  {
    assert (2 * u + a) / 2 == u && (2 * v + b) / 2 == v;
    assert (2 * u + a) % 2 == a && (2 * v + b) % 2 == b;
  }

  lemma {:induction false} XorTwice(x: nat, y: nat)
    ensures Xor(Xor(x, y), y) == x
    decreases x + y
  {
    if x != 0 || y != 0 {
      var u, v, a, b := x / 2, y / 2, x % 2, y % 2;
      XorTwice(u, v);
      XorDouble(u, v, a, b);
      XorDouble(Xor(u, v), v, XorBit(a, b), b);
    }
  }

  lemma {:induction false} XorBound(x: nat, y: nat, k: nat)
    requires x < Shift(1, k) && y < Shift(1, k)
    ensures Xor(x, y) < Shift(1, k)
  {
    if k > 0 {
      XorBound(x / 2, y / 2, k - 1);
    }
  }

  /** `x` shifted left by `k` bits. */
  function Shift(x: nat, k: nat): nat {
    if k == 0 then x else 2 * Shift(x, k - 1)
  }

  /** Exclusive-or acts on the low k bits and on the bits above them separately. */
  lemma {:induction false} XorSplit(x: nat, a: nat, y: nat, b: nat, k: nat)
    requires a < Shift(1, k) && b < Shift(1, k)
    ensures Xor(Shift(x, k) + a, Shift(y, k) + b) == Shift(Xor(x, y), k) + Xor(a, b)
  {
    if k == 0 {
      assert a == 0 && b == 0;
    } else {
      XorSplit(x, Half(a), y, Half(b), k - 1);
      XorSplitStep(Shift(x, k - 1), a, Shift(y, k - 1), b, Shift(Xor(x, y), k - 1));
    }
  }

  lemma XorSplitStep(u: nat, a: nat, v: nat, b: nat, w: nat)
    requires Xor(u + Half(a), v + Half(b)) == w + Xor(Half(a), Half(b))
    ensures Xor(2 * u + a, 2 * v + b) == 2 * w + Xor(a, b)
  {
    XorAppend(u, Half(a), a - 2 * Half(a), v, Half(b), b - 2 * Half(b), w);
  }

  function Half(a: nat): (h: nat)
    ensures 2 * h <= a <= 2 * h + 1
  {
    a / 2
  }

  lemma XorAppend(u: nat, a: nat, a0: nat, v: nat, b: nat, b0: nat, w: nat)
    requires a0 < 2 && b0 < 2 && Xor(u + a, v + b) == w + Xor(a, b)
    ensures Xor(2 * u + (2 * a + a0), 2 * v + (2 * b + b0)) == 2 * w + Xor(2 * a + a0, 2 * b + b0)
  {
    assert 2 * (u + a) + a0 == 2 * u + (2 * a + a0) && 2 * (v + b) + b0 == 2 * v + (2 * b + b0);
    XorDouble(u + a, v + b, a0, b0);
    XorDouble(a, b, a0, b0);
  }

  lemma ShiftEight(x: nat)
    ensures Shift(x, 8) == 0x100 * x
  {
    assert Shift(x, 2) == 2 * Shift(x, 1) == 2 * (2 * Shift(x, 0)) == 4 * x;
    assert Shift(x, 4) == 2 * Shift(x, 3) == 16 * x;
    assert Shift(x, 6) == 2 * Shift(x, 5) == 64 * x;
    assert Shift(x, 8) == 2 * Shift(x, 7) == 0x100 * x;
  }

  function XorByte(a: Byte, b: Byte): Byte {
    ShiftEight(1);
    XorBound(a, b, 8);
    Xor(a, b)
  }

  lemma XorBytewise(x: nat, a: Byte, y: nat, b: Byte)
    ensures Xor(0x100 * x + a, 0x100 * y + b) == 0x100 * Xor(x, y) + XorByte(a, b)
  {
    ShiftEight(1);
    ShiftEight(x);
    ShiftEight(y);
    ShiftEight(Xor(x, y));
    XorSplit(x, a, y, b, 8);
  }

  // ---------------------------------------------------------------- big-endian words

  function Pair(a: Byte, b: Byte): Word16 {
    0x100 * a + b
  }

  function Word(a: Byte, b: Byte, c: Byte, d: Byte): nat {
    0x100 * (0x100 * (0x100 * a + b) + c) + d
  }

  function High(w: Word16): Byte {
    w / 0x100
  }

  function Low(w: Word16): Byte {
    w % 0x100
  }

  lemma PairIff(a: Byte, b: Byte, w: Word16)
    ensures Pair(a, b) == w <==> a == High(w) && b == Low(w)
  {
  }

  // ---------------------------------------------------------------- the address attributes

  function XorAll(a: Bytes, b: Bytes): Bytes
    requires |a| <= |b|
  {
    seq(|a|, i requires 0 <= i < |a| => XorByte(a[i], b[i]))
  }

  /** The value of an XOR-MAPPED-ADDRESS attribute as section 15.2 of RFC 5389 lays it out. */
  function EncodeXor(e: Endpoint, cookie: Bytes, txID: Bytes): Bytes
    requires e.Valid() && |cookie| == 4 && |txID| == 12
  {
    var high, low := XorByte(High(e.port), 0x21), XorByte(Low(e.port), 0x12);
    match e.ip
    case V4(a, b, c, d) => [0, 1, high, low, XorByte(a, 0x21), XorByte(b, 0x12), XorByte(c, 0xA4), XorByte(d, 0x42)]
    case V6(bytes) => [0, 2, high, low] + XorAll(bytes, cookie + txID)
  }

  /** The value of a MAPPED-ADDRESS attribute for IPv4 as section 15.1 of RFC 5389 lays it out. */
  function EncodeMapped(e: Endpoint): Bytes
    requires e.ip.V4?
  {
    [0, 1, High(e.port), Low(e.port), e.ip.a, e.ip.b, e.ip.c, e.ip.d]
  }

  /** The port as the parser recovers it: one exclusive-or of 16 bits. */
  function UnmaskPort(a: Byte, b: Byte): (w: Word16)
    ensures w == Pair(XorByte(a, 0x21), XorByte(b, 0x12))
  {
    XorBytewise(a, b, 0x21, 0x12);
    assert Xor(a, 0x21) == XorByte(a, 0x21);
    Xor(Pair(a, b), 0x2112)
  }

  lemma WordBytes(a: Byte, b: Byte, c: Byte, d: Byte)
    ensures var w := Word(a, b, c, d);
      w / 0x100_0000 % 0x100 == a && w / 0x1_0000 % 0x100 == b && w / 0x100 % 0x100 == c && w % 0x100 == d
  {
    var p := 0x100 * a + b;
    var w := Word(a, b, c, d);
    assert w / 0x100 == 0x100 * p + c && w % 0x100 == d;
    assert w == 0x1_0000 * p + (0x100 * c + d);
    assert w / 0x1_0000 == p;
    assert w == 0x100_0000 * a + (0x1_0000 * b + 0x100 * c + d);
    assert w / 0x100_0000 == a;
  }

  lemma XorWord(a: Byte, b: Byte, c: Byte, d: Byte)
    ensures Xor(Word(a, b, c, d), 0x2112A442) == Word(XorByte(a, 0x21), XorByte(b, 0x12), XorByte(c, 0xA4), XorByte(d, 0x42))
  {
    XorBytewise(a, b, 0x21, 0x12);
    XorBytewise(0x100 * a + b, c, 0x2112, 0xA4);
    XorBytewise(0x100 * (0x100 * a + b) + c, d, 0x2112A4, 0x42);
  }

  /** The IPv4 address as the parser recovers it: one exclusive-or of 32 bits, cut into bytes. */
  function UnmaskV4(a: Byte, b: Byte, c: Byte, d: Byte): (ip: IP)
    ensures ip == V4(XorByte(a, 0x21), XorByte(b, 0x12), XorByte(c, 0xA4), XorByte(d, 0x42))
  {
    XorWord(a, b, c, d);
    WordBytes(XorByte(a, 0x21), XorByte(b, 0x12), XorByte(c, 0xA4), XorByte(d, 0x42));
    var w := Xor(Word(a, b, c, d), 0x2112A442);
    V4(w / 0x100_0000 % 0x100, w / 0x1_0000 % 0x100, w / 0x100 % 0x100, w % 0x100)
  }

  function DecodeXor(val: Bytes, cookie: Bytes, txID: Bytes): Result
    requires |cookie| == 4 && |txID| == 12
  {
    if |val| < 8 then Failed(ShortAddress)
    else
      var family, port := Pair(val[0], val[1]), UnmaskPort(val[2], val[3]);
      if family == 1 then Found(Endpoint(UnmaskV4(val[4], val[5], val[6], val[7]), port))
      else if family == 2 then
        if |val| < 20 then Failed(ShortAddress)
        else Found(Endpoint(V6(XorAll(val[4..20], cookie + txID)), port))
      else Failed(UnknownFamily(family))
  }

  function DecodeMapped(val: Bytes): Result {
    if |val| < 8 then Failed(ShortAddress)
    else
      var family := Pair(val[0], val[1]);
      if family != 1 then Failed(UnknownFamily(family))
      else Found(Endpoint(V4(val[4], val[5], val[6], val[7]), Pair(val[2], val[3])))
  }

  lemma XorByteIff(a: Byte, m: Byte, b: Byte)
    ensures XorByte(a, m) == b <==> a == XorByte(b, m)
  {
    XorTwice(a, m);
    XorTwice(b, m);
  }

  lemma PortIff(a: Byte, b: Byte, port: Word16)
    ensures UnmaskPort(a, b) == port <==> a == XorByte(High(port), 0x21) && b == XorByte(Low(port), 0x12)
  {
    XorByteIff(a, 0x21, High(port));
    XorByteIff(b, 0x12, Low(port));
  }

  lemma XorAllIff(a: Bytes, m: Bytes, b: Bytes)
    requires |a| == |b| <= |m|
    ensures XorAll(a, m) == b <==> a == XorAll(b, m)
  {
    forall i | 0 <= i < |a| ensures XorAll(a, m)[i] == b[i] <==> a[i] == XorAll(b, m)[i] {
      XorByteIff(a[i], m[i], b[i]);
    }
    if XorAll(a, m) == b {
      assert forall i :: 0 <= i < |a| ==> XorAll(a, m)[i] == b[i];
    }
    if a == XorAll(b, m) {
      assert forall i :: 0 <= i < |a| ==> a[i] == XorAll(b, m)[i];
    }
  }

  lemma DecodeXorIffV4(val: Bytes, e: Endpoint, cookie: Bytes, txID: Bytes)
    requires |cookie| == 4 && |txID| == 12 && e.ip.V4?
    ensures DecodeXor(val, cookie, txID) == Found(e) <==> EncodeXor(e, cookie, txID) <= val
  {
    if |val| >= 8 {
      PrefixOfEight(EncodeXor(e, cookie, txID), val);
      PortIff(val[2], val[3], e.port);
      UnmaskV4Iff(val[4], val[5], val[6], val[7], e.ip);
    }
  }

  lemma UnmaskV4Iff(a: Byte, b: Byte, c: Byte, d: Byte, ip: IP)
    requires ip.V4?
    ensures UnmaskV4(a, b, c, d) == ip <==>
      a == XorByte(ip.a, 0x21) && b == XorByte(ip.b, 0x12) && c == XorByte(ip.c, 0xA4) && d == XorByte(ip.d, 0x42)
  {
    XorByteIff(a, 0x21, ip.a);
    XorByteIff(b, 0x12, ip.b);
    XorByteIff(c, 0xA4, ip.c);
    XorByteIff(d, 0x42, ip.d);
  }

  lemma PrefixOfEight(b: Bytes, val: Bytes)
    requires |b| == 8 <= |val|
    ensures b <= val <==>
      && b[0] == val[0] && b[1] == val[1] && b[2] == val[2] && b[3] == val[3]
      && b[4] == val[4] && b[5] == val[5] && b[6] == val[6] && b[7] == val[7]
  {
  }

  lemma DecodeXorIffV6(val: Bytes, e: Endpoint, cookie: Bytes, txID: Bytes)
    requires |cookie| == 4 && |txID| == 12 && e.ip.V6? && e.Valid()
    ensures DecodeXor(val, cookie, txID) == Found(e) <==> EncodeXor(e, cookie, txID) <= val
  {
    if |val| >= 20 {
      PortIff(val[2], val[3], e.port);
      XorAllIff(val[4..20], cookie + txID, e.ip.bytes);
      PrefixOfTwo(EncodeXor(e, cookie, txID)[..4], XorAll(e.ip.bytes, cookie + txID), val);
    }
  }

  lemma PrefixOfTwo(a: Bytes, b: Bytes, val: Bytes)
    requires |a| + |b| <= |val|
    ensures a + b <= val <==> a == val[..|a|] && b == val[|a|..|a| + |b|]
  {
    assert val[..|a| + |b|] == val[..|a|] + val[|a|..|a| + |b|];
    if a + b <= val {
      assert (a + b)[..|a|] == a && (a + b)[|a|..] == b;
    }
  }

  /** The XOR-MAPPED-ADDRESS decoder accepts exactly the values that start with an encoding, and
      returns the endpoint encoded. */
  lemma DecodeXorIff(val: Bytes, e: Endpoint, cookie: Bytes, txID: Bytes)
    requires |cookie| == 4 && |txID| == 12
    ensures DecodeXor(val, cookie, txID) == Found(e) <==> e.Valid() && EncodeXor(e, cookie, txID) <= val
  {
    if e.Valid() {
      if e.ip.V4? {
        DecodeXorIffV4(val, e, cookie, txID);
      } else {
        DecodeXorIffV6(val, e, cookie, txID);
      }
    }
  }

  /** The legacy decoder accepts exactly the values that start with an IPv4 encoding. */
  lemma DecodeMappedIff(val: Bytes, e: Endpoint)
    ensures DecodeMapped(val) == Found(e) <==> e.ip.V4? && EncodeMapped(e) <= val
  {
    if |val| >= 8 && e.ip.V4? {
      PrefixOfEight(EncodeMapped(e), val);
      PairIff(val[2], val[3], e.port);
    }
  }

  // ---------------------------------------------------------------- the attribute walk

  /** The length of a value with its padding to a multiple of four. */
  function Padded(n: nat): (p: nat)
    ensures n <= p < n + 4 && p % 4 == 0
  {
    (n + 3) / 4 * 4
  }

  function LengthAt(b: Bytes, i: nat): Word16
    requires i + 4 <= |b|
  {
    Pair(b[i + 2], b[i + 3])
  }

  datatype Attribute = Attribute(kind: Word16, value: Bytes) {
    predicate IsAddress() {
      kind == 0x0020 || kind == 0x0001
    }

    function Size(): nat {
      4 + Padded(|value|)
    }

    /** The attribute stands at a position; its padding may hold any bytes. */
    predicate At(data: Bytes, pos: nat) {
      FitsAt(data, pos) && AttributeAt(data, pos) == this
    }
  }

  function Head(kind: Word16, n: Word16): Bytes {
    [High(kind), Low(kind), High(n), Low(n)]
  }

  predicate SpanIs(data: Bytes, pos: nat, b: Bytes) {
    pos + |b| <= |data| && forall i :: 0 <= i < |b| ==> data[pos + i] == b[i]
  }

  lemma HeadIff(data: Bytes, pos: nat, kind: Word16, n: Word16)
    ensures SpanIs(data, pos, Head(kind, n)) <==>
      pos + 4 <= |data| && Pair(data[pos], data[pos + 1]) == kind && LengthAt(data, pos) == n
  {
    var h := Head(kind, n);
    if pos + 4 <= |data| {
      PairIff(data[pos], data[pos + 1], kind);
      PairIff(data[pos + 2], data[pos + 3], n);
      if SpanIs(data, pos, h) {
        assert data[pos + 0] == h[0] && data[pos + 1] == h[1] && data[pos + 2] == h[2] && data[pos + 3] == h[3];
      }
    }
  }

  predicate FitsAt(data: Bytes, pos: nat) {
    pos + 4 <= |data| && pos + 4 + LengthAt(data, pos) <= |data|
  }

  function AttributeAt(data: Bytes, pos: nat): Attribute
    requires FitsAt(data, pos)
  {
    Attribute(Pair(data[pos], data[pos + 1]), data[pos + 4..pos + 4 + LengthAt(data, pos)])
  }

  /** An attribute stands where its encoded header is followed by its value. */
  lemma AtIff(data: Bytes, pos: nat, a: Attribute)
    ensures a.At(data, pos) <==>
      |a.value| < 0x1_0000 && SpanIs(data, pos, Head(a.kind, |a.value|)) && SpanIs(data, pos + 4, a.value)
  {
    if |a.value| < 0x1_0000 {
      HeadIff(data, pos, a.kind, |a.value|);
    }
  }

  /** The first address attribute the walk reaches from a position. */
  function Walk(data: Bytes, pos: nat): Option<Attribute>
    decreases |data| - pos
  {
    if !FitsAt(data, pos) then None
    else
      var a := AttributeAt(data, pos);
      if a.IsAddress() then Some(a) else Walk(data, pos + a.Size())
  }

  datatype Attributes = End | Then(first: Attribute, rest: Attributes)

  /** Padded attributes of other kinds, and then an attribute. */
  predicate LaidOut(data: Bytes, pos: nat, skipped: Attributes, a: Attribute)
    decreases skipped
  {
    match skipped
    case End => a.At(data, pos)
    case Then(b, rest) => !b.IsAddress() && b.At(data, pos) && LaidOut(data, pos + b.Size(), rest, a)
  }

  ghost predicate Reaches(data: Bytes, pos: nat, a: Attribute) {
    exists skipped :: LaidOut(data, pos, skipped, a)
  }

  /** The walk ends at an address attribute exactly when only padded attributes of other kinds stand
      before it, whatever follows. */
  lemma WalkIff(data: Bytes, pos: nat, a: Attribute)
    ensures Walk(data, pos) == Some(a) <==> a.IsAddress() && Reaches(data, pos, a)
  {
    if Walk(data, pos) == Some(a) {
      WalkReaches(data, pos, a);
    }
    if a.IsAddress() && Reaches(data, pos, a) {
      ReachedIsFound(data, pos, a);
    }
  }

  lemma WalkReaches(data: Bytes, pos: nat, a: Attribute)
    requires Walk(data, pos) == Some(a)
    ensures a.IsAddress() && Reaches(data, pos, a)
  {
    var skipped := WalkSkipped(data, pos, a);
  }

  lemma ReachedIsFound(data: Bytes, pos: nat, a: Attribute)
    requires a.IsAddress() && Reaches(data, pos, a)
    ensures Walk(data, pos) == Some(a)
  {
    var skipped :| LaidOut(data, pos, skipped, a);
    WalkFinds(data, pos, skipped, a);
  }

  lemma WalkSkips(data: Bytes, pos: nat)
    requires FitsAt(data, pos) && !AttributeAt(data, pos).IsAddress()
    ensures Walk(data, pos) == Walk(data, pos + AttributeAt(data, pos).Size())
  {
  }

  lemma {:induction false} WalkFinds(data: Bytes, pos: nat, skipped: Attributes, a: Attribute)
    requires LaidOut(data, pos, skipped, a) && a.IsAddress()
    ensures Walk(data, pos) == Some(a)
    decreases skipped
  {
    match skipped
    case End =>
    case Then(b, rest) =>
      WalkFinds(data, pos + b.Size(), rest, a);
      WalkSkips(data, pos);
  }

  lemma {:induction false} WalkSkipped(data: Bytes, pos: nat, a: Attribute) returns (skipped: Attributes)
    requires Walk(data, pos) == Some(a)
    ensures a.IsAddress() && LaidOut(data, pos, skipped, a)
    decreases |data| - pos
  {
    var b := AttributeAt(data, pos);
    if b.IsAddress() {
      skipped := End;
    } else {
      WalkSkips(data, pos);
      var rest := WalkSkipped(data, pos + b.Size(), a);
      skipped := Then(b, rest);
    }
  }

  // ---------------------------------------------------------------- whole responses

  function Decode(a: Attribute, cookie: Bytes, txID: Bytes): Result
    requires |cookie| == 4 && |txID| == 12
  {
    if a.kind == 0x0020 then DecodeXor(a.value, cookie, txID) else DecodeMapped(a.value)
  }

  /** The message is long enough, a success response, and answers this transaction. */
  predicate Answers(data: Bytes, txID: Bytes) {
    |data| >= 20 && data[0] == 1 && data[1] == 1 && data[8..20] == txID
  }

  datatype HeaderCheck = Fine | Bad(error: Error)

  function CheckHeader(data: Bytes, txID: Bytes): (c: HeaderCheck)
    ensures c.Fine? <==> Answers(data, txID)
  {
    if |data| < 20 then Bad(TooShort)
    else if Pair(data[0], data[1]) != 0x0101 then Bad(WrongType(Pair(data[0], data[1])))
    else if data[8..20] != txID then Bad(WrongTransaction)
    else Fine
  }

  function Parsed(data: Bytes, txID: Bytes): Result
    requires |txID| == 12
  {
    match CheckHeader(data, txID)
    case Bad(error) => Failed(error)
    case Fine => DecodeFirst(Walk(data, 20), data[4..8], txID)
  }

  function DecodeFirst(found: Option<Attribute>, cookie: Bytes, txID: Bytes): Result
    requires |cookie| == 4 && |txID| == 12
  {
    match found
    case None => Failed(NoAddress)
    case Some(a) => Decode(a, cookie, txID)
  }

  /** An attribute holds an endpoint: its value starts with the endpoint's encoding. */
  predicate Holds(a: Attribute, e: Endpoint, cookie: Bytes, txID: Bytes)
    requires |cookie| == 4 && |txID| == 12
  {
    || (a.kind == 0x0020 && e.Valid() && EncodeXor(e, cookie, txID) <= a.value)
    || (a.kind == 0x0001 && e.ip.V4? && EncodeMapped(e) <= a.value)
  }

  lemma HoldsIff(a: Attribute, e: Endpoint, cookie: Bytes, txID: Bytes)
    requires |cookie| == 4 && |txID| == 12 && a.IsAddress()
    ensures Decode(a, cookie, txID) == Found(e) <==> Holds(a, e, cookie, txID)
  {
    DecodeXorIff(a.value, e, cookie, txID);
    DecodeMappedIff(a.value, e);
  }

  ghost predicate Carries(data: Bytes, e: Endpoint, cookie: Bytes, txID: Bytes)
    requires |cookie| == 4 && |txID| == 12
  {
    exists a :: Reaches(data, 20, a) && Holds(a, e, cookie, txID)
  }

  lemma CarriesIff(data: Bytes, e: Endpoint, cookie: Bytes, txID: Bytes)
    requires |cookie| == 4 && |txID| == 12
    ensures Carries(data, e, cookie, txID) <==> Walk(data, 20).Some? && Holds(Walk(data, 20).value, e, cookie, txID)
  {
    if Walk(data, 20).Some? {
      WalkIff(data, 20, Walk(data, 20).value);
    }
    forall a | Reaches(data, 20, a) && Holds(a, e, cookie, txID) ensures Walk(data, 20) == Some(a) {
      WalkIff(data, 20, a);
    }
  }

  /** Over all byte strings, the parser returns an endpoint exactly when the message is a success
      response to the transaction whose first address attribute, after any number of padded attributes
      of other kinds, starts with the encoding of that endpoint. */
  lemma ParsedIff(data: Bytes, txID: Bytes, e: Endpoint)
    requires |txID| == 12
    ensures Parsed(data, txID) == Found(e) <==> Answers(data, txID) && Carries(data, e, data[4..8], txID)
  {
    if Answers(data, txID) {
      CarriesIff(data, e, data[4..8], txID);
      var w := Walk(data, 20);
      if w.Some? {
        WalkIff(data, 20, w.value);
        HoldsIff(w.value, e, data[4..8], txID);
      }
    }
  }

  // ---------------------------------------------------------------- encoding a response

  function Zeros(n: nat): Bytes {
    seq(n, i => 0)
  }

  function EncodeOne(a: Attribute): (b: Bytes)
    requires |a.value| < 0x1_0000
    ensures |b| == a.Size()
  {
    Head(a.kind, |a.value|) + a.value + Zeros(Padded(|a.value|) - |a.value|)
  }

  predicate Encodable(skipped: Attributes) {
    match skipped
    case End => true
    case Then(b, rest) => |b.value| < 0x1_0000 && !b.IsAddress() && Encodable(rest)
  }

  function EncodeAll(skipped: Attributes, a: Attribute): Bytes
    requires Encodable(skipped) && |a.value| < 0x1_0000
  {
    match skipped
    case End => EncodeOne(a)
    case Then(b, rest) => EncodeOne(b) + EncodeAll(rest, a)
  }

  lemma SpanSplit(data: Bytes, pos: nat, x: Bytes, y: Bytes)
    requires SpanIs(data, pos, x + y)
    ensures SpanIs(data, pos, x) && SpanIs(data, pos + |x|, y)
  {
    forall i | 0 <= i < |x| ensures data[pos + i] == x[i] {
      assert (x + y)[i] == x[i];
    }
    forall i | 0 <= i < |y| ensures data[pos + |x| + i] == y[i] {
      assert (x + y)[|x| + i] == y[i];
    }
  }

  lemma EncodedAt(data: Bytes, pos: nat, a: Attribute)
    requires |a.value| < 0x1_0000 && SpanIs(data, pos, EncodeOne(a))
    ensures a.At(data, pos)
  {
    var head := Head(a.kind, |a.value|);
    SpanSplit(data, pos, head + a.value, Zeros(Padded(|a.value|) - |a.value|));
    SpanSplit(data, pos, head, a.value);
    AtIff(data, pos, a);
  }

  lemma {:induction false} EncodedIsLaidOut(data: Bytes, pos: nat, skipped: Attributes, a: Attribute)
    requires Encodable(skipped) && |a.value| < 0x1_0000 && SpanIs(data, pos, EncodeAll(skipped, a))
    ensures LaidOut(data, pos, skipped, a)
    decreases skipped
  {
    match skipped
    case End => EncodedAt(data, pos, a);
    case Then(b, rest) =>
      SpanSplit(data, pos, EncodeOne(b), EncodeAll(rest, a));
      EncodedAt(data, pos, b);
      EncodedIsLaidOut(data, pos + b.Size(), rest, a);
  }

  function EncodeHeader(length: Word16, cookie: Bytes, txID: Bytes): Bytes {
    [1, 1, High(length), Low(length)] + cookie + txID
  }

  /** Parsing inverts encoding: any attributes of other kinds, then the endpoint, then anything. */
  lemma ParseInvertsEncode(length: Word16, cookie: Bytes, txID: Bytes, skipped: Attributes, e: Endpoint, after: Bytes)
    requires |cookie| == 4 && |txID| == 12 && e.Valid()
    requires Encodable(skipped)
    ensures
      var a := Attribute(0x0020, EncodeXor(e, cookie, txID));
      Parsed(EncodeHeader(length, cookie, txID) + EncodeAll(skipped, a) + after, txID) == Found(e)
  {
    var a := Attribute(0x0020, EncodeXor(e, cookie, txID));
    var body := EncodeAll(skipped, a);
    var data := EncodeHeader(length, cookie, txID) + body + after;
    HeaderParts(length, cookie, txID, body, after);
    EncodedIsLaidOut(data, 20, skipped, a);
    assert Reaches(data, 20, a);
    ParsedIff(data, txID, e);
  }

  lemma HeaderParts(length: Word16, cookie: Bytes, txID: Bytes, body: Bytes, after: Bytes)
    requires |cookie| == 4 && |txID| == 12
    ensures var data := EncodeHeader(length, cookie, txID) + body + after;
      && |data| >= 20 && data[0] == 1 && data[1] == 1 && data[4..8] == cookie && data[8..20] == txID
      && SpanIs(data, 20, body)
  {
    var header := EncodeHeader(length, cookie, txID);
    var data := header + body + after;
    assert data[4..8] == header[4..8] == cookie;
    assert data[8..20] == header[8..20] == txID;
  }

  // ---------------------------------------------------------------- the parser

  method ParseXORMappedAddr(val: Bytes, cookie: Bytes, txID: Bytes) returns (r: Result)
    requires |cookie| == 4 && |txID| == 12
    ensures r == DecodeXor(val, cookie, txID)
  {
    if |val| < 8 {
      return Failed(ShortAddress);
    }
    var family := Pair(val[0], val[1]);
    var port := UnmaskPort(val[2], val[3]);
    if family == 1 {
      return Found(Endpoint(UnmaskV4(val[4], val[5], val[6], val[7]), port));
    } else if family == 2 {
      if |val| < 20 {
        return Failed(ShortAddress);
      }
      var xorKey := cookie + txID;
      var ip := new Byte[16];
      for i := 0 to 16
        invariant forall k :: 0 <= k < i ==> ip[k] == XorByte(val[4 + k], xorKey[k])
      {
        ip[i] := XorByte(val[4 + i], xorKey[i]);
      }
      assert ip[..] == XorAll(val[4..20], xorKey);
      return Found(Endpoint(V6(ip[..]), port));
    }
    return Failed(UnknownFamily(family));
  }

  /** Walks any bytes to an end within bounds, comparing the transaction ID byte by byte. */
  method ParseSTUNResponse(data: Bytes, txID: Bytes) returns (r: Result)
    requires |txID| == 12
    ensures r == Parsed(data, txID)
  {
    if |data| < 20 {
      return Failed(TooShort);
    }
    var msgType := Pair(data[0], data[1]);
    if msgType != 0x0101 {
      return Failed(WrongType(msgType));
    }
    ghost var id := data[8..20];
    for i := 0 to |txID|
      invariant forall k :: 0 <= k < i ==> id[k] == txID[k]
    {
      assert id[i] == data[8 + i];
      if data[8 + i] != txID[i] {
        return Failed(WrongTransaction);
      }
    }
    assert id == txID;
    var found := WalkAttributes(data);
    if found.None? {
      return Failed(NoAddress);
    }
    if found.value.kind == 0x0020 {
      r := ParseXORMappedAddr(found.value.value, data[4..8], txID);
    } else {
      r := DecodeMapped(found.value.value);
    }
  }

  /** The attribute loop, up to the address attribute it stops at. */
  method WalkAttributes(data: Bytes) returns (found: Option<Attribute>)
    requires |data| >= 20
    ensures found == Walk(data, 20)
  {
    var pos := 20;
    while pos + 4 <= |data|
      invariant Walk(data, pos) == Walk(data, 20)
      decreases |data| - pos
    {
      var attrType := Pair(data[pos], data[pos + 1]);
      var attrLen := LengthAt(data, pos);
      if pos + 4 + attrLen > |data| {
        break;
      }
      if attrType == 0x0020 || attrType == 0x0001 {
        return Some(AttributeAt(data, pos));
      }
      WalkSkips(data, pos);
      pos := pos + 4 + Padded(attrLen);
    }
    assert !FitsAt(data, pos);
    return None;
  }
}
