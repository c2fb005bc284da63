/**
 The over-the-air packet: parsing, serialising, the dedup hash, and the bit fields of the header and
 of the path length byte.
 */
module Packet {

  import opened Bytes
  import Sha256

  const MAX_PAYLOAD: nat := 184
  const MAX_PATH: nat := 64
  const MAX_UNIT: nat := 255
  const HASH_SIZE: nat := 8

  const TRANSPORT_FLOOD: nat := 0
  const FLOOD: nat := 1
  const TRANSPORT_DIRECT: nat := 3

  const REQ: nat := 0
  const RESPONSE: nat := 1
  const TXT_MSG: nat := 2
  const ADVERT: nat := 4
  const GRP_TXT: nat := 5
  const GRP_DATA: nat := 6
  const ANON_REQ: nat := 7
  const PATH: nat := 8
  const TRACE: nat := 9

  type u16 = x: int | 0 <= x < 0x1_0000

  /** The packet in memory. `path` is the whole 64-byte buffer, `payload` the bytes in use. */
  datatype Fields = Packet(header: byte, code0: u16, code1: u16, pathLen: byte, path: seq<byte>, payload: seq<byte>)

  function Zeros(n: nat): (z: seq<byte>)
    ensures |z| == n
  {
    seq(n, _ => 0)
  }

  type packet = p: Fields | |p.path| == 64 witness Packet(0, 0, 0, 0, Zeros(64), [])

  // ---------------------------------------------------------------- bit fields

  function RouteType(p: packet): nat { p.header % 4 }

  function PayloadType(p: packet): nat { p.header / 4 % 16 }

  function MakeHeader(ver: nat, kind: nat, route: nat): byte {
    route % 4 + kind % 16 * 4 + ver % 4 * 64
  }

  predicate IsFlood(p: packet) { RouteType(p) < 2 }

  predicate HasCodes(p: packet) { RouteType(p) == TRANSPORT_FLOOD || RouteType(p) == TRANSPORT_DIRECT }

  predicate MarkedDnr(p: packet) { p.header == 0xFF }

  function HashCount(pathLen: byte): (n: nat)
    ensures n < 64
  {
    pathLen % 64
  }

  function HashSize(pathLen: byte): (hs: nat)
    ensures 1 <= hs <= 4
  {
    pathLen / 64 + 1
  }

  function ByteLen(pathLen: byte): nat {
    HashCount(pathLen) * HashSize(pathLen)
  }

  /** The count field holds six bits: 64 becomes 0. */
  function WithCount(pathLen: byte, n: nat): byte {
    pathLen / 64 * 64 + n % 64
  }

  function MakePathLen(hs: nat, n: nat): byte {
    (hs + 3) % 4 * 64 + n % 64
  }

  predicate ValidPathLen(pathLen: byte) {
    HashSize(pathLen) != 4 && ByteLen(pathLen) <= MAX_PATH
  }

  lemma FieldsOf(header: int, ver: nat, kind: nat, route: nat)
    requires header == route + kind * 4 + ver * 64 && ver < 4 && kind < 16 && route < 4
    ensures header % 4 == route && header / 4 == kind + 16 * ver
    ensures header / 4 % 16 == kind && header / 64 == ver
  {
  }

  lemma HeaderFields(p: packet, ver: nat, kind: nat, route: nat)
    requires p.header == MakeHeader(ver, kind, route) && ver < 4 && kind < 16 && route < 4
    ensures RouteType(p) == route && PayloadType(p) == kind && p.header / 64 == ver
  {
    FieldsOf(p.header, ver, kind, route);
  }

  lemma PathLenFields(hs: nat, n: nat)
    requires 1 <= hs <= 4 && n < 64
    ensures HashCount(MakePathLen(hs, n)) == n && HashSize(MakePathLen(hs, n)) == hs
  {
    assert (hs + 3) % 4 == hs - 1;
  }

  /** Setting the count keeps the hash size. */
  lemma CountSet(pathLen: byte, n: nat)
    requires n < 64
    ensures HashCount(WithCount(pathLen, n)) == n && HashSize(WithCount(pathLen, n)) == HashSize(pathLen)
  {
  }

  // ---------------------------------------------------------------- the wire format

  function Word16(low: byte, high: byte): u16 {
    var l: int, h: int := low, high;
    l + 256 * h
  }

  function Le16(x: u16): (b: seq<byte>)
    ensures |b| == 2 && Word16(b[0], b[1]) == x
  {
    [x % 256, x / 256]
  }

  function Le32(x: nat): (b: seq<byte>)
    requires x < 0x1_0000_0000
    ensures |b| == 4
  {
    [x % 256, x / 256 % 256, x / 65536 % 256, x / 16777216]
  }

  function Word32(b: seq<byte>): nat
    requires |b| == 4
  {
    var b0: int, b1: int, b2: int, b3: int := b[0], b[1], b[2], b[3];
    b0 + 256 * b1 + 65536 * b2 + 16777216 * b3
  }

  lemma Word32Le32(x: nat)
    requires x < 0x1_0000_0000
    ensures Word32(Le32(x)) == x
  {
    assert x / 65536 == x / 256 / 256 && x / 16777216 == x / 65536 / 256;
  }

  lemma Le32Word32(b: seq<byte>)
    requires |b| == 4
    ensures Word32(b) < 0x1_0000_0000 && Le32(Word32(b)) == b
  {
    var b1: int, b2: int, b3: int := b[1], b[2], b[3];
    var x, y, z := Word32(b), b1 + 256 * b2 + 65536 * b3, b2 + 256 * b3;
    LowByte(x, b[0], y);
    LowByte(y, b[1], z);
    LowByte(z, b[2], b3);
    assert x / 65536 == x / 256 / 256 && x / 16777216 == x / 65536 / 256;
  }

  lemma LowByte(x: nat, b: byte, rest: nat)
    requires x == b as int + 256 * rest
    ensures x % 256 == b as int && x / 256 == rest
  {
  }

  function Codes(p: packet): (b: seq<byte>) {
    if HasCodes(p) then Le16(p.code0) + Le16(p.code1) else []
  }

  /** A packet every field of which fits the wire. */
  predicate WellFormed(p: packet) {
    ValidPathLen(p.pathLen) && |p.payload| <= MAX_PAYLOAD
  }

  /** The bytes sent for a packet. */
  function Wire(p: packet): (w: seq<byte>)
    requires ValidPathLen(p.pathLen)
  {
    [p.header] + Codes(p) + [p.pathLen] + p.path[..ByteLen(p.pathLen)] + p.payload
  }

  function RawLength(p: packet): nat {
    2 + ByteLen(p.pathLen) + |p.payload| + if HasCodes(p) then 4 else 0
  }

  lemma WireLength(p: packet)
    requires WellFormed(p)
    ensures |Wire(p)| == RawLength(p) <= 254
  {
  }

  /** What the wire does not carry is zero: absent codes, the path buffer after the path. */
  predicate Canonical(p: packet) {
    && (HasCodes(p) || (p.code0 == 0 && p.code1 == 0))
    && ByteLen(p.pathLen) <= 64
    && p.path == p.path[..ByteLen(p.pathLen)] + Zeros(64 - ByteLen(p.pathLen))
  }

  datatype Outcome = Ok(packet: packet) | Err(code: int)

  /** Parsing what follows the transport codes; `i` is the index of the path length byte. */
  function ParsedFrom(src: seq<byte>, i: nat, code0: u16, code1: u16): Outcome
    requires 1 <= i && |src| > 0
  {
    if i >= |src| then Err(-3)
    else if !ValidPathLen(src[i]) then Err(-4)
    else
      var end := i + 1 + ByteLen(src[i]);
      if end > |src| then Err(-5)
      else if |src| - end > MAX_PAYLOAD then Err(-6)
      else Ok(Packet(src[0], code0, code1, src[i], src[i + 1..end] + Zeros(64 - ByteLen(src[i])), src[end..]))
  }

  predicate HeaderHasCodes(header: byte) { header % 4 == TRANSPORT_FLOOD || header % 4 == TRANSPORT_DIRECT }

  function Parsed(src: seq<byte>): Outcome {
    if |src| < 2 || |src| > MAX_UNIT then Err(-1)
    else if !HeaderHasCodes(src[0]) then ParsedFrom(src, 1, 0, 0)
    else if |src| < 5 then Err(-2)
    else ParsedFrom(src, 5, Word16(src[1], src[2]), Word16(src[3], src[4]))
  }

  /** Whatever parses is the wire form of the packet it parses to. */
  lemma ParsedIsWire(src: seq<byte>)
    requires Parsed(src).Ok?
    ensures var p := Parsed(src).packet; WellFormed(p) && Canonical(p) && Wire(p) == src
  {
    var p := Parsed(src).packet;
    var n := ByteLen(p.pathLen);
    if HasCodes(p) {
      assert Codes(p) == src[1..5];
      assert src == [src[0]] + src[1..5] + [src[5]] + src[6..6 + n] + src[6 + n..];
    } else {
      assert src == [src[0]] + [] + [src[1]] + src[2..2 + n] + src[2 + n..];
    }
    assert p.path[..n] == p.path[..n] && |p.path[..n]| == n;
  }

  /** Every well-formed packet parses back from its wire form. */
  lemma WireParses(p: packet)
    requires WellFormed(p) && Canonical(p)
    ensures Parsed(Wire(p)) == Ok(p)
  {
    WireLength(p);
    var w := Wire(p);
    var n := ByteLen(p.pathLen);
    var i := if HasCodes(p) then 5 else 1;
    assert w[0] == p.header && w[i] == p.pathLen;
    assert w[i + 1..i + 1 + n] == p.path[..n] && w[i + 1 + n..] == p.payload;
    if HasCodes(p) {
      assert w[1..5] == Codes(p);
      assert w[1] == w[1..5][0] && w[2] == w[1..5][1] && w[3] == w[1..5][2] && w[4] == w[1..5][3];
    }
  }

  /** The packet a receiver gets: `p` without what the wire does not carry. */
  function Canon(p: packet): packet
    requires ValidPathLen(p.pathLen)
  {
    Packet(p.header, if HasCodes(p) then p.code0 else 0, if HasCodes(p) then p.code1 else 0, p.pathLen,
           p.path[..ByteLen(p.pathLen)] + Zeros(64 - ByteLen(p.pathLen)), p.payload)
  }

  /** What is sent arrives. */
  lemma WireArrives(p: packet)
    requires WellFormed(p)
    ensures WellFormed(Canon(p)) && Canonical(Canon(p)) && Wire(Canon(p)) == Wire(p)
    ensures Parsed(Wire(p)) == Ok(Canon(p))
  {
    var q := Canon(p);
    var n := ByteLen(p.pathLen);
    assert q.path[..n] == p.path[..n];
    WireParses(q);
  }

  /** A frame parses to `p` exactly when it is the wire form of `p` and `p` fits the wire. */
  lemma ParsesIff(src: seq<byte>, p: packet)
    ensures Parsed(src) == Ok(p) <==> (WellFormed(p) && Canonical(p) && src == Wire(p))
  {
    if Parsed(src) == Ok(p) {
      ParsedIsWire(src);
    } else if WellFormed(p) && Canonical(p) {
      WireParses(p);
    }
  }

  // ---------------------------------------------------------------- the program

  method ReadPath(src: seq<byte>, i: nat, n: nat) returns (path: seq<byte>)
    requires i + n <= |src| && n <= 64
    ensures path == src[i..i + n] + Zeros(64 - n)
  {
    var a := new byte[64](_ => 0);
    for k := 0 to n
      invariant a[..k] == src[i..i + k] && a[k..] == Zeros(64 - k)
    {
      a[k] := src[i + k];
      assert a[..k + 1] == a[..k] + [a[k]] && a[k + 1..] == Zeros(64 - k)[1..];
    }
    assert a[..] == a[..n] + a[n..];
    return a[..];
  }

  method Parse(src: seq<byte>) returns (r: Outcome)
    ensures r == Parsed(src)
  {
    var len := |src|;
    if len < 2 || len > MAX_UNIT {
      return Err(-1);
    }
    var i := 0;
    var header := src[i];
    i := i + 1;
    var code0, code1: u16 := 0, 0;
    if HeaderHasCodes(header) {
      if i + 4 > len {
        return Err(-2);
      }
      code0 := Word16(src[i], src[i + 1]);
      i := i + 2;
      code1 := Word16(src[i], src[i + 1]);
      i := i + 2;
    }
    assert Parsed(src) == ParsedFrom(src, i, code0, code1);
    if i >= len {
      return Err(-3);
    }
    var pathLen := src[i];
    if !ValidPathLen(pathLen) {
      return Err(-4);
    }
    i := i + 1;
    var n := ByteLen(pathLen);
    if i + n > len {
      return Err(-5);
    }
    var path := ReadPath(src, i, n);
    i := i + n;
    if len - i > MAX_PAYLOAD {
      return Err(-6);
    }
    return Ok(Packet(header, code0, code1, pathLen, path, src[i..]));
  }

  /** `x` with the bytes from `at` on replaced by `b`. */
  function Splice(x: seq<byte>, at: nat, b: seq<byte>): (r: seq<byte>)
    requires at + |b| <= |x|
    ensures |r| == |x|
  {
    x[..at] + b + x[at + |b|..]
  }

  lemma SpliceNext(x: seq<byte>, at: nat, a: seq<byte>, b: seq<byte>)
    requires at + |a| + |b| <= |x|
    ensures Splice(Splice(x, at, a), at + |a|, b) == Splice(x, at, a + b)
  {
    var y := Splice(x, at, a);
    assert y[..at + |a|] == x[..at] + a;
    assert y[at + |a| + |b|..] == x[at + |a| + |b|..];
  }

  /** Copies `s` into `dest` at `i`. */
  method CopyInto(dest: array<byte>, i: nat, s: seq<byte>)
    requires i + |s| <= dest.Length
    modifies dest
    ensures dest[..] == Splice(old(dest[..]), i, s)
  {
    ghost var x := dest[..];
    for k := 0 to |s|
      invariant forall j :: 0 <= j < dest.Length ==> dest[j] == if i <= j < i + k then s[j - i] else x[j]
    {
      dest[i + k] := s[k];
    }
    assert dest[..] == Splice(x, i, s);
  }

  /** Writes `s` behind `w`, what was written before from the start. */
  method Put(dest: array<byte>, i: nat, s: seq<byte>, ghost x: seq<byte>, ghost w: seq<byte>) returns (next: nat)
    requires i == |w| && i + |s| <= dest.Length == |x| && dest[..] == Splice(x, 0, w)
    modifies dest
    ensures next == |w + s| && dest[..] == Splice(x, 0, w + s)
  {
    CopyInto(dest, i, s);
    SpliceNext(x, 0, w, s);
    return i + |s|;
  }

  /** The fields of a packet one after the other; `path` is the part of the buffer in use. */
  method WriteFields(p: packet, path: seq<byte>, dest: array<byte>) returns (i: nat)
    requires |[p.header] + Codes(p) + [p.pathLen] + path + p.payload| <= dest.Length
    modifies dest
    ensures i == |[p.header] + Codes(p) + [p.pathLen] + path + p.payload|
    ensures dest[..] == Splice(old(dest[..]), 0, [p.header] + Codes(p) + [p.pathLen] + path + p.payload)
  {
    ghost var x := dest[..];
    i := Put(dest, 0, [p.header], x, []);
    ghost var w := [p.header];
    if HasCodes(p) {
      i := Put(dest, i, Le16(p.code0), x, w);
      i := Put(dest, i, Le16(p.code1), x, w + Le16(p.code0));
    }
    w := w + Codes(p);
    i := Put(dest, i, [p.pathLen], x, w);
    i := Put(dest, i, path, x, w + [p.pathLen]);
    i := Put(dest, i, p.payload, x, w + [p.pathLen] + path);
  }

  method Serialise(p: packet, dest: array<byte>) returns (n: int)
    modifies dest
    ensures n == if RawLength(p) > dest.Length || RawLength(p) > MAX_UNIT then -1
                 else if |p.payload| > MAX_PAYLOAD then -2
                 else if !ValidPathLen(p.pathLen) then -3
                 else RawLength(p)
    ensures n >= 0 ==> n == |Wire(p)| <= dest.Length && dest[..] == Splice(old(dest[..]), 0, Wire(p))
    ensures n < 0 ==> dest[..] == old(dest[..])
  {
    var raw := RawLength(p);
    if raw > dest.Length || raw > MAX_UNIT {
      return -1;
    }
    if |p.payload| > MAX_PAYLOAD {
      return -2;
    }
    if !ValidPathLen(p.pathLen) {
      return -3;
    }
    WireLength(p);
    n := WriteFields(p, p.path[..ByteLen(p.pathLen)], dest);
  }

  // ---------------------------------------------------------------- the dedup hash

  /** The bytes the dedup hash is taken over; a trace also counts its path length. */
  function HashInput(p: packet): seq<byte> {
    [PayloadType(p)] + (if PayloadType(p) == TRACE then Le16(p.pathLen) else []) + p.payload
  }

  function DedupHash(p: packet): (h: seq<byte>)
    ensures |h| == HASH_SIZE
  {
    Sha256.Digest(HashInput(p))[..8]
  }

  method DigestOf(p: packet, digest: array<byte>)
    requires |p.payload| < 0x1_0000_0000 && digest.Length == 32
    modifies digest
    ensures digest[..] == Sha256.Digest(HashInput(p))
  {
    var ctx := new Sha256.Context();
    ghost var kind := [PayloadType(p)];
    ctx.Update([PayloadType(p)]);
    ghost var pathLen := if PayloadType(p) == TRACE then Le16(p.pathLen) else [];
    if PayloadType(p) == TRACE {
      ctx.Update(Le16(p.pathLen));
    }
    assert ctx.msg == kind + pathLen;
    ctx.Update(p.payload);
    assert ctx.msg == HashInput(p);
    ctx.Final(digest);
    assert digest[..] == digest[..32];
  }

  method CalcHash(p: packet, out: array<byte>)
    requires |p.payload| < 0x1_0000_0000 && out.Length == HASH_SIZE
    modifies out
    ensures out[..] == DedupHash(p)
  {
    var digest := new byte[32];
    DigestOf(p, digest);
    CopyInto(out, 0, digest[..8]);
    assert out[..] == digest[..][..8];
  }

  /** What is hashed fixes type and payload, for a trace the path length too, and nothing else. */
  lemma HashInputIff(p: packet, q: packet)
    ensures HashInput(p) == HashInput(q)
       <==> (PayloadType(p) == PayloadType(q) && p.payload == q.payload
             && (PayloadType(p) == TRACE ==> p.pathLen == q.pathLen))
  {
    var a, b := HashInput(p), HashInput(q);
    if a == b {
      assert a[0] == PayloadType(p) && b[0] == PayloadType(q);
      var n := if PayloadType(p) == TRACE then 3 else 1;
      assert a[n..] == p.payload && b[n..] == q.payload;
      assert PayloadType(p) == TRACE ==> a[1..3] == Le16(p.pathLen) && b[1..3] == Le16(q.pathLen);
    }
  }

  /** Rewriting the path leaves the hash of everything but a trace alone. */
  lemma HashIgnoresPath(p: packet, q: packet)
    requires p.header == q.header && p.payload == q.payload && PayloadType(p) != TRACE
    ensures DedupHash(p) == DedupHash(q)
  {
  }
}
