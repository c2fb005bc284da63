/**
 HMAC-SHA256 (section 2 of RFC 2104) over the streaming context.
 */
module Hmac {

  import opened Bytes
  import opened Bitwise
  import opened Sha256

  // ---------------------------------------------------------------- the definition

  function XorByte(x: byte, y: byte): byte {
    Pow2Of32(32);
    UnsignedRange(x, y, 8);
    XorBits(x, y)
  }

  /** The key as one 64-byte block: hashed first when it is longer, then padded with zeros. */
  function KeyBlock(key: seq<byte>): (k: seq<byte>)
    ensures |k| == 64
  {
    var short := if |key| > 64 then Digest(key) else key;
    short + Zeros(64 - |short|)
  }

  function XorPad(k: seq<byte>, pad: byte): (r: seq<byte>)
    ensures |r| == |k|
  {
    seq(|k|, i requires 0 <= i < |k| => XorByte(k[i], pad))
  }

  /** H(K xor opad, H(K xor ipad, text)). */
  function Mac(key: seq<byte>, text: seq<byte>): (mac: seq<byte>)
    ensures |mac| == 32
  {
    var k := KeyBlock(key);
    Digest(XorPad(k, 0x5c) + Digest(XorPad(k, 0x36) + text))
  }

  // ---------------------------------------------------------------- the program

  const LIMIT: nat := 0x1_0000_0000

  /** Digest of two strings fed one after the other into a fresh context. */
  method DigestOf(first: seq<byte>, second: seq<byte>, out: array<byte>)
    requires |first| < LIMIT && |second| < LIMIT && out.Length >= 32
    modifies out
    ensures out[..32] == Digest(first + second) && out[32..] == old(out[32..])
  {
    var ctx := new Context();
    ctx.Update(first);
    ctx.Update(second);
    assert ctx.msg == first + second;
    ctx.Final(out);
  }

  method ZeroFill(k: array<byte>)
    requires k.Length == 64
    modifies k
    ensures k[..] == Zeros(64)
  {
    for i := 0 to 64
      invariant forall j :: 0 <= j < i ==> k[j] == 0
    {
      k[i] := 0;
    }
  }

  method CopyKey(k: array<byte>, key: seq<byte>)
    requires k.Length == 64 && |key| <= 64 && k[..] == Zeros(64)
    modifies k
    ensures k[..] == key + Zeros(64 - |key|)
  {
    assert forall j :: 0 <= j < 64 ==> k[j] == k[..][j];
    for i := 0 to |key|
      invariant forall j :: 0 <= j < i ==> k[j] == key[j]
      invariant forall j :: |key| <= j < 64 ==> k[j] == 0
    {
      k[i] := key[i];
    }
  }

  method HashKey(k: array<byte>, key: seq<byte>)
    requires k.Length == 64 && |key| < LIMIT && k[..] == Zeros(64)
    modifies k
    ensures k[..] == Digest(key) + Zeros(32)
  {
    assert k[32..] == k[..][32..] == Zeros(32);
    assert key + [] == key;
    DigestOf(key, [], k);
    assert k[..] == k[..32] + k[32..];
  }

  method KeyInto(k: array<byte>, key: seq<byte>)
    requires k.Length == 64 && |key| < LIMIT
    modifies k
    ensures k[..] == KeyBlock(key)
  {
    ZeroFill(k);
    if |key| > 64 {
      HashKey(k, key);
    } else {
      CopyKey(k, key);
    }
  }

  /** The inner and outer pads. */
  method Pads(k: array<byte>) returns (ipad: array<byte>, opad: array<byte>)
    requires k.Length == 64
    ensures fresh(ipad) && fresh(opad) && ipad.Length == 64 && opad.Length == 64
    ensures ipad[..] == XorPad(k[..], 0x36) && opad[..] == XorPad(k[..], 0x5c)
  {
    ipad, opad := new byte[64], new byte[64];
    for i := 0 to 64
      invariant forall j :: 0 <= j < i ==> ipad[j] == XorByte(k[j], 0x36)
      invariant forall j :: 0 <= j < i ==> opad[j] == XorByte(k[j], 0x5c)
    {
      ipad[i] := XorByte(k[i], 0x36);
      opad[i] := XorByte(k[i], 0x5c);
    }
  }

  method HmacSha256(key: seq<byte>, text: seq<byte>, out: array<byte>)
    requires |key| < LIMIT && |text| < LIMIT && out.Length == 32
    modifies out
    ensures out[..] == Mac(key, text)
  {
    var k := new byte[64];
    KeyInto(k, key);
    ghost var block := KeyBlock(key);
    var ipad, opad := Pads(k);
    var inner := new byte[32];
    DigestOf(ipad[..], text, inner);
    ghost var hash := Digest(XorPad(block, 0x36) + text);
    assert inner[..] == hash by { assert inner[..] == inner[..32]; }
    DigestOf(opad[..], inner[..], out);
    assert out[..] == Digest(XorPad(block, 0x5c) + hash) by { assert out[..] == out[..32]; }
  }
}
