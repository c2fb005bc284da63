/**
 HMAC, from what section 2 of RFC 2104 says it is: the key and the two pads bit by bit.
 */
module Rfc2104 {

  import opened Bytes
  import opened Replay
  import opened Sha256
  import opened Hmac
  import Fips180

  /** Byte i of the key: of the key itself, of its digest when it is longer than a block, and then zeros. */
  function KeyByte(key: seq<byte>, i: nat): byte {
    if |key| > 64 then (if i < 32 then Digest(key)[i] else 0) else if i < |key| then key[i] else 0
  }

  /** A pad inverts four bits of every byte. */
  lemma PadBits(b: nat)
    requires b < 8
    ensures Bit(0x36, b) <==> b in [1, 2, 4, 5]
    ensures Bit(0x5c, b) <==> b in [2, 3, 4, 6]
  {
    if b == 0 {
    } else if b == 1 {
    } else if b == 2 {
    } else if b == 3 {
    } else if b == 4 {
    } else if b == 5 {
    } else if b == 6 {
    } else {
      assert b == 7;
    }
  }

  /** Every byte of the block is the key's with these bits inverted. */
  ghost predicate Padded(key: seq<byte>, block: seq<byte>, bits: seq<nat>) {
    && |block| == 64
    && forall i: nat, b: nat {:trigger Bit(block[i], b)} :: i < 64 && b < 8 ==>
         (Bit(block[i], b) <==> Bit(KeyByte(key, i), b) != (b in bits))
  }

  lemma PaddedBy(key: seq<byte>, pad: byte, bits: seq<nat>)
    requires forall b: nat {:trigger Bit(pad, b)} :: b < 8 ==> (Bit(pad, b) <==> b in bits)
    ensures Padded(key, XorPad(KeyBlock(key), pad), bits)
  {
    var k := KeyBlock(key);
    forall i: nat, b: nat | i < 64 && b < 8
      ensures Bit(XorPad(k, pad)[i], b) <==> Bit(KeyByte(key, i), b) != (b in bits)
    {
      assert k[i] == KeyByte(key, i);
      Fips180.XorBit(k[i], pad, b);
      assert Bit(pad, b) <==> b in bits;
    }
  }

  /** H(K xor opad, H(K xor ipad, text)). */
  lemma MacIs(key: seq<byte>, text: seq<byte>) returns (inner: seq<byte>, outer: seq<byte>)
    ensures Padded(key, inner, [1, 2, 4, 5]) && Padded(key, outer, [2, 3, 4, 6])
    ensures Mac(key, text) == Digest(outer + Digest(inner + text))
  {
    forall b: nat | b < 8
      ensures (Bit(0x36, b) <==> b in [1, 2, 4, 5]) && (Bit(0x5c, b) <==> b in [2, 3, 4, 6])
    {
      PadBits(b);
    }
    inner, outer := XorPad(KeyBlock(key), 0x36), XorPad(KeyBlock(key), 0x5c);
    PaddedBy(key, 0x36, [1, 2, 4, 5]);
    PaddedBy(key, 0x5c, [2, 3, 4, 6]);
  }
}
