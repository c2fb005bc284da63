/**
 The primitives the protocol uses, as one value: what is proved of the protocol needs only `Works`,
 and `RealWorks` says that the primitives of this program do.
 */
module Crypto {

  import opened Bytes
  import Aes128
  import Hmac
  import Sha256

  type digest32 = d: seq<byte> | |d| == 32 witness Sha256.Zeros(32)

  /** `encrypt` and `decrypt` take the cipher key from the first 16 bytes of a channel secret. */
  datatype Suite = Suite(
    mac: (seq<byte>, seq<byte>) -> digest32,
    digest: seq<byte> -> digest32,
    encrypt: (seq<byte>, seq<byte>) -> seq<byte>,
    decrypt: (seq<byte>, seq<byte>) -> seq<byte>)

  ghost predicate Works(s: Suite) {
    && (forall k, m :: |k| >= 16 ==> |s.encrypt(k, m)| == |m| && s.decrypt(k, s.encrypt(k, m)) == m)
    && (forall k, m :: |k| >= 16 ==> |s.decrypt(k, m)| == |m|)
  }

  function EncryptWith(secret: seq<byte>, m: seq<byte>): seq<byte> {
    if |secret| < 16 then m else Aes128.Encrypted(secret[..16], m)
  }

  function DecryptWith(secret: seq<byte>, m: seq<byte>): seq<byte> {
    if |secret| < 16 then m else Aes128.Decrypted(secret[..16], m)
  }

  function MacWith(key: seq<byte>, m: seq<byte>): digest32 {
    Hmac.Mac(key, m)
  }

  function DigestWith(m: seq<byte>): digest32 {
    Sha256.Digest(m)
  }

  function Real(): Suite {
    Suite(MacWith, DigestWith, EncryptWith, DecryptWith)
  }

  lemma RealWorks()
    ensures Works(Real())
  {
    forall k: seq<byte>, m: seq<byte> | |k| >= 16
      ensures |EncryptWith(k, m)| == |m| && DecryptWith(k, EncryptWith(k, m)) == m
    {
      Aes128.DecryptedIs(k[..16], m);
    }
  }

  // The methods below compute what a suite says when it is the real one; the triggers keep the
  // primitives out of the proofs that use it.

  ghost predicate MacIsReal(s: Suite) {
    forall k, m {:trigger MacWith(k, m)} :: s.mac(k, m) == MacWith(k, m)
  }

  ghost predicate CipherIsReal(s: Suite) {
    && (forall k, m {:trigger EncryptWith(k, m)} :: s.encrypt(k, m) == EncryptWith(k, m))
    && (forall k, m {:trigger DecryptWith(k, m)} :: s.decrypt(k, m) == DecryptWith(k, m))
  }

  lemma RealIsReal()
    ensures MacIsReal(Real()) && CipherIsReal(Real())
  {
  }

  method ComputeMac(ghost s: Suite, key: seq<byte>, m: seq<byte>) returns (mac: digest32)
    requires MacIsReal(s) && |key| < Hmac.LIMIT && |m| < Hmac.LIMIT
    ensures mac == s.mac(key, m)
  {
    var out := new byte[32];
    Hmac.HmacSha256(key, m, out);
    assert s.mac(key, m) == MacWith(key, m);
    mac := out[..];
  }

  method Encipher(ghost s: Suite, secret: seq<byte>, m: seq<byte>) returns (r: seq<byte>)
    requires CipherIsReal(s) && |secret| >= 16
    ensures r == s.encrypt(secret, m)
  {
    r := Aes128.EncryptBytes(secret[..16], m);
    assert s.encrypt(secret, m) == EncryptWith(secret, m);
  }

  method Decipher(ghost s: Suite, secret: seq<byte>, m: seq<byte>) returns (r: seq<byte>)
    requires CipherIsReal(s) && |secret| >= 16
    ensures r == s.decrypt(secret, m)
  {
    r := Aes128.DecryptBytes(secret[..16], m);
    assert s.decrypt(secret, m) == DecryptWith(secret, m);
  }
}
