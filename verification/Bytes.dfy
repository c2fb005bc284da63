/**
 Bytes, and the little-endian integers the wire formats and keys are made of.
 */
module Bytes {

  /** The source's `uint8_t`. */
  type byte = x: int | 0 <= x < 256

  /** The weight 256^k of byte k. */
  function Weight(k: nat): (w: int)
    ensures w > 0
  {
    if k == 0 then 1 else 256 * Weight(k - 1)
  }

  /** The integer whose little-endian bytes are `s`. */
  function LeVal(s: seq<byte>): (v: int)
    ensures v >= 0
  {
    if |s| == 0 then 0
    else
      DigitBound(s[|s| - 1], Weight(|s| - 1));
      LeVal(s[..|s| - 1]) + s[|s| - 1] * Weight(|s| - 1)
  }

  lemma {:induction false} LeValSnoc(s: seq<byte>, k: nat)
    requires k < |s|
    ensures LeVal(s[..k + 1]) == LeVal(s[..k]) + s[k] * Weight(k)
  {
    assert s[..k + 1][..k] == s[..k];
  }

  lemma DigitBound(digit: byte, w: int)
    requires w > 0
    ensures 0 <= digit * w <= 255 * w
  {
  }

  lemma {:induction false} LeValBound(s: seq<byte>)
    ensures LeVal(s) < Weight(|s|)
  {
    if |s| > 0 {
      LeValBound(s[..|s| - 1]);
      DigitBound(s[|s| - 1], Weight(|s| - 1));
    }
  }

  lemma MultipleIsFar(d: int, w: int)
    requires d != 0 && w > 0
    ensures d * w >= w || d * w <= -w
  {
    if d > 0 {
      assert (d - 1) * w >= 0;
    } else {
      assert (-d - 1) * w >= 0;
    }
  }

  lemma DigitsAgree(lowA: int, lowB: int, a: int, b: int, w: int)
    requires 0 <= lowA < w && 0 <= lowB < w
    requires lowA + a * w == lowB + b * w
    ensures a == b
  {
    if a != b {
      MultipleIsFar(a - b, w);
      assert false;
    }
  }

  /** Strings of one length represent different integers. */
  lemma {:induction false} LeValInjective(a: seq<byte>, b: seq<byte>)
    requires |a| == |b| && LeVal(a) == LeVal(b)
    ensures a == b
  {
    if |a| > 0 {
      var n := |a| - 1;
      LeValBound(a[..n]);
      LeValBound(b[..n]);
      DigitsAgree(LeVal(a[..n]), LeVal(b[..n]), a[n], b[n], Weight(n));
      LeValInjective(a[..n], b[..n]);
      assert a == a[..n] + [a[n]] && b == b[..n] + [b[n]];
    }
  }
}
