/**
 Numbers and bytes as text: decimal and hexadecimal digits, written and read back.
 */
module Numerals {

  import opened Bytes

  type text = seq<byte>

  datatype Maybe<T> = Some(value: T) | None

  // ---------------------------------------------------------------- digits

  function DigitValue(c: byte): Maybe<nat> {
    if 48 <= c <= 57 then Some(c - 48)
    else if 97 <= c <= 102 then Some(c - 87)
    else if 65 <= c <= 70 then Some(c - 55)
    else None
  }

  function Digit(d: nat): byte
    requires d < 16
  {
    if d < 10 then 48 + d else 87 + d
  }

  lemma DigitBack(d: nat)
    requires d < 16
    ensures DigitValue(Digit(d)) == Some(d)
  {
  }

  // ---------------------------------------------------------------- numbers

  function Decimal(n: nat): (d: text)
    ensures |d| >= 1 && (n < 100 ==> |d| <= 2)
    ensures forall i :: 0 <= i < |d| ==> 48 <= d[i] <= 57
  {
    if n < 10 then [48 + n] else Decimal(n / 10) + [48 + n % 10]
  }

  /** The value of digits in a base, when all are digits of it and there is one. */
  function DigitsValue(s: text, base: nat): Maybe<nat>
    decreases |s|
  {
    if |s| == 0 then None
    else
      var last := |s| - 1;
      match DigitValue(s[last])
      case None => None
      case Some(d) =>
        if d >= base then None
        else if last == 0 then Some(d)
        else
          match DigitsValue(s[..last], base)
          case None => None
          case Some(v) => Some(v * base + d)
  }

  lemma {:induction false} DecimalBack(n: nat)
    ensures DigitsValue(Decimal(n), 10) == Some(n)
    decreases n
  {
    if n >= 10 {
      DecimalBack(n / 10);
      var d := Decimal(n);
      assert d[..|d| - 1] == Decimal(n / 10);
    }
  }

  function SkipSpace(s: text): text
    decreases |s|
  {
    if |s| > 0 && (s[0] == 32 || 9 <= s[0] <= 13) then SkipSpace(s[1..]) else s
  }

  const ULONG: nat := 0x1_0000_0000_0000_0000

  /** What the C library makes of a magnitude and a sign: clamped, or negated in 64 bits. */
  function Converted(x: nat, negative: bool): nat {
    if x >= ULONG then ULONG - 1 else if negative then (ULONG - x) % ULONG else x
  }

  /** A number from the whole text, in base 16 after "0x", else in base 10 with blanks and a sign before it. */
  function ParseU32(v: text): Maybe<nat> {
    if |v| >= 2 && v[0] == 48 && (v[1] == 120 || v[1] == 88) then Narrowed(DigitsValue(v[2..], 16), false)
    else
      var t := SkipSpace(v);
      var signed := |t| > 0 && (t[0] == 45 || t[0] == 43);
      Narrowed(DigitsValue(if signed then t[1..] else t, 10), signed && t[0] == 45)
  }

  function Narrowed(x: Maybe<nat>, negative: bool): Maybe<nat> {
    match x
    case None => None
    case Some(v) => Some(Converted(v, negative) % 0x1_0000_0000)
  }

  lemma ParseBack(n: nat)
    requires n < 0x1_0000_0000
    ensures ParseU32(Decimal(n)) == Some(n)
  {
    var d := Decimal(n);
    assert SkipSpace(d) == d;
    assert ParseU32(d) == Narrowed(DigitsValue(d, 10), false) by { PlainDigits(d); }
    DecimalBack(n);
    InRange(n);
  }

  lemma InRange(n: nat)
    requires n < 0x1_0000_0000
    ensures Narrowed(Some(n), false) == Some(n)
  {
  }

  lemma PlainDigits(d: text)
    requires |d| > 0 && forall i :: 0 <= i < |d| ==> 48 <= d[i] <= 57
    ensures ParseU32(d) == Narrowed(DigitsValue(d, 10), false)
  {
    assert SkipSpace(d) == d;
  }

  // ---------------------------------------------------------------- bytes

  function Hex(b: text): (h: text)
    ensures |h| == 2 * |b|
    decreases |b|
  {
    if |b| == 0 then []
    else Hex(b[..|b| - 1]) + [Digit(b[|b| - 1] / 16), Digit(b[|b| - 1] % 16)]
  }

  /** The bytes two digits each stand for; nothing for an odd number or a character that is no digit. */
  function Unhex(h: text): Maybe<text>
    decreases |h|
  {
    if |h| == 0 then Some([])
    else if |h| == 1 then None
    else
      var n := |h| - 2;
      match (Unhex(h[..n]), DigitValue(h[n]), DigitValue(h[n + 1]))
      case (Some(b), Some(high), Some(low)) => Some(b + [ByteFrom(high, low)])
      case _ => None
  }

  function ByteFrom(high: nat, low: nat): byte {
    (high * 16 + low) % 256
  }

  lemma ByteBack(b: byte)
    ensures ByteFrom(b / 16, b % 16) == b
  {
  }

  /** Two more characters. */
  lemma UnhexNext(h: text, n: nat)
    requires n + 2 <= |h|
    ensures Unhex(h[..n + 2]) ==
            match (Unhex(h[..n]), DigitValue(h[n]), DigitValue(h[n + 1]))
            case (Some(b), Some(high), Some(low)) => Some(b + [ByteFrom(high, low)])
            case _ => None
  {
    assert h[..n + 2][..n] == h[..n];
  }

  lemma {:induction false} HexBack(b: text)
    ensures Unhex(Hex(b)) == Some(b)
    decreases |b|
  {
    if |b| > 0 {
      var last := |b| - 1;
      HexBack(b[..last]);
      DigitBack(b[last] / 16);
      DigitBack(b[last] % 16);
      ByteBack(b[last]);
      assert Hex(b)[..2 * last] == Hex(b[..last]);
      assert b == b[..last] + [b[last]];
    }
  }

  lemma {:induction false} HexDigits(b: text)
    ensures forall i :: 0 <= i < |Hex(b)| ==> 48 <= Hex(b)[i] <= 102
    decreases |b|
  {
    if |b| > 0 {
      HexDigits(b[..|b| - 1]);
    }
  }

  // ---------------------------------------------------------------- the program

  /** Writes the digits and a terminator; 0 when they do not fit. */
  method Bin2Hex(b: text, out: array<byte>) returns (n: nat)
    modifies out
    ensures if out.Length < 2 * |b| + 1 then n == 0 && out[..] == old(out[..])
            else n == 2 * |b| && out[..n] == Hex(b) && out[n] == 0
  {
    if out.Length < 2 * |b| + 1 {
      return 0;
    }
    for i := 0 to |b|
      invariant out[..2 * i] == Hex(b[..i])
    {
      out[2 * i] := Digit(b[i] / 16);
      out[2 * i + 1] := Digit(b[i] % 16);
      assert b[..i + 1][..i] == b[..i];
      assert out[..2 * i + 2] == out[..2 * i] + [out[2 * i], out[2 * i + 1]];
    }
    assert b[..|b|] == b;
    out[2 * |b|] := 0;
    assert out[..2 * |b|] == Hex(b);
    return 2 * |b|;
  }

  /** The number of bytes written, or -1. */
  method Hex2Bin(h: text, out: array<byte>) returns (n: int)
    modifies out
    ensures n == if |h| % 2 == 0 && |h| / 2 <= out.Length && Unhex(h).Some? then |h| / 2 else -1
    ensures n >= 0 ==> Some(out[..n]) == Unhex(h)
  {
    if |h| % 2 != 0 {
      OddHex(h);
      return -1;
    }
    var count := |h| / 2;
    if count > out.Length {
      return -1;
    }
    ghost var done: text := [];
    assert h[..0] == [];
    for i := 0 to count
      invariant |done| == i && Unhex(h[..2 * i]) == Some(done)
      invariant forall j :: 0 <= j < i ==> out[j] == done[j]
    {
      var high, low := DigitValue(h[2 * i]), DigitValue(h[2 * i + 1]);
      UnhexNext(h, 2 * i);
      if high.None? || low.None? {
        UnhexPrefix(h, 2 * i + 2);
        return -1;
      }
      out[i] := ByteFrom(high.value, low.value);
      done := done + [out[i]];
    }
    assert h[..2 * count] == h;
    assert out[..count] == done;
    return count;
  }

  lemma {:induction false} UnhexHalves(h: text)
    ensures Unhex(h).Some? ==> |h| == 2 * |Unhex(h).value|
    decreases |h|
  {
    if |h| > 1 {
      UnhexHalves(h[..|h| - 2]);
    }
  }

  lemma {:induction false} OddHex(h: text)
    requires |h| % 2 == 1
    ensures Unhex(h).None?
    decreases |h|
  {
    if |h| > 1 {
      OddHex(h[..|h| - 2]);
    }
  }

  lemma {:induction false} UnhexPrefix(h: text, n: nat)
    requires n <= |h| && n % 2 == 0 && |h| % 2 == 0 && Unhex(h[..n]).None?
    ensures Unhex(h).None?
    decreases |h|
  {
    if n == |h| {
      assert h[..n] == h;
    } else {
      var m := |h| - 2;
      assert h[..m][..n] == h[..n];
      UnhexPrefix(h[..m], n);
    }
  }
}
