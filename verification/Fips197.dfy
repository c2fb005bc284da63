/**
 The tables and transformations of AES, from what sections 4.2, 5.1 and 5.2 of FIPS 197 say they are: arithmetic
 of polynomials over bits modulo x^8 + x^4 + x^3 + x + 1.
 */
module Fips197 {

  import opened Aes128

  // ---------------------------------------------------------------- the field

  /** The product of two polynomials over bits, of degree 14 at most. */
  function Product(x: bv8, y: bv8): bv16 {
    var w, v := x as bv16, y as bv16;
    ((v & 1) * w) ^ (((v >> 1) & 1) * (w << 1)) ^ (((v >> 2) & 1) * (w << 2)) ^ (((v >> 3) & 1) * (w << 3))
      ^ (((v >> 4) & 1) * (w << 4)) ^ (((v >> 5) & 1) * (w << 5)) ^ (((v >> 6) & 1) * (w << 6))
      ^ (((v >> 7) & 1) * (w << 7))
  }

  /** A multiple of the modulus that takes the terms of degree 14 to 8 away, the highest first. */
  function Reduced(z: bv16): bv16 {
    var a := z ^ (((z >> 14) & 1) * 0x46c0);
    var b := a ^ (((a >> 13) & 1) * 0x2360);
    var c := b ^ (((b >> 12) & 1) * 0x11b0);
    var d := c ^ (((c >> 11) & 1) * 0x08d8);
    var e := d ^ (((d >> 10) & 1) * 0x046c);
    var f := e ^ (((e >> 9) & 1) * 0x0236);
    f ^ (((f >> 8) & 1) * 0x011b)
  }

  /** The product in the field. */
  function Times(x: bv8, y: bv8): bv8 {
    (Reduced(Product(x, y)) & 0xff) as bv8
  }

  lemma DoublingIs(x: bv8)
    ensures Xtime(x) == Times(x, 2)
  {
  }

  lemma FactorsAre(x: bv8)
    ensures Multiply(x, 0x09) == Times(x, 0x09)
    ensures Multiply(x, 0x0b) == Times(x, 0x0b)
    ensures Multiply(x, 0x0d) == Times(x, 0x0d)
    ensures Multiply(x, 0x0e) == Times(x, 0x0e)
  {
  }

  lemma TripleIs(x: bv8)
    ensures Times(x, 3) == Xor(Times(x, 2), x)
  {
  }

  // ---------------------------------------------------------------- substitution

  /** The affine transformation of section 5.1.1: y, rotated left by 0 to 4 places, summed, and a constant. */
  function Affine(y: bv8): bv8 {
    y ^ ((y << 1) | (y >> 7)) ^ ((y << 2) | (y >> 6)) ^ ((y << 3) | (y >> 5)) ^ ((y << 4) | (y >> 4)) ^ 0x63
  }

  /** Its inverse. */
  function Unaffine(s: bv8): bv8 {
    ((s << 1) | (s >> 7)) ^ ((s << 3) | (s >> 5)) ^ ((s << 6) | (s >> 2)) ^ 0x05
  }

  /** The table has the affine transform of y where x and y are each other's inverse, and of 0 at 0. */
  predicate SubstitutesInverse(x: bv8) {
    var y := Unaffine(Sbox(x));
    Sbox(x) == Affine(y) && if x == 0 then y == 0 else Times(x, y) == 1
  }

  lemma LowSubstitutes(x: bv8)
    requires x < 0x80
    ensures SubstitutesInverse(x)
  {
  }

  lemma HighSubstitutes(x: bv8)
    requires x >= 0x80
    ensures SubstitutesInverse(x)
  {
  }

  /** Byte by byte the S-box of section 5.1.1. */
  lemma SboxIs(x: bv8) returns (y: bv8)
    ensures if x == 0 then y == 0 else Times(x, y) == 1
    ensures Sbox(x) == Affine(y)
  {
    y := Unaffine(Sbox(x));
    if x < 0x80 {
      LowSubstitutes(x);
    } else {
      HighSubstitutes(x);
    }
  }

  // ---------------------------------------------------------------- rows and columns

  /** Row r moves left by r columns (section 5.1.2). */
  lemma ShiftIs(s: block, r: nat, c: nat)
    requires r < 4 && c < 4
    ensures Shift(s)[4 * c + r] == s[4 * ((c + r) % 4) + r]
  {
    assert ShiftSource(4 * c + r) == 4 * ((c + r) % 4) + r;
  }

  /** Byte r of a column, times 2, and the three below it, times 3, 1 and 1 (section 5.1.3). */
  lemma MixIs(s: block, r: nat, c: nat)
    requires r < 4 && c < 4
    ensures Mix(s)[4 * c + r]
         == Xor4(Times(s[4 * c + r], 2), Times(s[4 * c + (r + 1) % 4], 3), s[4 * c + (r + 2) % 4],
                 s[4 * c + (r + 3) % 4])
  {
    Belows(r, c);
    MixRowIs(s[4 * c + r], s[4 * c + (r + 1) % 4], s[4 * c + (r + 2) % 4], s[4 * c + (r + 3) % 4]);
  }

  /** Times 14, 11, 13 and 9 (section 5.3.3). */
  lemma InvMixIs(s: block, r: nat, c: nat)
    requires r < 4 && c < 4
    ensures InvMix(s)[4 * c + r]
         == Xor4(Times(s[4 * c + r], 14), Times(s[4 * c + (r + 1) % 4], 11), Times(s[4 * c + (r + 2) % 4], 13),
                 Times(s[4 * c + (r + 3) % 4], 9))
  {
    Belows(r, c);
    FactorsAre(s[4 * c + r]);
    FactorsAre(s[4 * c + (r + 1) % 4]);
    FactorsAre(s[4 * c + (r + 2) % 4]);
    FactorsAre(s[4 * c + (r + 3) % 4]);
  }

  lemma Belows(r: nat, c: nat)
    requires r < 4 && c < 4
    ensures var p := 4 * c + r;
            && Below(p) == 4 * c + (r + 1) % 4 && Below(Below(p)) == 4 * c + (r + 2) % 4
            && Below(Below(Below(p))) == 4 * c + (r + 3) % 4
  {
  }

  lemma MixRowIs(a: bv8, b: bv8, c: bv8, d: bv8)
    ensures MixRow(a, b, c, d) == Xor4(Times(a, 2), Times(b, 3), c, d)
  {
    DoublingIs(a);
    DoublingIs(b);
    TripleIs(b);
    XtimeLinear(a, b);
    Sums(a, b, c, d, Xtime(a), Xtime(b));
  }

  lemma Sums(a: bv8, b: bv8, c: bv8, d: bv8, a2: bv8, b2: bv8)
    ensures Xor(a, Xor(Xor(a2, b2), Xor4(a, b, c, d))) == Xor4(a2, Xor(b2, b), c, d)
  {
    var p, r := Xor(a2, b2), Xor3(b, c, d);
    Associates(a, b, c);
    Associates(a, Xor(b, c), d);
    Associates(p, a, r);
    Commutes(p, a);
    Associates(a, p, r);
    Cancels(a, Xor(p, r));
    Associates(a2, b2, b);
    Associates(p, b, c);
    Associates(p, Xor(b, c), d);
  }

  // ---------------------------------------------------------------- the key schedule

  /** The round constants are the powers of x: 1, and each twice the one before (section 5.2). */
  lemma RconIs(i: nat)
    requires 1 <= i <= 10
    ensures RCON[1] == 1 && (i > 1 ==> RCON[i] == Times(RCON[i - 1], 2))
  {
    if i > 1 {
      DoublingIs(RCON[i - 1]);
    }
  }

  /**
   Every word from the fifth on is the word four before it plus the word before it; at the start of a round key
   that one is rotated by a byte, substituted, and the round constant added to its first byte.
   */
  lemma KeyWordIs(key: key128, i: nat)
    requires 4 <= i < 44
    ensures var u, v, w := KeyWord(key, i), KeyWord(key, i - 4), KeyWord(key, i - 1);
            if i % 4 != 0 then
              u == Word(Xor(v.b0, w.b0), Xor(v.b1, w.b1), Xor(v.b2, w.b2), Xor(v.b3, w.b3))
            else
              && u.b0 == Xor(v.b0, Xor(Sbox(w.b1), RCON[i / 4])) && u.b1 == Xor(v.b1, Sbox(w.b2))
              && u.b2 == Xor(v.b2, Sbox(w.b3)) && u.b3 == Xor(v.b3, Sbox(w.b0))
  {
  }

  /** No key is lost: of any four words in a row the schedule can be run back by one. */
  lemma KeyWordBack(key: key128, i: nat)
    requires 4 <= i < 44
    ensures KeyWord(key, i - 4) == AddWord(KeyWord(key, i), Temp(KeyWord(key, i - 1), i))
  {
    var t := Temp(KeyWord(key, i - 1), i);
    var v := KeyWord(key, i - 4);
    Cancels(t.b0, v.b0);
    Cancels(t.b1, v.b1);
    Cancels(t.b2, v.b2);
    Cancels(t.b3, v.b3);
  }

  // ---------------------------------------------------------------- the cipher

  lemma NineSteps(f: Step, s: block)
    ensures Forwards(f, s, 9) == f(f(f(f(f(f(f(f(f(s, 1), 2), 3), 4), 5), 6), 7), 8), 9)
  {
    assert Forwards(f, s, 3) == f(f(f(s, 1), 2), 3);
    assert Forwards(f, s, 6) == f(f(f(Forwards(f, s, 3), 4), 5), 6);
  }

  /** A whole round: substitution, row shift, column mix, key addition (section 5.1). */
  lemma RoundIs(k: schedule, s: block, n: nat)
    requires 1 <= n <= 9
    ensures Round(k)(s, n) == AddKey(Mix(Shift(Sub(s))), k, n)
  {
  }

  /** A first key addition, nine whole rounds, and a last one without the column mix. */
  lemma CipherIs(k: schedule, s: block, f: Step)
    requires f == Round(k)
    ensures var nine := f(f(f(f(f(f(f(f(f(AddKey(s, k, 0), 1), 2), 3), 4), 5), 6), 7), 8), 9);
            Encrypt(k, s) == AddKey(Shift(Sub(nine)), k, 10)
  {
    NineSteps(f, AddKey(s, k, 0));
  }
}
