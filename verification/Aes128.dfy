/**
 AES-128 (FIPS 197) in ECB mode, on a buffer changed in place. Bytes are `bv8` here, for the
 exclusive-ors; `Bits` and `Octets` convert from and to the bytes of the rest of the program.
 */
module Aes128 {

  import opened Bytes

  // ---------------------------------------------------------------- substitution

  /** Row `high` of the substitution table, its sixteen bytes packed from the left. */
  function SboxRow(high: bv8): bv128 {
    match high
    case 0 => 0x637c777bf26b6fc5_3001672bfed7ab76
    case 1 => 0xca82c97dfa5947f0_add4a2af9ca472c0
    case 2 => 0xb7fd9326363ff7cc_34a5e5f171d83115
    case 3 => 0x04c723c31896059a_071280e2eb27b275
    case 4 => 0x09832c1a1b6e5aa0_523bd6b329e32f84
    case 5 => 0x53d100ed20fcb15b_6acbbe394a4c58cf
    case 6 => 0xd0efaafb434d3385_45f9027f503c9fa8
    case 7 => 0x51a3408f929d38f5_bcb6da2110fff3d2
    case 8 => 0xcd0c13ec5f974417_c4a77e3d645d1973
    case 9 => 0x60814fdc222a9088_46eeb814de5e0bdb
    case 10 => 0xe0323a0a4906245c_c2d3ac629195e479
    case 11 => 0xe7c8376d8dd54ea9_6c56f4ea657aae08
    case 12 => 0xba78252e1ca6b4c6_e8dd741f4bbd8b8a
    case 13 => 0x703eb5664803f60e_613557b986c11d9e
    case 14 => 0xe1f8981169d98e94_9b1e87e9ce5528df
    case _ => 0x8ca1890dbfe64268_41992d0fb054bb16
  }

  function Sbox(x: bv8): bv8 {
    ((SboxRow(x >> 4) >> (120 - 8 * ((x & 15) as bv128))) & 0xff) as bv8
  }

  /** Row `high` of the inverse table. */
  function RsboxRow(high: bv8): bv128 {
    match high
    case 0 => 0x52096ad53036a538_bf40a39e81f3d7fb
    case 1 => 0x7ce339829b2fff87_348e4344c4dee9cb
    case 2 => 0x547b9432a6c2233d_ee4c950b42fac34e
    case 3 => 0x082ea16628d924b2_765ba2496d8bd125
    case 4 => 0x72f8f66486689816_d4a45ccc5d65b692
    case 5 => 0x6c704850fdedb9da_5e154657a78d9d84
    case 6 => 0x90d8ab008cbcd30a_f7e45805b8b34506
    case 7 => 0xd02c1e8fca3f0f02_c1afbd0301138a6b
    case 8 => 0x3a9111414f67dcea_97f2cfcef0b4e673
    case 9 => 0x96ac7422e7ad3585_e2f937e81c75df6e
    case 10 => 0x47f11a711d29c589_6fb7620eaa18be1b
    case 11 => 0xfc563e4bc6d27920_9adbc0fe78cd5af4
    case 12 => 0x1fdda8338807c731_b11210592780ec5f
    case 13 => 0x60517fa919b54a0d_2de57a9f93c99cef
    case 14 => 0xa0e03b4dae2af5b0_c8ebbb3c83539961
    case _ => 0x172b047eba77d626_e169146355210c7d
  }

  function Rsbox(x: bv8): bv8 {
    ((RsboxRow(x >> 4) >> (120 - 8 * ((x & 15) as bv128))) & 0xff) as bv8
  }

  lemma SboxInverts0(x: bv8)
    requires x < 0x40
    ensures Rsbox(Sbox(x)) == x
  {
  }

  lemma SboxInverts1(x: bv8)
    requires 0x40 <= x < 0x80
    ensures Rsbox(Sbox(x)) == x
  {
  }

  lemma SboxInverts2(x: bv8)
    requires 0x80 <= x < 0xc0
    ensures Rsbox(Sbox(x)) == x
  {
  }

  lemma SboxInverts3(x: bv8)
    requires x >= 0xc0
    ensures Rsbox(Sbox(x)) == x
  {
  }

  /** The two tables are each other's inverse. */
  lemma SboxInverts(x: bv8)
    ensures Rsbox(Sbox(x)) == x
  {
    if x < 0x40 {
      SboxInverts0(x);
    } else if x < 0x80 {
      SboxInverts1(x);
    } else if x < 0xc0 {
      SboxInverts2(x);
    } else {
      SboxInverts3(x);
    }
  }

  // ---------------------------------------------------------------- multiplication by fixed factors

  function Xor(x: bv8, y: bv8): bv8 {
    x ^ y
  }

  function Xor3(x: bv8, y: bv8, z: bv8): bv8 {
    Xor(Xor(x, y), z)
  }

  function Xor4(x: bv8, y: bv8, z: bv8, w: bv8): bv8 {
    Xor(Xor3(x, y, z), w)
  }

  function Xtime(x: bv8): bv8 {
    (x << 1) ^ (((x >> 7) & 1) * 0x1b)
  }

  function Multiply(x: bv8, y: bv8): bv8 {
    ((y & 1) * x) ^ (((y >> 1) & 1) * Xtime(x)) ^ (((y >> 2) & 1) * Xtime(Xtime(x)))
      ^ (((y >> 3) & 1) * Xtime(Xtime(Xtime(x)))) ^ (((y >> 4) & 1) * Xtime(Xtime(Xtime(Xtime(x)))))
  }

  /** One byte of a mixed column: 2x + y plus the two others, where `sum` is the sum of all four. */
  function MixByte(x: bv8, y: bv8, sum: bv8): bv8 {
    Xor(x, Xor(Xtime(Xor(x, y)), sum))
  }

  function InvMixByte(a: bv8, b: bv8, c: bv8, d: bv8): bv8 {
    Xor4(Multiply(a, 0x0e), Multiply(b, 0x0b), Multiply(c, 0x0d), Multiply(d, 0x09))
  }

  lemma Commutes(x: bv8, y: bv8)
    ensures Xor(x, y) == Xor(y, x)
  {
  }

  lemma Associates(x: bv8, y: bv8, z: bv8)
    ensures Xor(Xor(x, y), z) == Xor(x, Xor(y, z))
  {
  }

  lemma Interchange(x: bv8, y: bv8, z: bv8, w: bv8)
    ensures Xor(Xor(x, y), Xor(z, w)) == Xor(Xor(x, z), Xor(y, w))
  {
    Associates(Xor(x, y), z, w);
    Associates(x, y, z);
    Commutes(y, z);
    Associates(x, z, y);
    Associates(Xor(x, z), y, w);
  }

  lemma Cancels(x: bv8, y: bv8)
    ensures Xor(x, Xor(x, y)) == y && Xor(Xor(y, x), x) == y
  {
  }

  lemma XtimeLinear(x: bv8, y: bv8)
    ensures Xtime(Xor(x, y)) == Xor(Xtime(x), Xtime(y))
  {
  }

  lemma XtimeSum(a: bv8, b: bv8, c: bv8, d: bv8)
    ensures Xtime(Xor4(a, b, c, d)) == Xor4(Xtime(a), Xtime(b), Xtime(c), Xtime(d))
  {
    XtimeLinear(a, b);
    XtimeLinear(Xor(a, b), c);
    XtimeLinear(Xor3(a, b, c), d);
  }

  /** The fixed factors of the inverse transformation, in terms of doublings. */
  lemma MultiplyIs(x: bv8)
    ensures Multiply(x, 0x09) == Xor(Xtime(Xtime(Xtime(x))), x)
    ensures Multiply(x, 0x0b) == Xor3(Xtime(Xtime(Xtime(x))), Xtime(x), x)
    ensures Multiply(x, 0x0d) == Xor3(Xtime(Xtime(Xtime(x))), Xtime(Xtime(x)), x)
    ensures Multiply(x, 0x0e) == Xor3(Xtime(Xtime(Xtime(x))), Xtime(Xtime(x)), Xtime(x))
  {
  }

  lemma InvMixValues(b: bv8, c: bv8, d: bv8, a1: bv8, b1: bv8, a2: bv8, c2: bv8, a3: bv8, b3: bv8, c3: bv8, d3: bv8)
    ensures Xor4(Xor3(a3, a2, a1), Xor3(b3, b1, b), Xor3(c3, c2, c), Xor(d3, d))
         == Xor4(Xor4(a3, b3, c3, d3), Xor(a2, c2), Xor(a1, b1), Xor3(b, c, d))
  {
    var p, q, r := Xor(a2, a1), Xor(b1, b), Xor(c2, c);
    Associates(a3, a2, a1);
    Associates(b3, b1, b);
    Associates(c3, c2, c);
    Interchange(a3, p, b3, q);
    Interchange(Xor(a3, b3), Xor(p, q), c3, r);
    Interchange(Xor3(a3, b3, c3), Xor3(p, q, r), d3, d);
    assert Xor4(p, q, r, d) == Xor3(Xor(a2, c2), Xor(a1, b1), Xor3(b, c, d)) by {
      Associates(a2, a1, q);
      Associates(a1, b1, b);
      Associates(a2, Xor(a1, b1), b);
      Interchange(Xor(a2, Xor(a1, b1)), b, c2, c);
      Associates(Xor(Xor(a2, Xor(a1, b1)), c2), Xor(b, c), d);
      Associates(a2, Xor(a1, b1), c2);
      Commutes(Xor(a1, b1), c2);
      Associates(a2, c2, Xor(a1, b1));
    }
    Associates(Xor4(a3, b3, c3, d3), Xor(a2, c2), Xor(a1, b1));
    Associates(Xor4(a3, b3, c3, d3), Xor(Xor(a2, c2), Xor(a1, b1)), Xor3(b, c, d));
  }

  /** 14a + 11b + 13c + 9d is 8(a + b + c + d) + 4(a + c) + 2(a + b) + (b + c + d). */
  lemma InvMixSums(a: bv8, b: bv8, c: bv8, d: bv8)
    ensures InvMixByte(a, b, c, d)
         == Xor4(Xtime(Xtime(Xtime(Xor4(a, b, c, d)))), Xtime(Xtime(Xor(a, c))), Xtime(Xor(a, b)), Xor3(b, c, d))
  {
    MultiplyIs(a);
    MultiplyIs(b);
    MultiplyIs(c);
    MultiplyIs(d);
    var a1, b1, c1, d1 := Xtime(a), Xtime(b), Xtime(c), Xtime(d);
    var a2, b2, c2, d2 := Xtime(a1), Xtime(b1), Xtime(c1), Xtime(d1);
    XtimeSum(a, b, c, d);
    XtimeSum(a1, b1, c1, d1);
    XtimeSum(a2, b2, c2, d2);
    XtimeLinear(a, c);
    XtimeLinear(a1, c1);
    XtimeLinear(a, b);
    InvMixValues(b, c, d, a1, b1, a2, c2, Xtime(a2), Xtime(b2), Xtime(c2), Xtime(d2));
  }

  lemma PairValues(x: bv8, y: bv8, z: bv8)
    ensures Xor(Xor(x, y), Xor(y, z)) == Xor(x, z)
  {
  }

  lemma XtimePair(x: bv8, y: bv8, z: bv8)
    ensures Xor(Xtime(Xor(x, y)), Xtime(Xor(y, z))) == Xtime(Xor(x, z))
  {
    XtimeLinear(x, y);
    XtimeLinear(y, z);
    XtimeLinear(x, z);
    PairValues(Xtime(x), Xtime(y), Xtime(z));
  }

  lemma MixedTotal(a: bv8, b: bv8, c: bv8, d: bv8, s: bv8, ab: bv8, bc: bv8, cd: bv8, da: bv8, ac: bv8)
    requires Xor(ab, bc) == ac && Xor(cd, da) == ac
    ensures Xor4(Xor(a, Xor(ab, s)), Xor(b, Xor(bc, s)), Xor(c, Xor(cd, s)), Xor(d, Xor(da, s))) == Xor4(a, b, c, d)
  {
  }

  lemma MixedPair(x: bv8, y: bv8, s: bv8, u: bv8, v: bv8)
    ensures Xor(Xor(x, Xor(u, s)), Xor(y, Xor(v, s))) == Xor(Xor(x, y), Xor(u, v))
  {
    Interchange(x, Xor(u, s), y, Xor(v, s));
    Commutes(v, s);
    PairValues(u, s, v);
  }

  lemma MixedRest(p: bv8, q: bv8, r: bv8, t: bv8, a: bv8, ab: bv8, s: bv8)
    requires Xor4(p, q, r, t) == s && p == Xor(a, Xor(ab, s))
    ensures Xor3(q, r, t) == Xor(a, ab)
  {
    Associates(p, q, r);
    Associates(p, Xor(q, r), t);
    Cancels(p, Xor3(q, r, t));
    Associates(a, ab, s);
    Cancels(s, Xor(a, ab));
  }

  lemma Cancel(x: bv8, y: bv8, z: bv8, a: bv8)
    ensures Xor4(x, Xor(y, x), Xor(z, y), Xor(a, z)) == a
  {
  }

  /** The sums of mixed bytes that the inverse needs. */
  lemma MixedSums(a: bv8, b: bv8, c: bv8, d: bv8, s: bv8)
    requires s == Xor4(a, b, c, d)
    ensures var p, q, r, t := MixByte(a, b, s), MixByte(b, c, s), MixByte(c, d, s), MixByte(d, a, s);
            && Xor4(p, q, r, t) == s
            && Xor(p, r) == Xor(Xor(a, c), Xtime(s))
            && Xor(p, q) == Xor(Xor(a, b), Xtime(Xor(a, c)))
            && Xor3(q, r, t) == Xor(a, Xtime(Xor(a, b)))
  {
    var ab, bc, cd, da := Xtime(Xor(a, b)), Xtime(Xor(b, c)), Xtime(Xor(c, d)), Xtime(Xor(d, a));
    var p, q, r, t := Xor(a, Xor(ab, s)), Xor(b, Xor(bc, s)), Xor(c, Xor(cd, s)), Xor(d, Xor(da, s));
    XtimePair(a, b, c);
    XtimePair(c, d, a);
    Commutes(c, a);
    MixedTotal(a, b, c, d, s, ab, bc, cd, da, Xtime(Xor(a, c)));
    MixedPair(a, c, s, ab, cd);
    XtimeLinear(Xor(a, b), Xor(c, d));
    Associates(Xor(a, b), c, d);
    MixedPair(a, b, s, ab, bc);
    MixedRest(p, q, r, t, a, ab, s);
  }

  /** The inverse column transformation recovers each byte of a mixed column. */
  lemma MixInverts(a: bv8, b: bv8, c: bv8, d: bv8, s: bv8)
    requires s == Xor4(a, b, c, d)
    ensures InvMixByte(MixByte(a, b, s), MixByte(b, c, s), MixByte(c, d, s), MixByte(d, a, s)) == a
  {
    var p, q, r, t := MixByte(a, b, s), MixByte(b, c, s), MixByte(c, d, s), MixByte(d, a, s);
    MixedSums(a, b, c, d, s);
    InvMixSums(p, q, r, t);
    InverseValue(a, Xor(a, c), Xor(a, b), s);
  }

  lemma InverseValue(a: bv8, u: bv8, v: bv8, s: bv8)
    ensures Xor4(Xtime(Xtime(Xtime(s))), Xtime(Xtime(Xor(u, Xtime(s)))), Xtime(Xor(v, Xtime(u))), Xor(a, Xtime(v))) == a
  {
    XtimeLinear(u, Xtime(s));
    XtimeLinear(Xtime(u), Xtime(Xtime(s)));
    XtimeLinear(v, Xtime(u));
    Cancel(Xtime(Xtime(Xtime(s))), Xtime(Xtime(u)), Xtime(v), a);
  }

  // ---------------------------------------------------------------- the state as a value

  // A block of sixteen bytes is a state of four columns: byte 4c + r is row r of column c.

  type block = s: seq<bv8> | |s| == 16 witness seq(16, _ => 0)

  /** Every byte looked up in a table. */
  function Through(table: bv8 -> bv8, s: block): block {
    seq(16, p requires 0 <= p < 16 => table(s[p]))
  }

  function Sub(s: block): block {
    Through(Sbox, s)
  }

  function InvSub(s: block): block {
    Through(Rsbox, s)
  }

  /** Where the byte at p comes from when row r moves left by r columns. */
  function ShiftSource(p: nat): (q: nat)
    requires p < 16
    ensures q < 16 && q % 4 == p % 4
  {
    var q := p + 4 * (p % 4);
    if q < 16 then q else q - 16
  }

  /** Where the byte at p comes from when row r moves right by r columns. */
  function InvShiftSource(p: nat): (q: nat)
    requires p < 16
    ensures q < 16
  {
    var q := p - 4 * (p % 4);
    if q >= 0 then q else q + 16
  }

  lemma ShiftSources(p: nat, c: nat, r: nat)
    requires c < 4 && r < 4 && p == 4 * c + r
    ensures ShiftSource(InvShiftSource(p)) == p
  {
  }

  function Shift(s: block): block {
    seq(16, p requires 0 <= p < 16 => s[ShiftSource(p)])
  }

  function InvShift(s: block): block {
    seq(16, p requires 0 <= p < 16 => s[InvShiftSource(p)])
  }

  /** The byte below in the same column, the first following the last. */
  function Below(p: nat): (q: nat)
    requires p < 16
    ensures q < 16
  {
    if p % 4 == 3 then p - 3 else p + 1
  }

  lemma BelowTurns(p: nat)
    requires p < 16
    ensures Below(Below(Below(Below(p)))) == p
  {
  }

  /** A byte of a new column from the byte at its place and the three below. */
  type RowMix = (bv8, bv8, bv8, bv8) -> bv8

  function MixAt(h: RowMix, s: block, p: nat): bv8
    requires p < 16
  {
    var q := Below(p);
    var r := Below(q);
    h(s[p], s[q], s[r], s[Below(r)])
  }

  function MixWith(h: RowMix, s: block): block {
    seq(16, p requires 0 <= p < 16 => MixAt(h, s, p))
  }

  function MixRow(a: bv8, b: bv8, c: bv8, d: bv8): bv8 {
    MixByte(a, b, Xor4(a, b, c, d))
  }

  function Mix(s: block): block {
    MixWith(MixRow, s)
  }

  function InvMix(s: block): block {
    MixWith(InvMixByte, s)
  }

  /** The expanded key: eleven round keys of sixteen bytes. */
  type schedule = k: seq<bv8> | |k| == 176 witness seq(176, _ => 0)

  function AddKey(s: block, k: schedule, round: nat): block
    requires round <= 10
  {
    seq(16, p requires 0 <= p < 16 => Xor(s[p], k[16 * round + p]))
  }

  lemma SubInverts(s: block)
    ensures InvSub(Sub(s)) == s
  {
    forall p | 0 <= p < 16
      ensures InvSub(Sub(s))[p] == s[p]
    {
      SboxInverts(s[p]);
    }
  }

  lemma ShiftInverts(s: block)
    ensures InvShift(Shift(s)) == s
  {
    forall p | 0 <= p < 16
      ensures InvShift(Shift(s))[p] == s[p]
    {
      ShiftSources(p, p / 4, p % 4);
    }
  }

  lemma AddKeyInverts(s: block, k: schedule, round: nat)
    requires round <= 10
    ensures AddKey(AddKey(s, k, round), k, round) == s
  {
    forall p | 0 <= p < 16
      ensures AddKey(AddKey(s, k, round), k, round)[p] == s[p]
    {
      Cancels(k[16 * round + p], s[p]);
    }
  }

  lemma Rotates(a: bv8, b: bv8, c: bv8, d: bv8)
    ensures Xor4(b, c, d, a) == Xor4(a, b, c, d)
  {
    Commutes(Xor3(b, c, d), a);
    Associates(a, Xor(b, c), d);
    Associates(a, b, c);
  }

  lemma ColumnInverts(a: bv8, b: bv8, c: bv8, d: bv8)
    ensures InvMixByte(MixRow(a, b, c, d), MixRow(b, c, d, a), MixRow(c, d, a, b), MixRow(d, a, b, c)) == a
  {
    Rotates(a, b, c, d);
    Rotates(b, c, d, a);
    Rotates(c, d, a, b);
    MixInverts(a, b, c, d, Xor4(a, b, c, d));
  }

  lemma MixWithInverts(h: RowMix, g: RowMix, s: block)
    requires forall a, b, c, d :: g(h(a, b, c, d), h(b, c, d, a), h(c, d, a, b), h(d, a, b, c)) == a
    ensures MixWith(g, MixWith(h, s)) == s
  {
    forall p | 0 <= p < 16
      ensures MixWith(g, MixWith(h, s))[p] == s[p]
    {
      BelowTurns(p);
      var q := Below(p);
      var r := Below(q);
      var t := Below(r);
      var m := MixWith(h, s);
      assert m[p] == h(s[p], s[q], s[r], s[t]) && m[q] == h(s[q], s[r], s[t], s[p]);
      assert m[r] == h(s[r], s[t], s[p], s[q]) && m[t] == h(s[t], s[p], s[q], s[r]);
      var a, b, c, d := s[p], s[q], s[r], s[t];
      assert g(h(a, b, c, d), h(b, c, d, a), h(c, d, a, b), h(d, a, b, c)) == a;
      assert MixWith(g, m)[p] == g(m[p], m[q], m[r], m[t]);
    }
  }

  lemma MixStateInverts(s: block)
    ensures InvMix(Mix(s)) == s
  {
    forall a, b, c, d
      ensures InvMixByte(MixRow(a, b, c, d), MixRow(b, c, d, a), MixRow(c, d, a, b), MixRow(d, a, b, c)) == a
    {
      ColumnInverts(a, b, c, d);
    }
    MixWithInverts(MixRow, InvMixByte, s);
  }

  // ---------------------------------------------------------------- the cipher as a value

  type Step = (block, nat) -> block

  /** Steps 1 to n in order. */
  function Forwards(f: Step, s: block, n: nat): block
    decreases n
  {
    if n == 0 then s else f(Forwards(f, s, n - 1), n)
  }

  /** Steps n down to 1. */
  function Backwards(g: Step, s: block, n: nat): block
    decreases n
  {
    if n == 0 then s else Backwards(g, g(s, n), n - 1)
  }

  /** When `g` undoes `f` step by step as seen through `view`, the runs undo each other. */
  lemma {:induction false} StepsInvert(f: Step, g: Step, view: block -> block, s: block, n: nat)
    requires forall e, i :: 1 <= i <= n ==> g(view(f(e, i)), i) == view(e)
    ensures Backwards(g, view(Forwards(f, s, n)), n) == view(s)
    decreases n
  {
    if n > 0 {
      StepsInvert(f, g, view, s, n - 1);
    }
  }

  /** The half of a round that does not depend on the key. */
  function Scramble(s: block): block {
    Shift(Sub(s))
  }

  function Unscramble(s: block): block {
    InvSub(InvShift(s))
  }

  function Round(k: schedule): Step {
    (s: block, n: nat) => if n <= 10 then AddKey(Mix(Scramble(s)), k, n) else s
  }

  function InvRound(k: schedule): Step {
    (s: block, n: nat) => if n <= 10 then InvMix(AddKey(Unscramble(s), k, n)) else s
  }

  function Encrypt(k: schedule, s: block): block {
    AddKey(Scramble(Forwards(Round(k), AddKey(s, k, 0), 9)), k, 10)
  }

  function Decrypt(k: schedule, s: block): block {
    AddKey(Unscramble(Backwards(InvRound(k), AddKey(s, k, 10), 9)), k, 0)
  }

  lemma ScrambleInverts(s: block)
    ensures Unscramble(Scramble(s)) == s
  {
    ShiftInverts(Sub(s));
    SubInverts(s);
  }

  lemma RoundInverts(k: schedule, s: block, n: nat)
    requires n <= 10
    ensures InvRound(k)(Scramble(Round(k)(s, n)), n) == Scramble(s)
  {
    var x := Scramble(s);
    var m := Mix(x);
    var y := AddKey(m, k, n);
    assert Unscramble(Scramble(y)) == y by { ScrambleInverts(y); }
    assert AddKey(y, k, n) == m by { AddKeyInverts(m, k, n); }
    assert InvMix(m) == x by { MixStateInverts(x); }
  }

  /** Decryption undoes encryption, whatever the round keys. */
  lemma DecryptInverts(k: schedule, s: block)
    ensures Decrypt(k, Encrypt(k, s)) == s
  {
    var t := AddKey(s, k, 0);
    var e := Scramble(Forwards(Round(k), t, 9));
    assert AddKey(AddKey(e, k, 10), k, 10) == e by { AddKeyInverts(e, k, 10); }
    assert Backwards(InvRound(k), e, 9) == Scramble(t) by {
      forall x, i | 1 <= i <= 9
        ensures InvRound(k)(Scramble(Round(k)(x, i)), i) == Scramble(x)
      {
        RoundInverts(k, x, i);
      }
      StepsInvert(Round(k), InvRound(k), Scramble, t, 9);
    }
    assert Unscramble(Scramble(t)) == t by { ScrambleInverts(t); }
    AddKeyInverts(s, k, 0);
  }

  // ---------------------------------------------------------------- the program, in place

  function BlockAt(x: seq<bv8>, off: nat): block
    requires off + 16 <= |x|
  {
    x[off..off + 16]
  }

  /** `x` with the sixteen bytes at `off` replaced by `b`. */
  function Put(x: seq<bv8>, off: nat, b: block): (y: seq<bv8>)
    requires off + 16 <= |x|
    ensures |y| == |x| && BlockAt(y, off) == b
  {
    x[..off] + b + x[off + 16..]
  }

  lemma PutAgain(x: seq<bv8>, off: nat, b: block, c: block)
    requires off + 16 <= |x|
    ensures Put(Put(x, off, b), off, c) == Put(x, off, c)
  {
  }

  lemma PutIs(x: seq<bv8>, y: seq<bv8>, off: nat, b: block)
    requires |x| == |y| && off + 16 <= |x|
    requires forall q :: 0 <= q < |x| ==> y[q] == if off <= q < off + 16 then b[q - off] else x[q]
    ensures y == Put(x, off, b)
  {
    assert |Put(x, off, b)| == |y|;
  }

  method AddRoundKey(round: nat, buf: array<bv8>, off: nat, rk: array<bv8>)
    requires round <= 10 && off + 16 <= buf.Length && rk.Length == 176 && buf != rk
    modifies buf
    ensures buf[..] == Put(old(buf[..]), off, AddKey(BlockAt(old(buf[..]), off), rk[..], round))
  {
    ghost var x, k := buf[..], rk[..];
    ghost var b := AddKey(BlockAt(x, off), k, round);
    for i := 0 to 4
      invariant forall q :: 0 <= q < |x| ==> buf[q] == if off <= q < off + 4 * i then b[q - off] else x[q]
    {
      for j := 0 to 4
        invariant forall q :: 0 <= q < |x| ==> buf[q] == if off <= q < off + 4 * i + j then b[q - off] else x[q]
      {
        var p := 4 * i + j;
        assert b[p] == Xor(x[off + p], k[16 * round + p]);
        buf[off + p] := Xor(buf[off + p], rk[round * 16 + p]);
      }
    }
    PutIs(x, buf[..], off, b);
  }

  /** Whether the byte at p comes before row i of column j, taking row after row. */
  predicate Visited(p: nat, i: nat, j: nat) {
    p % 4 < i || (p % 4 == i && p < 4 * j)
  }

  /** `x` where the visited bytes of the block at `off` have become those of `b`. */
  ghost predicate Progress(x: seq<bv8>, y: seq<bv8>, off: nat, b: block, i: nat, j: nat)
    requires off + 16 <= |x|
  {
    && |y| == |x|
    && forall q :: 0 <= q < |x| ==> y[q] == if off <= q < off + 16 && Visited(q - off, i, j) then b[q - off] else x[q]
  }

  lemma ProgressStep(x: seq<bv8>, y: seq<bv8>, z: seq<bv8>, off: nat, b: block, i: nat, j: nat)
    requires off + 16 <= |x| && i < 4 && j < 4
    requires Progress(x, y, off, b, i, j)
    requires z == y[off + 4 * j + i := b[4 * j + i]]
    ensures y[off + 4 * j + i] == BlockAt(x, off)[4 * j + i]
    ensures Progress(x, z, off, b, i, j + 1)
  {
  }

  lemma RowDone(x: seq<bv8>, y: seq<bv8>, off: nat, b: block, i: nat)
    requires off + 16 <= |x| && Progress(x, y, off, b, i, 4)
    ensures Progress(x, y, off, b, i + 1, 0)
  {
  }

  /** The loop shared by the two substitutions. */
  method Substitute(table: bv8 -> bv8, buf: array<bv8>, off: nat)
    requires off + 16 <= buf.Length
    modifies buf
    ensures buf[..] == Put(old(buf[..]), off, Through(table, BlockAt(old(buf[..]), off)))
  {
    ghost var x, b := buf[..], Through(table, BlockAt(buf[..], off));
    for i := 0 to 4
      invariant Progress(x, buf[..], off, b, i, 0)
    {
      for j := 0 to 4
        invariant Progress(x, buf[..], off, b, i, j)
      {
        ghost var y := buf[..];
        ProgressStep(x, y, y[off + 4 * j + i := b[4 * j + i]], off, b, i, j);
        buf[off + 4 * j + i] := table(buf[off + 4 * j + i]);
        assert buf[..] == y[off + 4 * j + i := b[4 * j + i]];
      }
      RowDone(x, buf[..], off, b, i);
    }
    PutIs(x, buf[..], off, b);
  }

  method SubBytes(buf: array<bv8>, off: nat)
    requires off + 16 <= buf.Length
    modifies buf
    ensures buf[..] == Put(old(buf[..]), off, Sub(BlockAt(old(buf[..]), off)))
  {
    Substitute(Sbox, buf, off);
  }

  method InvSubBytes(buf: array<bv8>, off: nat)
    requires off + 16 <= buf.Length
    modifies buf
    ensures buf[..] == Put(old(buf[..]), off, InvSub(BlockAt(old(buf[..]), off)))
  {
    Substitute(Rsbox, buf, off);
  }

  /** The byte at p takes the place of the one at q, and so on round to p. */
  method Cycle(buf: array<bv8>, p: nat, q: nat, r: nat, u: nat)
    requires p < buf.Length && q < buf.Length && r < buf.Length && u < buf.Length
    requires p != q && p != r && p != u && q != r && q != u && r != u
    modifies buf
    ensures buf[p] == old(buf[q]) && buf[q] == old(buf[r]) && buf[r] == old(buf[u]) && buf[u] == old(buf[p])
    ensures forall k :: 0 <= k < buf.Length && k != p && k != q && k != r && k != u ==> buf[k] == old(buf[k])
  {
    var t := buf[p];
    buf[p] := buf[q];
    buf[q] := buf[r];
    buf[r] := buf[u];
    buf[u] := t;
  }

  method Swap(buf: array<bv8>, p: nat, q: nat)
    requires p < buf.Length && q < buf.Length
    modifies buf
    ensures buf[p] == old(buf[q]) && buf[q] == old(buf[p])
    ensures forall k :: 0 <= k < buf.Length && k != p && k != q ==> buf[k] == old(buf[k])
  {
    var t := buf[p];
    buf[p] := buf[q];
    buf[q] := t;
  }

  predicate SameRow(b: block, c: block, r: nat)
    requires r < 4
  {
    b[r] == c[r] && b[r + 4] == c[r + 4] && b[r + 8] == c[r + 8] && b[r + 12] == c[r + 12]
  }

  lemma RowsAre(b: block, c: block)
    requires SameRow(b, c, 0) && SameRow(b, c, 1) && SameRow(b, c, 2) && SameRow(b, c, 3)
    ensures b == c
  {
  }

  /** `b` is `s` with row r of column c taken from column `c0` for c = 0, and so on. */
  predicate RowFrom(s: block, b: block, r: nat, c0: nat, c1: nat, c2: nat, c3: nat)
    requires r < 4 && c0 < 4 && c1 < 4 && c2 < 4 && c3 < 4
  {
    && b[r] == s[4 * c0 + r] && b[r + 4] == s[4 * c1 + r] && b[r + 8] == s[4 * c2 + r] && b[r + 12] == s[4 * c3 + r]
  }

  lemma ShiftIs(s: block, b: block)
    requires RowFrom(s, b, 0, 0, 1, 2, 3) && RowFrom(s, b, 1, 1, 2, 3, 0)
    requires RowFrom(s, b, 2, 2, 3, 0, 1) && RowFrom(s, b, 3, 3, 0, 1, 2)
    ensures b == Shift(s)
  {
    RowsAre(b, Shift(s));
  }

  lemma InvShiftIs(s: block, b: block)
    requires RowFrom(s, b, 0, 0, 1, 2, 3) && RowFrom(s, b, 1, 3, 0, 1, 2)
    requires RowFrom(s, b, 2, 2, 3, 0, 1) && RowFrom(s, b, 3, 1, 2, 3, 0)
    ensures b == InvShift(s)
  {
    RowsAre(b, InvShift(s));
  }

  lemma PutAll(x: seq<bv8>, y: seq<bv8>, off: nat)
    requires |x| == |y| && off + 16 <= |x|
    requires forall k :: 0 <= k < |x| && !(off <= k < off + 16) ==> y[k] == x[k]
    ensures y == Put(x, off, BlockAt(y, off))
  {
  }

  method ShiftRows(buf: array<bv8>, off: nat)
    requires off + 16 <= buf.Length
    modifies buf
    ensures buf[..] == Put(old(buf[..]), off, Shift(BlockAt(old(buf[..]), off)))
  {
    ghost var x := buf[..];
    Cycle(buf, off + 1, off + 5, off + 9, off + 13);
    Swap(buf, off + 2, off + 10);
    Swap(buf, off + 6, off + 14);
    Cycle(buf, off + 3, off + 15, off + 11, off + 7);
    PutAll(x, buf[..], off);
    ShiftIs(BlockAt(x, off), BlockAt(buf[..], off));
  }

  method InvShiftRows(buf: array<bv8>, off: nat)
    requires off + 16 <= buf.Length
    modifies buf
    ensures buf[..] == Put(old(buf[..]), off, InvShift(BlockAt(old(buf[..]), off)))
  {
    ghost var x := buf[..];
    Cycle(buf, off + 13, off + 9, off + 5, off + 1);
    Swap(buf, off + 2, off + 10);
    Swap(buf, off + 6, off + 14);
    Cycle(buf, off + 3, off + 7, off + 11, off + 15);
    PutAll(x, buf[..], off);
    InvShiftIs(BlockAt(x, off), BlockAt(buf[..], off));
  }

  /** Column c of `b`, at position o of `y`. */
  ghost predicate ColumnAt(y: seq<bv8>, o: nat, b: block, c: nat)
    requires c <= 12 && o + 4 <= |y|
  {
    y[o] == b[c] && y[o + 1] == b[c + 1] && y[o + 2] == b[c + 2] && y[o + 3] == b[c + 3]
  }

  lemma MixedAre(h: RowMix, s: block, c: nat)
    requires c == 0 || c == 4 || c == 8 || c == 12
    ensures var p, q, r, t := s[c], s[c + 1], s[c + 2], s[c + 3];
            && MixWith(h, s)[c] == h(p, q, r, t) && MixWith(h, s)[c + 1] == h(q, r, t, p)
            && MixWith(h, s)[c + 2] == h(r, t, p, q) && MixWith(h, s)[c + 3] == h(t, p, q, r)
  {
  }

  /** `f` is `g`; the trigger keeps what `g` computes out of the loops below. */
  ghost predicate Stands(f: block -> block, g: block -> block) {
    forall s: block {:trigger g(s)} :: f(s) == g(s)
  }

  lemma MixRows(a: bv8, b: bv8, c: bv8, d: bv8)
    ensures var sum := Xor4(a, b, c, d);
            && MixRow(a, b, c, d) == MixByte(a, b, sum) && MixRow(b, c, d, a) == MixByte(b, c, sum)
            && MixRow(c, d, a, b) == MixByte(c, d, sum) && MixRow(d, a, b, c) == MixByte(d, a, sum)
  {
    Rotates(a, b, c, d);
    Rotates(b, c, d, a);
    Rotates(c, d, a, b);
  }

  /** One turn of the loop of MixColumns, on the column at o. */
  method MixColumn(buf: array<bv8>, o: nat, ghost s: block, ghost f: block -> block, ghost c: nat)
    requires o + 4 <= buf.Length && (c == 0 || c == 4 || c == 8 || c == 12)
    requires ColumnAt(buf[..], o, s, c) && Stands(f, Mix)
    modifies buf
    ensures ColumnAt(buf[..], o, f(s), c)
    ensures forall q :: 0 <= q < buf.Length && !(o <= q < o + 4) ==> buf[q] == old(buf[q])
  {
    MixRows(buf[o], buf[o + 1], buf[o + 2], buf[o + 3]);
    MixedAre(MixRow, s, c);
    assert f(s) == Mix(s);
    var t := buf[o];
    var tmp := Xor4(buf[o], buf[o + 1], buf[o + 2], buf[o + 3]);
    buf[o] := MixByte(buf[o], buf[o + 1], tmp);
    buf[o + 1] := MixByte(buf[o + 1], buf[o + 2], tmp);
    buf[o + 2] := MixByte(buf[o + 2], buf[o + 3], tmp);
    buf[o + 3] := MixByte(buf[o + 3], t, tmp);
  }

  /** One turn of the loop of InvMixColumns. */
  method InvMixColumn(buf: array<bv8>, o: nat, ghost s: block, ghost f: block -> block, ghost c: nat)
    requires o + 4 <= buf.Length && (c == 0 || c == 4 || c == 8 || c == 12)
    requires ColumnAt(buf[..], o, s, c) && Stands(f, InvMix)
    modifies buf
    ensures ColumnAt(buf[..], o, f(s), c)
    ensures forall q :: 0 <= q < buf.Length && !(o <= q < o + 4) ==> buf[q] == old(buf[q])
  {
    MixedAre(InvMixByte, s, c);
    assert f(s) == InvMix(s);
    var p, q, r, t := buf[o], buf[o + 1], buf[o + 2], buf[o + 3];
    buf[o] := InvMixByte(p, q, r, t);
    buf[o + 1] := InvMixByte(q, r, t, p);
    buf[o + 2] := InvMixByte(r, t, p, q);
    buf[o + 3] := InvMixByte(t, p, q, r);
  }

  /** `x` where the first n columns of the block at `off` have become those of `b`. */
  ghost predicate Filled(x: seq<bv8>, y: seq<bv8>, off: nat, b: block, n: nat)
    requires off + 16 <= |x| && n <= 4
  {
    && |y| == |x|
    && forall q :: 0 <= q < |x| ==> y[q] == if off <= q < off + 4 * n then b[q - off] else x[q]
  }

  lemma FilledNext(x: seq<bv8>, y: seq<bv8>, z: seq<bv8>, off: nat, b: block, n: nat)
    requires off + 16 <= |x| && n < 4 && Filled(x, y, off, b, n) && |z| == |y|
    requires forall q :: 0 <= q < |y| && !(off + 4 * n <= q < off + 4 * n + 4) ==> z[q] == y[q]
    requires ColumnAt(z, off + 4 * n, b, 4 * n)
    ensures Filled(x, z, off, b, n + 1)
  {
  }

  lemma NotYet(x: seq<bv8>, y: seq<bv8>, off: nat, b: block, n: nat)
    requires off + 16 <= |x| && n < 4 && Filled(x, y, off, b, n)
    ensures ColumnAt(y, off + 4 * n, BlockAt(x, off), 4 * n)
  {
  }

  /** The four columns; `f` is the column mix under a name that does not unfold. */
  method MixColumnsBy(buf: array<bv8>, off: nat, ghost f: block -> block)
    requires off + 16 <= buf.Length && Stands(f, Mix)
    modifies buf
    ensures buf[..] == Put(old(buf[..]), off, f(BlockAt(old(buf[..]), off)))
  {
    ghost var x, s := buf[..], BlockAt(buf[..], off);
    for i := 0 to 4
      invariant Filled(x, buf[..], off, f(s), i)
    {
      ghost var y := buf[..];
      NotYet(x, y, off, f(s), i);
      MixColumn(buf, off + 4 * i, s, f, 4 * i);
      FilledNext(x, y, buf[..], off, f(s), i);
    }
    PutIs(x, buf[..], off, f(s));
  }

  method InvMixColumnsBy(buf: array<bv8>, off: nat, ghost f: block -> block)
    requires off + 16 <= buf.Length && Stands(f, InvMix)
    modifies buf
    ensures buf[..] == Put(old(buf[..]), off, f(BlockAt(old(buf[..]), off)))
  {
    ghost var x, s := buf[..], BlockAt(buf[..], off);
    for i := 0 to 4
      invariant Filled(x, buf[..], off, f(s), i)
    {
      ghost var y := buf[..];
      NotYet(x, y, off, f(s), i);
      InvMixColumn(buf, off + 4 * i, s, f, 4 * i);
      FilledNext(x, y, buf[..], off, f(s), i);
    }
    PutIs(x, buf[..], off, f(s));
  }

  method MixColumns(buf: array<bv8>, off: nat)
    requires off + 16 <= buf.Length
    modifies buf
    ensures buf[..] == Put(old(buf[..]), off, Mix(BlockAt(old(buf[..]), off)))
  {
    MixColumnsBy(buf, off, Mix);
  }

  method InvMixColumns(buf: array<bv8>, off: nat)
    requires off + 16 <= buf.Length
    modifies buf
    ensures buf[..] == Put(old(buf[..]), off, InvMix(BlockAt(old(buf[..]), off)))
  {
    InvMixColumnsBy(buf, off, InvMix);
  }

  // What the methods below change is the block at `off` of a buffer that is `x` elsewhere.

  method ScrambleBlock(buf: array<bv8>, off: nat, ghost x: seq<bv8>, ghost e: block)
    requires off + 16 <= buf.Length == |x| && buf[..] == Put(x, off, e)
    modifies buf
    ensures buf[..] == Put(x, off, Scramble(e))
  {
    SubBytes(buf, off);
    PutAgain(x, off, e, Sub(e));
    ShiftRows(buf, off);
    PutAgain(x, off, Sub(e), Scramble(e));
  }

  ghost predicate IsStep(f: Step, g: Step) {
    forall s: block, n: nat {:trigger g(s, n)} :: f(s, n) == g(s, n)
  }

  method RoundBlock(rk: array<bv8>, round: nat, buf: array<bv8>, off: nat, ghost x: seq<bv8>, ghost e: block,
          ghost f: Step)
    requires off + 16 <= buf.Length == |x| && rk.Length == 176 && buf != rk && round <= 10
    requires buf[..] == Put(x, off, e) && IsStep(f, Round(rk[..]))
    modifies buf
    ensures buf[..] == Put(x, off, f(e, round))
  {
    assert f(e, round) == Round(rk[..])(e, round);
    ghost var s := Scramble(e);
    ScrambleBlock(buf, off, x, e);
    MixColumns(buf, off);
    PutAgain(x, off, s, Mix(s));
    AddRoundKey(round, buf, off, rk);
    PutAgain(x, off, Mix(s), AddKey(Mix(s), rk[..], round));
  }

  method UnscrambleBlock(buf: array<bv8>, off: nat, ghost x: seq<bv8>, ghost e: block)
    requires off + 16 <= buf.Length == |x| && buf[..] == Put(x, off, e)
    modifies buf
    ensures buf[..] == Put(x, off, Unscramble(e))
  {
    InvShiftRows(buf, off);
    PutAgain(x, off, e, InvShift(e));
    InvSubBytes(buf, off);
    PutAgain(x, off, InvShift(e), Unscramble(e));
  }

  method UnroundBlock(rk: array<bv8>, round: nat, buf: array<bv8>, off: nat, ghost x: seq<bv8>, ghost e: block,
          ghost g: Step)
    requires off + 16 <= buf.Length == |x| && rk.Length == 176 && buf != rk && round <= 10
    requires buf[..] == Put(x, off, e) && IsStep(g, InvRound(rk[..]))
    modifies buf
    ensures buf[..] == Put(x, off, g(e, round))
  {
    assert g(e, round) == InvRound(rk[..])(e, round);
    ghost var s, k := Unscramble(e), rk[..];
    UnscrambleBlock(buf, off, x, e);
    AddRoundKey(round, buf, off, rk);
    PutAgain(x, off, s, AddKey(s, k, round));
    InvMixColumns(buf, off);
    PutAgain(x, off, AddKey(s, k, round), InvMix(AddKey(s, k, round)));
  }

  method MiddleRounds(rk: array<bv8>, buf: array<bv8>, off: nat, n: nat, ghost x: seq<bv8>, ghost t: block,
          ghost f: Step)
    requires off + 16 <= buf.Length == |x| && rk.Length == 176 && buf != rk && n < 10
    requires buf[..] == Put(x, off, t) && IsStep(f, Round(rk[..]))
    modifies buf
    ensures buf[..] == Put(x, off, Forwards(f, t, n))
  {
    for round := 1 to n + 1
      invariant buf[..] == Put(x, off, Forwards(f, t, round - 1))
    {
      RoundBlock(rk, round, buf, off, x, Forwards(f, t, round - 1), f);
    }
  }

  method MiddleUnrounds(rk: array<bv8>, buf: array<bv8>, off: nat, n: nat, ghost x: seq<bv8>, ghost t: block,
          ghost g: Step)
    requires off + 16 <= buf.Length == |x| && rk.Length == 176 && buf != rk && n < 10
    requires buf[..] == Put(x, off, t) && IsStep(g, InvRound(rk[..]))
    modifies buf
    ensures buf[..] == Put(x, off, Backwards(g, t, n))
  {
    ghost var e := t;
    var round := n;
    while round > 0
      invariant 0 <= round <= n && buf[..] == Put(x, off, e)
      invariant Backwards(g, e, round) == Backwards(g, t, n)
    {
      UnroundBlock(rk, round, buf, off, x, e, g);
      e := g(e, round);
      round := round - 1;
    }
  }

  method EncryptBlock(rk: array<bv8>, buf: array<bv8>, off: nat)
    requires off + 16 <= buf.Length && rk.Length == 176 && buf != rk
    modifies buf
    ensures buf[..] == Put(old(buf[..]), off, Encrypt(rk[..], BlockAt(old(buf[..]), off)))
  {
    ghost var x, k := buf[..], rk[..];
    AddRoundKey(0, buf, off, rk);
    ghost var t := AddKey(BlockAt(x, off), k, 0);
    MiddleRounds(rk, buf, off, 9, x, t, Round(k));
    ghost var e := Forwards(Round(k), t, 9);
    ScrambleBlock(buf, off, x, e);
    AddRoundKey(10, buf, off, rk);
    PutAgain(x, off, Scramble(e), AddKey(Scramble(e), k, 10));
  }

  method DecryptBlock(rk: array<bv8>, buf: array<bv8>, off: nat)
    requires off + 16 <= buf.Length && rk.Length == 176 && buf != rk
    modifies buf
    ensures buf[..] == Put(old(buf[..]), off, Decrypt(rk[..], BlockAt(old(buf[..]), off)))
  {
    ghost var x, k := buf[..], rk[..];
    AddRoundKey(10, buf, off, rk);
    ghost var t := AddKey(BlockAt(x, off), k, 10);
    MiddleUnrounds(rk, buf, off, 9, x, t, InvRound(k));
    ghost var e := Backwards(InvRound(k), t, 9);
    UnscrambleBlock(buf, off, x, e);
    AddRoundKey(0, buf, off, rk);
    PutAgain(x, off, Unscramble(e), AddKey(Unscramble(e), k, 0));
  }

  // ---------------------------------------------------------------- key expansion (section 5.2 of FIPS 197)

  const RCON: seq<bv8> := [0x8d, 0x01, 0x02, 0x04, 0x08, 0x10, 0x20, 0x40, 0x80, 0x1b, 0x36]

  type key128 = k: seq<bv8> | |k| == 16 witness seq(16, _ => 0)

  datatype Word = Word(b0: bv8, b1: bv8, b2: bv8, b3: bv8)

  function RotWord(w: Word): Word { Word(w.b1, w.b2, w.b3, w.b0) }

  function SubWord(w: Word): Word { Word(Sbox(w.b0), Sbox(w.b1), Sbox(w.b2), Sbox(w.b3)) }

  function AddWord(v: Word, w: Word): Word {
    Word(Xor(v.b0, w.b0), Xor(v.b1, w.b1), Xor(v.b2, w.b2), Xor(v.b3, w.b3))
  }

  /** What is added to the word four before word i, when `w` is the word before it. */
  function Temp(w: Word, i: nat): Word
    requires i < 44
  {
    if i % 4 == 0 then AddWord(SubWord(RotWord(w)), Word(RCON[i / 4], 0, 0, 0)) else w
  }

  function WordAt(s: seq<bv8>, i: nat): Word
    requires 4 * i + 4 <= |s|
  {
    Word(s[4 * i], s[4 * i + 1], s[4 * i + 2], s[4 * i + 3])
  }

  function KeyWord(key: key128, i: nat): Word
    requires i < 44
    decreases i
  {
    if i < 4 then WordAt(key, i) else AddWord(KeyWord(key, i - 4), Temp(KeyWord(key, i - 1), i))
  }

  function ByteOfWord(w: Word, c: nat): bv8 {
    if c == 0 then w.b0 else if c == 1 then w.b1 else if c == 2 then w.b2 else w.b3
  }

  function Flat(w: seq<Word>): schedule
    requires |w| == 44
  {
    seq(176, p requires 0 <= p < 176 => ByteOfWord(w[p / 4], p % 4))
  }

  function Expanded(key: key128): schedule {
    Flat(seq(44, i requires 0 <= i < 44 => KeyWord(key, i)))
  }

  lemma FlatIs(w: seq<Word>, s: schedule)
    requires |w| == 44 && forall i :: 0 <= i < 44 ==> WordAt(s, i) == w[i]
    ensures s == Flat(w)
  {
    forall p | 0 <= p < 176
      ensures s[p] == Flat(w)[p]
    {
      var i := p / 4;
      assert WordAt(s, i) == w[i] && s[p] == ByteOfWord(WordAt(s, i), p % 4);
    }
  }

  method StoreWord(rk: array<bv8>, i: nat, w: Word)
    requires 4 * i + 4 <= rk.Length
    modifies rk
    ensures WordAt(rk[..], i) == w
    ensures forall j: nat :: 4 * j + 4 <= rk.Length && j != i ==> WordAt(rk[..], j) == old(WordAt(rk[..], j))
  {
    rk[4 * i], rk[4 * i + 1], rk[4 * i + 2], rk[4 * i + 3] := w.b0, w.b1, w.b2, w.b3;
  }

  method KeyExpansion(rk: array<bv8>, key: key128)
    requires rk.Length == 176
    modifies rk
    ensures rk[..] == Expanded(key)
  {
    for i := 0 to 4
      invariant forall j :: 0 <= j < i ==> WordAt(rk[..], j) == KeyWord(key, j)
    {
      StoreWord(rk, i, WordAt(key, i));
    }
    for i := 4 to 44
      invariant forall j :: 0 <= j < i ==> WordAt(rk[..], j) == KeyWord(key, j)
    {
      var t := WordAt(rk[..], i - 1);
      if i % 4 == 0 {
        t := SubWord(RotWord(t));
        t := AddWord(t, Word(RCON[i / 4], 0, 0, 0));
      }
      StoreWord(rk, i, AddWord(WordAt(rk[..], i - 4), t));
    }
    FlatIs(seq(44, i requires 0 <= i < 44 => KeyWord(key, i)), rk[..]);
  }

  // ---------------------------------------------------------------- electronic code book

  /** `f` on every whole block; a shorter tail is left as it is. */
  function Ecb(f: block -> block, s: seq<bv8>): (r: seq<bv8>)
    ensures |r| == |s|
    decreases |s|
  {
    if |s| < 16 then s else f(s[..16]) + Ecb(f, s[16..])
  }

  lemma {:induction false} EcbInverts(f: block -> block, g: block -> block, s: seq<bv8>)
    requires forall b: block :: g(f(b)) == b
    ensures Ecb(g, Ecb(f, s)) == s
    decreases |s|
  {
    if |s| >= 16 {
      var b: block := s[..16];
      var r := Ecb(f, s);
      assert r[..16] == f(b) && r[16..] == Ecb(f, s[16..]);
      EcbInverts(f, g, s[16..]);
    }
  }

  /** One more block at the end of n whole ones. */
  lemma {:induction false} EcbNext(f: block -> block, a: seq<bv8>, b: seq<bv8>, n: nat)
    requires |a| == 16 * n
    ensures Ecb(f, a + b) == Ecb(f, a) + Ecb(f, b)
    decreases n
  {
    if n == 0 {
      assert a + b == b;
    } else {
      assert (a + b)[..16] == a[..16] && (a + b)[16..] == a[16..] + b;
      EcbNext(f, a[16..], b, n - 1);
    }
  }

  function Encryption(k: schedule): block -> block {
    (s: block) => Encrypt(k, s)
  }

  function Decryption(k: schedule): block -> block {
    (s: block) => Decrypt(k, s)
  }

  /** Once the n blocks before `off` are done, doing the block at `off`. */
  lemma EcbStep(f: block -> block, x: seq<bv8>, y: seq<bv8>, z: seq<bv8>, off: nat, n: nat)
    requires off == 16 * n && off + 16 <= |x|
    requires y == Ecb(f, x[..off]) + x[off..]
    requires z == Put(y, off, f(BlockAt(y, off)))
    ensures z == Ecb(f, x[..off + 16]) + x[off + 16..]
  {
    var b := x[off..off + 16];
    assert y[..off] == Ecb(f, x[..off]) && y[off..] == x[off..];
    assert BlockAt(y, off) == y[off..][..16] == b;
    assert y[off + 16..] == y[off..][16..] == x[off + 16..];
    assert x[..off + 16] == x[..off] + b;
    EcbNext(f, x[..off], b, n);
    assert Ecb(f, b) == f(b) by {
      assert b[..16] == b && b[16..] == [];
    }
  }

  lemma EcbEnd(f: block -> block, x: seq<bv8>, n: nat, len: nat)
    requires 16 * n <= len < 16 * n + 16 && len <= |x|
    ensures Ecb(f, x[..16 * n]) + x[16 * n..] == Ecb(f, x[..len]) + x[len..]
  {
    var tail := x[16 * n..len];
    assert x[..len] == x[..16 * n] + tail && x[16 * n..] == tail + x[len..];
    EcbNext(f, x[..16 * n], tail, n);
  }

  method EcbEncrypt(rk: array<bv8>, buf: array<bv8>, len: nat)
    requires len <= buf.Length && rk.Length == 176 && buf != rk
    modifies buf
    ensures buf[..] == Ecb(Encryption(rk[..]), old(buf[..len])) + old(buf[len..])
  {
    ghost var x, f := buf[..], Encryption(rk[..]);
    var off := 0;
    ghost var n := 0;
    while off + 16 <= len
      invariant off == 16 * n <= len && buf[..] == Ecb(f, x[..off]) + x[off..]
    {
      ghost var y := buf[..];
      EncryptBlock(rk, buf, off);
      EcbStep(f, x, y, buf[..], off, n);
      off := off + 16;
      n := n + 1;
    }
    EcbEnd(f, x, n, len);
  }

  method EcbDecrypt(rk: array<bv8>, buf: array<bv8>, len: nat)
    requires len <= buf.Length && rk.Length == 176 && buf != rk
    modifies buf
    ensures buf[..] == Ecb(Decryption(rk[..]), old(buf[..len])) + old(buf[len..])
  {
    ghost var x, f := buf[..], Decryption(rk[..]);
    var off := 0;
    ghost var n := 0;
    while off + 16 <= len
      invariant off == 16 * n <= len && buf[..] == Ecb(f, x[..off]) + x[off..]
    {
      ghost var y := buf[..];
      DecryptBlock(rk, buf, off);
      EcbStep(f, x, y, buf[..], off, n);
      off := off + 16;
      n := n + 1;
    }
    EcbEnd(f, x, n, len);
  }

  /** Decrypting a buffer undoes encrypting it, for every schedule and every buffer. */
  lemma EcbDecryptInverts(k: schedule, s: seq<bv8>)
    ensures Ecb(Decryption(k), Ecb(Encryption(k), s)) == s
  {
    forall b: block
      ensures Decryption(k)(Encryption(k)(b)) == b
    {
      DecryptInverts(k, b);
    }
    EcbInverts(Encryption(k), Decryption(k), s);
  }

  // ---------------------------------------------------------------- the bytes of the rest of the program

  function Bits(s: seq<byte>): (r: seq<bv8>)
    ensures |r| == |s|
  {
    seq(|s|, i requires 0 <= i < |s| => s[i] as bv8)
  }

  function Octets(s: seq<bv8>): (r: seq<byte>)
    ensures |r| == |s|
  {
    seq(|s|, i requires 0 <= i < |s| => s[i] as int)
  }

  function Encrypted(key: seq<byte>, s: seq<byte>): (r: seq<byte>)
    requires |key| == 16
    ensures |r| == |s|
  {
    Octets(Ecb(Encryption(Expanded(Bits(key))), Bits(s)))
  }

  function Decrypted(key: seq<byte>, s: seq<byte>): (r: seq<byte>)
    requires |key| == 16
    ensures |r| == |s|
  {
    Octets(Ecb(Decryption(Expanded(Bits(key))), Bits(s)))
  }

  lemma BitsOf(x: bv8)
    ensures (x as int) as bv8 == x
  {
  }

  lemma Successor(x: bv8)
    requires x < 255
    ensures (x + 1) as int == x as int + 1
  {
  }

  lemma {:induction false} SomeBits(b: nat) returns (x: bv8)
    requires b < 256
    ensures x as int == b
    decreases b
  {
    x := 0;
    if b > 0 {
      var y := SomeBits(b - 1);
      Successor(y);
      x := y + 1;
    }
  }

  lemma ByteOf(b: byte)
    ensures (b as bv8) as int == b
  {
    var x := SomeBits(b);
    BitsOf(x);
  }

  /** For every key and every buffer of bytes. */
  lemma DecryptedIs(key: seq<byte>, s: seq<byte>)
    requires |key| == 16
    ensures Decrypted(key, Encrypted(key, s)) == s
  {
    var k := Expanded(Bits(key));
    var e := Ecb(Encryption(k), Bits(s));
    assert Bits(Octets(e)) == e by {
      forall i | 0 <= i < |e|
        ensures Bits(Octets(e))[i] == e[i]
      {
        BitsOf(e[i]);
      }
    }
    EcbDecryptInverts(k, Bits(s));
    forall i | 0 <= i < |s|
      ensures Octets(Bits(s))[i] == s[i]
    {
      ByteOf(s[i]);
    }
  }

  method ToBits(s: seq<byte>) returns (a: array<bv8>)
    ensures fresh(a) && a[..] == Bits(s)
  {
    a := new bv8[|s|];
    for i := 0 to |s|
      invariant a[..i] == Bits(s)[..i]
    {
      a[i] := s[i] as bv8;
    }
  }

  /** Encrypts a copy of `s`. */
  method EncryptBytes(key: seq<byte>, s: seq<byte>) returns (r: seq<byte>)
    requires |key| == 16
    ensures r == Encrypted(key, s)
  {
    var rk := new bv8[176];
    KeyExpansion(rk, Bits(key));
    var buf := ToBits(s);
    ghost var x := buf[..];
    EcbEncrypt(rk, buf, |s|);
    assert buf[..] == Ecb(Encryption(rk[..]), x) by { assert x[..|s|] == x; }
    r := Octets(buf[..]);
  }

  method DecryptBytes(key: seq<byte>, s: seq<byte>) returns (r: seq<byte>)
    requires |key| == 16
    ensures r == Decrypted(key, s)
  {
    var rk := new bv8[176];
    KeyExpansion(rk, Bits(key));
    var buf := ToBits(s);
    ghost var x := buf[..];
    EcbDecrypt(rk, buf, |s|);
    assert buf[..] == Ecb(Decryption(rk[..]), x) by { assert x[..|s|] == x; }
    r := Octets(buf[..]);
  }
}
