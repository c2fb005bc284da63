/**
 The constants and the bit operations of SHA-256, from what sections 4.1.2, 4.2.2 and 5.3.3 of FIPS 180-4 say
 they are.
 */
module Fips180 {

  import opened Bytes
  import opened Bitwise
  import opened Replay
  import opened Sha256

  // ---------------------------------------------------------------- the first 64 primes

  const PRIMES_0: seq<nat> := [2, 3, 5, 7, 11, 13, 17, 19, 23, 29, 31, 37, 41, 43, 47, 53]
  const PRIMES_1: seq<nat> := [59, 61, 67, 71, 73, 79, 83, 89, 97, 101, 103, 107, 109, 113, 127, 131]
  const PRIMES_2: seq<nat> := [137, 139, 149, 151, 157, 163, 167, 173, 179, 181, 191, 193, 197, 199, 211, 223]
  const PRIMES_3: seq<nat> := [227, 229, 233, 239, 241, 251, 257, 263, 269, 271, 277, 281, 283, 293, 307, 311]

  const PRIMES: seq<nat> := PRIMES_0 + PRIMES_1 + PRIMES_2 + PRIMES_3

  predicate IsPrime(p: nat) {
    p >= 2 && forall d :: 2 <= d < p ==> p % d != 0
  }

  /** 2, 3, 5, 7, 11, 13 or 17 divides it, and is not it. */
  predicate HasDivisor(a: nat) {
    || (a > 2 && a % 2 == 0) || (a > 3 && a % 3 == 0) || (a > 5 && a % 5 == 0) || (a > 7 && a % 7 == 0)
    || (a > 11 && a % 11 == 0) || (a > 13 && a % 13 == 0) || (a > 17 && a % 17 == 0)
  }

  lemma SmallDivisor(p: nat, d: nat)
    requires 2 <= d <= 18 && d < p && !HasDivisor(p)
    ensures p % d != 0
  {
    if p % d == 0 {
      Multiple(p, d, p / d);
    }
  }

  lemma Multiple(p: nat, d: nat, e: nat)
    requires 2 <= d <= 18 && d < p && p == d * e
    ensures HasDivisor(p)
  {
    if d % 2 == 0 {
      Through(p, d, 2, e, d / 2);
    } else if d % 3 == 0 {
      Through(p, d, 3, e, d / 3);
    } else {
      Through(p, d, d, e, 1);
    }
  }

  lemma Through(p: nat, d: nat, q: nat, e: nat, f: nat)
    requires q > 0 && p == d * e && d == q * f
    ensures p % q == 0
  {
    assert d * e == q * (f * e);
    RemainderIs(p, q, f * e, 0);
  }

  /** Trial division by the primes up to 17 decides below 19 * 19. */
  lemma SmallPrime(p: nat)
    requires 2 <= p < 361
    ensures IsPrime(p) <==> !HasDivisor(p)
  {
    if !HasDivisor(p) {
      forall d | 2 <= d < p
        ensures p % d != 0
      {
        if d <= 18 {
          SmallDivisor(p, d);
        } else if p % d == 0 {
          Cofactor(p, d, p / d);
          SmallDivisor(p, p / d);
        }
      }
    }
  }

  lemma Cofactor(p: nat, d: nat, e: nat)
    requires 19 <= d < p < 361 && p == d * e
    ensures 2 <= e <= 18 && p % e == 0
  {
    if e >= 19 {
      ProductOrder(19, e, d);
    } else if e <= 1 {
      ProductOrder(e, 1, d);
    }
    RemainderIs(p, e, d, 0);
  }

  /** None of the numbers from a up to b is prime. */
  predicate Composites(a: nat, b: nat)
    decreases b - a
  {
    a >= b || (HasDivisor(a) && Composites(a + 1, b))
  }

  lemma {:induction false} NonePrime(a: nat, b: nat, c: nat)
    requires 2 <= a <= c < b <= 361 && Composites(a, b)
    ensures !IsPrime(c)
    decreases b - a
  {
    SmallPrime(a);
    if a < c {
      NonePrime(a + 1, b, c);
    }
  }

  /** Entry i is prime, and there is no prime between it and the one before. */
  predicate Follows(ps: seq<nat>, i: nat)
    requires i < |ps|
  {
    && 2 <= ps[i] < 361 && !HasDivisor(ps[i])
    && if i == 0 then ps[i] == 2 else ps[i - 1] < ps[i] && Composites(ps[i - 1] + 1, ps[i])
  }

  lemma Values0()
    ensures PRIMES[0] == 2 && PRIMES[1] == 3 && PRIMES[2] == 5 && PRIMES[3] == 7
    ensures PRIMES[4] == 11 && PRIMES[5] == 13 && PRIMES[6] == 17 && PRIMES[7] == 19
    ensures PRIMES[8] == 23 && PRIMES[9] == 29 && PRIMES[10] == 31 && PRIMES[11] == 37
    ensures PRIMES[12] == 41 && PRIMES[13] == 43 && PRIMES[14] == 47 && PRIMES[15] == 53
  {
  }

  lemma Gaps0()
    ensures !HasDivisor(2) && !HasDivisor(3) && !HasDivisor(5) && !HasDivisor(7)
    ensures !HasDivisor(11) && !HasDivisor(13) && !HasDivisor(17) && !HasDivisor(19)
    ensures !HasDivisor(23) && !HasDivisor(29) && !HasDivisor(31) && !HasDivisor(37)
    ensures !HasDivisor(41) && !HasDivisor(43) && !HasDivisor(47) && !HasDivisor(53)
    ensures Composites(3, 3)
    ensures Composites(4, 5)
    ensures Composites(6, 7)
    ensures Composites(8, 11)
    ensures Composites(12, 13)
    ensures Composites(14, 17)
    ensures Composites(18, 19)
    ensures Composites(20, 23)
    ensures Composites(24, 29)
    ensures Composites(30, 31)
    ensures Composites(32, 37)
    ensures Composites(38, 41)
    ensures Composites(42, 43)
    ensures Composites(44, 47)
    ensures Composites(48, 53)
  {
  }

  lemma Follows0(i: nat)
    requires 0 <= i < 16
    ensures Follows(PRIMES, i)
  {
    Values0();
    Gaps0();
  }

  lemma Values1()
    ensures PRIMES[15] == 53 && PRIMES[16] == 59 && PRIMES[17] == 61 && PRIMES[18] == 67
    ensures PRIMES[19] == 71 && PRIMES[20] == 73 && PRIMES[21] == 79 && PRIMES[22] == 83
    ensures PRIMES[23] == 89 && PRIMES[24] == 97 && PRIMES[25] == 101 && PRIMES[26] == 103
    ensures PRIMES[27] == 107 && PRIMES[28] == 109 && PRIMES[29] == 113 && PRIMES[30] == 127
    ensures PRIMES[31] == 131
  {
  }

  lemma Gaps1()
    ensures !HasDivisor(59) && !HasDivisor(61) && !HasDivisor(67) && !HasDivisor(71)
    ensures !HasDivisor(73) && !HasDivisor(79) && !HasDivisor(83) && !HasDivisor(89)
    ensures !HasDivisor(97) && !HasDivisor(101) && !HasDivisor(103) && !HasDivisor(107)
    ensures !HasDivisor(109) && !HasDivisor(113) && !HasDivisor(127) && !HasDivisor(131)
    ensures Composites(54, 59)
    ensures Composites(60, 61)
    ensures Composites(62, 67)
    ensures Composites(68, 71)
    ensures Composites(72, 73)
    ensures Composites(74, 79)
    ensures Composites(80, 83)
    ensures Composites(84, 89)
    ensures Composites(90, 97)
    ensures Composites(98, 101)
    ensures Composites(102, 103)
    ensures Composites(104, 107)
    ensures Composites(108, 109)
    ensures Composites(110, 113)
    ensures Composites(114, 127)
    ensures Composites(128, 131)
  {
  }

  lemma Follows1(i: nat)
    requires 16 <= i < 32
    ensures Follows(PRIMES, i)
  {
    Values1();
    Gaps1();
  }

  lemma Values2()
    ensures PRIMES[31] == 131 && PRIMES[32] == 137 && PRIMES[33] == 139 && PRIMES[34] == 149
    ensures PRIMES[35] == 151 && PRIMES[36] == 157 && PRIMES[37] == 163 && PRIMES[38] == 167
    ensures PRIMES[39] == 173 && PRIMES[40] == 179 && PRIMES[41] == 181 && PRIMES[42] == 191
    ensures PRIMES[43] == 193 && PRIMES[44] == 197 && PRIMES[45] == 199 && PRIMES[46] == 211
    ensures PRIMES[47] == 223
  {
  }

  lemma Gaps2()
    ensures !HasDivisor(137) && !HasDivisor(139) && !HasDivisor(149) && !HasDivisor(151)
    ensures !HasDivisor(157) && !HasDivisor(163) && !HasDivisor(167) && !HasDivisor(173)
    ensures !HasDivisor(179) && !HasDivisor(181) && !HasDivisor(191) && !HasDivisor(193)
    ensures !HasDivisor(197) && !HasDivisor(199) && !HasDivisor(211) && !HasDivisor(223)
    ensures Composites(132, 137)
    ensures Composites(138, 139)
    ensures Composites(140, 149)
    ensures Composites(150, 151)
    ensures Composites(152, 157)
    ensures Composites(158, 163)
    ensures Composites(164, 167)
    ensures Composites(168, 173)
    ensures Composites(174, 179)
    ensures Composites(180, 181)
    ensures Composites(182, 191)
    ensures Composites(192, 193)
    ensures Composites(194, 197)
    ensures Composites(198, 199)
    ensures Composites(200, 211)
    ensures Composites(212, 223)
  {
  }

  lemma Follows2(i: nat)
    requires 32 <= i < 48
    ensures Follows(PRIMES, i)
  {
    Values2();
    Gaps2();
  }

  lemma Values3()
    ensures PRIMES[47] == 223 && PRIMES[48] == 227 && PRIMES[49] == 229 && PRIMES[50] == 233
    ensures PRIMES[51] == 239 && PRIMES[52] == 241 && PRIMES[53] == 251 && PRIMES[54] == 257
    ensures PRIMES[55] == 263 && PRIMES[56] == 269 && PRIMES[57] == 271 && PRIMES[58] == 277
    ensures PRIMES[59] == 281 && PRIMES[60] == 283 && PRIMES[61] == 293 && PRIMES[62] == 307
    ensures PRIMES[63] == 311
  {
  }

  lemma Gaps3()
    ensures !HasDivisor(227) && !HasDivisor(229) && !HasDivisor(233) && !HasDivisor(239)
    ensures !HasDivisor(241) && !HasDivisor(251) && !HasDivisor(257) && !HasDivisor(263)
    ensures !HasDivisor(269) && !HasDivisor(271) && !HasDivisor(277) && !HasDivisor(281)
    ensures !HasDivisor(283) && !HasDivisor(293) && !HasDivisor(307) && !HasDivisor(311)
    ensures Composites(224, 227)
    ensures Composites(228, 229)
    ensures Composites(230, 233)
    ensures Composites(234, 239)
    ensures Composites(240, 241)
    ensures Composites(242, 251)
    ensures Composites(252, 257)
    ensures Composites(258, 263)
    ensures Composites(264, 269)
    ensures Composites(270, 271)
    ensures Composites(272, 277)
    ensures Composites(278, 281)
    ensures Composites(282, 283)
    ensures Composites(284, 293)
    ensures Composites(294, 307)
    ensures Composites(308, 311)
  {
  }

  lemma Follows3(i: nat)
    requires 48 <= i < 64
    ensures Follows(PRIMES, i)
  {
    Values3();
    Gaps3();
  }

  lemma ListFollows(i: nat)
    requires i < 64
    ensures Follows(PRIMES, i)
  {
    if i < 16 {
      Follows0(i);
    } else if i < 32 {
      Follows1(i);
    } else if i < 48 {
      Follows2(i);
    } else {
      Follows3(i);
    }
  }

  /** The first i + 1 entries are, in order, the primes up to the last of them. */
  predicate FirstPrimes(ps: seq<nat>, i: nat)
    requires i < |ps|
  {
    && (forall j, k :: 0 <= j < k <= i ==> ps[j] < ps[k])
    && forall p :: 0 <= p <= ps[i] ==> (IsPrime(p) <==> p in ps[..i + 1])
  }

  lemma {:induction false} PrimesUpTo(ps: seq<nat>, i: nat)
    requires i < |ps| && forall j :: 0 <= j <= i ==> Follows(ps, j)
    ensures FirstPrimes(ps, i)
    decreases i
  {
    assert ps[..i + 1] == ps[..i] + [ps[i]];
    assert Follows(ps, i);
    SmallPrime(ps[i]);
    if i > 0 {
      PrimesUpTo(ps, i - 1);
      forall p | ps[i - 1] < p < ps[i]
        ensures !IsPrime(p)
      {
        NonePrime(ps[i - 1] + 1, ps[i], p);
      }
      forall p | 0 <= p <= ps[i]
        ensures IsPrime(p) <==> p in ps[..i + 1]
      {
        if p < ps[i] && p > ps[i - 1] {
          assert p !in ps[..i];
        }
      }
    }
  }

  /** The list is that of the first 64 primes. */
  lemma PrimesAre(i: nat)
    requires i < 64
    ensures FirstPrimes(PRIMES, i)
  {
    forall j | 0 <= j <= i
      ensures Follows(PRIMES, j)
    {
      ListFollows(j);
    }
    PrimesUpTo(PRIMES, i);
  }

  // ---------------------------------------------------------------- roots

  /** Word k is the first 32 bits of the fractional part of the cube root of p, whose whole part is a. */
  predicate CubeRoot(p: nat, a: nat, k: word) {
    var c := a * 0x1_0000_0000 + k;
    c * c * c <= p * 0x1_0000_0000_0000_0000_0000_0000 < (c + 1) * (c + 1) * (c + 1)
  }

  /** The whole part of the cube root, below 343. */
  function WholeRoot(p: nat): nat {
    if p < 8 then 1 else if p < 27 then 2 else if p < 64 then 3 else if p < 125 then 4 else if p < 216 then 5 else 6
  }

  /** The same of the square root. */
  predicate SquareRoot(p: nat, a: nat, k: word) {
    var c := a * 0x1_0000_0000 + k;
    c * c <= p * 0x1_0000_0000_0000_0000 < (c + 1) * (c + 1)
  }

  lemma Words0()
    ensures K[0] == 0x428a2f98 && K[1] == 0x71374491 && K[2] == 0xb5c0fbcf && K[3] == 0xe9b5dba5
    ensures K[4] == 0x3956c25b && K[5] == 0x59f111f1 && K[6] == 0x923f82a4 && K[7] == 0xab1c5ed5
  {
  }

  lemma Roots0()
    ensures CubeRoot(2, 1, 0x428a2f98)
    ensures CubeRoot(3, 1, 0x71374491)
    ensures CubeRoot(5, 1, 0xb5c0fbcf)
    ensures CubeRoot(7, 1, 0xe9b5dba5)
    ensures CubeRoot(11, 2, 0x3956c25b)
    ensures CubeRoot(13, 2, 0x59f111f1)
    ensures CubeRoot(17, 2, 0x923f82a4)
    ensures CubeRoot(19, 2, 0xab1c5ed5)
  {
  }

  lemma RootOf0(t: nat) returns (a: nat)
    requires 0 <= t < 8
    ensures CubeRoot(PRIMES[t], a, K[t])
  {
    Values0();
    Words0();
    Roots0();
    a := WholeRoot(PRIMES[t]);
  }

  lemma Words1()
    ensures K[8] == 0xd807aa98 && K[9] == 0x12835b01 && K[10] == 0x243185be && K[11] == 0x550c7dc3
    ensures K[12] == 0x72be5d74 && K[13] == 0x80deb1fe && K[14] == 0x9bdc06a7 && K[15] == 0xc19bf174
  {
  }

  lemma Roots1()
    ensures CubeRoot(23, 2, 0xd807aa98)
    ensures CubeRoot(29, 3, 0x12835b01)
    ensures CubeRoot(31, 3, 0x243185be)
    ensures CubeRoot(37, 3, 0x550c7dc3)
    ensures CubeRoot(41, 3, 0x72be5d74)
    ensures CubeRoot(43, 3, 0x80deb1fe)
    ensures CubeRoot(47, 3, 0x9bdc06a7)
    ensures CubeRoot(53, 3, 0xc19bf174)
  {
  }

  lemma RootOf1(t: nat) returns (a: nat)
    requires 8 <= t < 16
    ensures CubeRoot(PRIMES[t], a, K[t])
  {
    Values0();
    Words1();
    Roots1();
    a := WholeRoot(PRIMES[t]);
  }

  lemma Words2()
    ensures K[16] == 0xe49b69c1 && K[17] == 0xefbe4786 && K[18] == 0x0fc19dc6 && K[19] == 0x240ca1cc
    ensures K[20] == 0x2de92c6f && K[21] == 0x4a7484aa && K[22] == 0x5cb0a9dc && K[23] == 0x76f988da
  {
  }

  lemma Roots2()
    ensures CubeRoot(59, 3, 0xe49b69c1)
    ensures CubeRoot(61, 3, 0xefbe4786)
    ensures CubeRoot(67, 4, 0x0fc19dc6)
    ensures CubeRoot(71, 4, 0x240ca1cc)
    ensures CubeRoot(73, 4, 0x2de92c6f)
    ensures CubeRoot(79, 4, 0x4a7484aa)
    ensures CubeRoot(83, 4, 0x5cb0a9dc)
    ensures CubeRoot(89, 4, 0x76f988da)
  {
  }

  lemma RootOf2(t: nat) returns (a: nat)
    requires 16 <= t < 24
    ensures CubeRoot(PRIMES[t], a, K[t])
  {
    Values1();
    Words2();
    Roots2();
    a := WholeRoot(PRIMES[t]);
  }

  lemma Words3()
    ensures K[24] == 0x983e5152 && K[25] == 0xa831c66d && K[26] == 0xb00327c8 && K[27] == 0xbf597fc7
    ensures K[28] == 0xc6e00bf3 && K[29] == 0xd5a79147 && K[30] == 0x06ca6351 && K[31] == 0x14292967
  {
  }

  lemma Roots3()
    ensures CubeRoot(97, 4, 0x983e5152)
    ensures CubeRoot(101, 4, 0xa831c66d)
    ensures CubeRoot(103, 4, 0xb00327c8)
    ensures CubeRoot(107, 4, 0xbf597fc7)
    ensures CubeRoot(109, 4, 0xc6e00bf3)
    ensures CubeRoot(113, 4, 0xd5a79147)
    ensures CubeRoot(127, 5, 0x06ca6351)
    ensures CubeRoot(131, 5, 0x14292967)
  {
  }

  lemma RootOf3(t: nat) returns (a: nat)
    requires 24 <= t < 32
    ensures CubeRoot(PRIMES[t], a, K[t])
  {
    Values1();
    Words3();
    Roots3();
    a := WholeRoot(PRIMES[t]);
  }

  lemma Words4()
    ensures K[32] == 0x27b70a85 && K[33] == 0x2e1b2138 && K[34] == 0x4d2c6dfc && K[35] == 0x53380d13
    ensures K[36] == 0x650a7354 && K[37] == 0x766a0abb && K[38] == 0x81c2c92e && K[39] == 0x92722c85
  {
  }

  lemma Roots4()
    ensures CubeRoot(137, 5, 0x27b70a85)
    ensures CubeRoot(139, 5, 0x2e1b2138)
    ensures CubeRoot(149, 5, 0x4d2c6dfc)
    ensures CubeRoot(151, 5, 0x53380d13)
    ensures CubeRoot(157, 5, 0x650a7354)
    ensures CubeRoot(163, 5, 0x766a0abb)
    ensures CubeRoot(167, 5, 0x81c2c92e)
    ensures CubeRoot(173, 5, 0x92722c85)
  {
  }

  lemma RootOf4(t: nat) returns (a: nat)
    requires 32 <= t < 40
    ensures CubeRoot(PRIMES[t], a, K[t])
  {
    Values2();
    Words4();
    Roots4();
    a := WholeRoot(PRIMES[t]);
  }

  lemma Words5()
    ensures K[40] == 0xa2bfe8a1 && K[41] == 0xa81a664b && K[42] == 0xc24b8b70 && K[43] == 0xc76c51a3
    ensures K[44] == 0xd192e819 && K[45] == 0xd6990624 && K[46] == 0xf40e3585 && K[47] == 0x106aa070
  {
  }

  lemma Roots5()
    ensures CubeRoot(179, 5, 0xa2bfe8a1)
    ensures CubeRoot(181, 5, 0xa81a664b)
    ensures CubeRoot(191, 5, 0xc24b8b70)
    ensures CubeRoot(193, 5, 0xc76c51a3)
    ensures CubeRoot(197, 5, 0xd192e819)
    ensures CubeRoot(199, 5, 0xd6990624)
    ensures CubeRoot(211, 5, 0xf40e3585)
    ensures CubeRoot(223, 6, 0x106aa070)
  {
  }

  lemma RootOf5(t: nat) returns (a: nat)
    requires 40 <= t < 48
    ensures CubeRoot(PRIMES[t], a, K[t])
  {
    Values2();
    Words5();
    Roots5();
    a := WholeRoot(PRIMES[t]);
  }

  lemma Words6()
    ensures K[48] == 0x19a4c116 && K[49] == 0x1e376c08 && K[50] == 0x2748774c && K[51] == 0x34b0bcb5
    ensures K[52] == 0x391c0cb3 && K[53] == 0x4ed8aa4a && K[54] == 0x5b9cca4f && K[55] == 0x682e6ff3
  {
  }

  lemma Roots6()
    ensures CubeRoot(227, 6, 0x19a4c116)
    ensures CubeRoot(229, 6, 0x1e376c08)
    ensures CubeRoot(233, 6, 0x2748774c)
    ensures CubeRoot(239, 6, 0x34b0bcb5)
    ensures CubeRoot(241, 6, 0x391c0cb3)
    ensures CubeRoot(251, 6, 0x4ed8aa4a)
    ensures CubeRoot(257, 6, 0x5b9cca4f)
    ensures CubeRoot(263, 6, 0x682e6ff3)
  {
  }

  lemma RootOf6(t: nat) returns (a: nat)
    requires 48 <= t < 56
    ensures CubeRoot(PRIMES[t], a, K[t])
  {
    Values3();
    Words6();
    Roots6();
    a := WholeRoot(PRIMES[t]);
  }

  lemma Words7()
    ensures K[56] == 0x748f82ee && K[57] == 0x78a5636f && K[58] == 0x84c87814 && K[59] == 0x8cc70208
    ensures K[60] == 0x90befffa && K[61] == 0xa4506ceb && K[62] == 0xbef9a3f7 && K[63] == 0xc67178f2
  {
  }

  lemma Roots7()
    ensures CubeRoot(269, 6, 0x748f82ee)
    ensures CubeRoot(271, 6, 0x78a5636f)
    ensures CubeRoot(277, 6, 0x84c87814)
    ensures CubeRoot(281, 6, 0x8cc70208)
    ensures CubeRoot(283, 6, 0x90befffa)
    ensures CubeRoot(293, 6, 0xa4506ceb)
    ensures CubeRoot(307, 6, 0xbef9a3f7)
    ensures CubeRoot(311, 6, 0xc67178f2)
  {
  }

  lemma RootOf7(t: nat) returns (a: nat)
    requires 56 <= t < 64
    ensures CubeRoot(PRIMES[t], a, K[t])
  {
    Values3();
    Words7();
    Roots7();
    a := WholeRoot(PRIMES[t]);
  }

  /** The round constants: of the cube roots of the first 64 primes (section 4.2.2 of FIPS 180-4). */
  lemma RoundConstants(t: nat) returns (a: nat)
    requires t < 64
    ensures CubeRoot(PRIMES[t], a, K[t])
  {
    if t < 8 {
      a := RootOf0(t);
    } else if t < 16 {
      a := RootOf1(t);
    } else if t < 24 {
      a := RootOf2(t);
    } else if t < 32 {
      a := RootOf3(t);
    } else if t < 40 {
      a := RootOf4(t);
    } else if t < 48 {
      a := RootOf5(t);
    } else if t < 56 {
      a := RootOf6(t);
    } else {
      a := RootOf7(t);
    }
  }

  /** The initial hash value: of the square roots of the first eight (section 5.3.3). */
  lemma InitialValue()
    ensures SquareRoot(PRIMES[0], 1, INITIAL.a)
    ensures SquareRoot(PRIMES[1], 1, INITIAL.b)
    ensures SquareRoot(PRIMES[2], 2, INITIAL.c)
    ensures SquareRoot(PRIMES[3], 2, INITIAL.d)
    ensures SquareRoot(PRIMES[4], 3, INITIAL.e)
    ensures SquareRoot(PRIMES[5], 3, INITIAL.f)
    ensures SquareRoot(PRIMES[6], 4, INITIAL.g)
    ensures SquareRoot(PRIMES[7], 4, INITIAL.h)
  {
    Values0();
  }

  // ---------------------------------------------------------------- the functions, bit by bit

  lemma Halves(x: nat, y: nat)
    ensures var r := XorBits(x, y); r >= 0 && r / 2 == XorBits(x / 2, y / 2) >= 0 && r % 2 == (x + y) % 2
    ensures var r := AndBits(x, y);
            r >= 0 && r / 2 == AndBits(x / 2, y / 2) >= 0 && (r % 2 == 1 <==> x % 2 == 1 && y % 2 == 1)
  {
    NotNegative(x, y, x + y);
    NotNegative(x / 2, y / 2, x + y);
  }

  lemma BitStep(r: nat, h: nat, i: nat)
    requires i > 0 && r / 2 == h
    ensures Bit(r, i) == Bit(h, i - 1)
  {
  }

  lemma OddSum(x: nat, y: nat, r: nat)
    requires r % 2 == (x + y) % 2
    ensures r % 2 == 1 <==> (x % 2 == 1) != (y % 2 == 1)
  {
  }

  lemma {:induction false} XorBit(x: nat, y: nat, i: nat)
    ensures XorBits(x, y) >= 0 && (Bit(XorBits(x, y), i) <==> Bit(x, i) != Bit(y, i))
    decreases i
  {
    Halves(x, y);
    var r := XorBits(x, y);
    if i == 0 {
      OddSum(x, y, r);
    } else {
      XorBit(x / 2, y / 2, i - 1);
      BitStep(r, XorBits(x / 2, y / 2), i);
      BitStep(x, x / 2, i);
      BitStep(y, y / 2, i);
    }
  }

  lemma {:induction false} AndBit(x: nat, y: nat, i: nat)
    ensures AndBits(x, y) >= 0 && (Bit(AndBits(x, y), i) <==> Bit(x, i) && Bit(y, i))
    decreases i
  {
    Halves(x, y);
    var r := AndBits(x, y);
    if i > 0 {
      AndBit(x / 2, y / 2, i - 1);
      BitStep(r, AndBits(x / 2, y / 2), i);
      BitStep(x, x / 2, i);
      BitStep(y, y / 2, i);
    }
  }

  lemma {:induction false} NotNegative(x: nat, y: nat, n: nat)
    requires x + y <= n
    ensures XorBits(x, y) >= 0 && AndBits(x, y) >= 0
    decreases n
  {
    if x + y > 0 {
      NotNegative(x / 2, y / 2, n - 1);
    }
  }

  lemma {:induction false} NotBit(x: nat, n: nat, i: nat)
    requires x < Pow2(n) && i < n
    ensures Bit(Pow2(n) - 1 - x, i) <==> !Bit(x, i)
    decreases n
  {
    if i > 0 {
      assert (Pow2(n) - 1 - x) / 2 == Pow2(n - 1) - 1 - x / 2;
      NotBit(x / 2, n - 1, i - 1);
    }
  }

  /** The n low bits, and what stands above them. */
  lemma {:induction false} BitOfSum(low: nat, high: nat, n: nat, i: nat)
    requires low < Pow2(n)
    ensures Bit(low + high * Pow2(n), i) <==> if i < n then Bit(low, i) else Bit(high, i - n)
    decreases n
  {
    if n > 0 {
      Doubled(high, Pow2(n - 1));
      var x, half := low + high * Pow2(n), low / 2 + high * Pow2(n - 1);
      assert x == 2 * half + low % 2;
      if i > 0 {
        BitOfSum(low / 2, high, n - 1, i - 1);
      }
    }
  }

  lemma Parts(x: nat, p: nat)
    requires p > 0
    ensures 0 <= x % p < p && 0 <= x / p && x == x % p + x / p * p
  {
  }

  lemma HighBits(x: nat, low: nat, high: nat, n: nat, p: nat, i: nat)
    requires p == Pow2(n) && x == low + high * p && low < p
    ensures Bit(high, i) <==> Bit(x, i + n)
    ensures i < n ==> (Bit(low, i) <==> Bit(x, i))
  {
    BitOfSum(low, high, n, i + n);
    BitOfSum(low, high, n, i);
  }

  lemma ShiftBit(x: u32, n: nat, p: nat, i: nat)
    requires p == Pow2(n)
    ensures Bit(ShiftRight32(x, p), i) <==> Bit(x, i + n)
  {
    Parts(x, p);
    HighBits(x, x % p, x / p, n, p, i);
  }

  /** Bit i of a word rotated right by n places is bit i + n of the word, round the corner. */
  lemma RotateBit(x: u32, n: nat, m: nat, p: nat, q: nat, i: nat)
    requires n + m == 32 && p == Pow2(n) && q == Pow2(m) && p * q == 0x1_0000_0000 && i < 32
    ensures Bit(RotateRight32(x, p, q), i) <==> Bit(x, (i + n) % 32)
  {
    var high, low := x / p, x % p;
    Parts(x, p);
    RotateHigh(x, high, low, p, q);
    PutTogether(low, high, RotateRight32(x, p, q), m, q, i);
    HighBits(x, low, high, n, p, if i < m then i else i - m);
    RoundTheCorner(n, m, i);
  }

  lemma RoundTheCorner(n: nat, m: nat, i: nat)
    requires n + m == 32 && i < 32
    ensures (i + n) % 32 == if i < m then i + n else i - m
  {
  }

  lemma PutTogether(low: nat, high: nat, y: nat, m: nat, q: nat, i: nat)
    requires q == Pow2(m) && high < q && y == high + low * q
    ensures Bit(y, i) <==> if i < m then Bit(high, i) else Bit(low, i - m)
  {
    BitOfSum(high, low, m, i);
  }

  lemma RotateHigh(x: u32, high: nat, low: nat, p: nat, q: nat)
    requires p > 0 && p * q == 0x1_0000_0000 && x == low + high * p
    ensures high < q
  {
    if high >= q {
      ProductOrder(q, high, p);
    }
  }

  /** The powers of two the rotations are written with. */
  lemma Powers()
    ensures Pow2(2) == 0x4 && Pow2(3) == 0x8 && Pow2(6) == 0x40 && Pow2(7) == 0x80 && Pow2(10) == 0x400
    ensures Pow2(11) == 0x800 && Pow2(13) == 0x2000 && Pow2(14) == 0x4000 && Pow2(15) == 0x8000
    ensures Pow2(17) == 0x20000 && Pow2(18) == 0x40000 && Pow2(19) == 0x80000
    ensures Pow2(21) == 0x200000 && Pow2(22) == 0x400000
    ensures Pow2(25) == 0x2000000 && Pow2(26) == 0x4000000 && Pow2(30) == 0x40000000
  {
    assert Pow2(2) == 4 && Pow2(3) == 8 && Pow2(4) == 16 && Pow2(6) == 64 && Pow2(7) == 128;
    Pow2Sum(3, 7);
    Pow2Sum(4, 7);
    Pow2Sum(6, 7);
    Pow2Sum(7, 7);
    Pow2Sum(4, 11);
    Pow2Sum(7, 10);
    Pow2Sum(7, 11);
    Pow2Sum(6, 13);
    Pow2Sum(7, 14);
    Pow2Sum(7, 15);
    Pow2Sum(7, 18);
    Pow2Sum(7, 19);
    Pow2Sum(4, 26);
  }

  lemma {:induction false} NoBitAbove(x: nat, n: nat, i: nat)
    requires x < Pow2(n) && i >= n
    ensures !Bit(x, i)
    decreases n
  {
    if n == 0 {
      BitOfZero(i);
    } else {
      NoBitAbove(x / 2, n - 1, i - 1);
    }
  }

  lemma ComplementBit(x: word, n: nat, i: nat)
    requires n == 32 && i < n
    ensures Bit(Not32(x), i) <==> !Bit(x, i)
  {
    Pow2Of32(n);
    NotBit(x, n, i);
  }

  /** Of each bit: y where x is set, z where it is not. */
  lemma ChBit(x: word, y: word, z: word, i: nat)
    requires i < 32
    ensures Bit(Ch(x, y, z), i) <==> if Bit(x, i) then Bit(y, i) else Bit(z, i)
  {
    AndBit(x, y, i);
    ComplementBit(x, 32, i);
    AndBit(Not32(x), z, i);
    XorBit(And32(x, y), And32(Not32(x), z), i);
  }

  /** Of each bit: what at least two of the three have. */
  lemma MajBit(x: word, y: word, z: word, i: nat)
    requires i < 32
    ensures Bit(Maj(x, y, z), i)
       <==> (Bit(x, i) && Bit(y, i)) || (Bit(x, i) && Bit(z, i)) || (Bit(y, i) && Bit(z, i))
  {
    AndBit(x, y, i);
    AndBit(x, z, i);
    AndBit(y, z, i);
    XorBit(And32(x, y), And32(x, z), i);
    XorBit(Xor32(And32(x, y), And32(x, z)), And32(y, z), i);
  }

  /** An odd number of the three. */
  predicate Odd(a: bool, b: bool, c: bool) {
    a != (b != c)
  }

  lemma Xor3Bit(x: word, y: word, z: word, i: nat)
    ensures Bit(Xor32(Xor32(x, y), z), i) <==> Odd(Bit(x, i), Bit(y, i), Bit(z, i))
  {
    XorBit(x, y, i);
    XorBit(Xor32(x, y), z, i);
  }

  lemma Ep0Bit(x: word, i: nat)
    requires i < 32
    ensures Bit(Ep0(x), i) <==> Odd(Bit(x, (i + 2) % 32), Bit(x, (i + 13) % 32), Bit(x, (i + 22) % 32))
  {
    Powers();
    RotateBit(x, 2, 30, 0x4, 0x40000000, i);
    RotateBit(x, 13, 19, 0x2000, 0x80000, i);
    RotateBit(x, 22, 10, 0x400000, 0x400, i);
    Xor3Bit(RotateRight32(x, 0x4, 0x40000000), RotateRight32(x, 0x2000, 0x80000),
            RotateRight32(x, 0x400000, 0x400), i);
  }

  lemma Ep1Bit(x: word, i: nat)
    requires i < 32
    ensures Bit(Ep1(x), i) <==> Odd(Bit(x, (i + 6) % 32), Bit(x, (i + 11) % 32), Bit(x, (i + 25) % 32))
  {
    Powers();
    RotateBit(x, 6, 26, 0x40, 0x4000000, i);
    RotateBit(x, 11, 21, 0x800, 0x200000, i);
    RotateBit(x, 25, 7, 0x2000000, 0x80, i);
    Xor3Bit(RotateRight32(x, 0x40, 0x4000000), RotateRight32(x, 0x800, 0x200000),
            RotateRight32(x, 0x2000000, 0x80), i);
  }

  /** Nothing comes in from the left of a shift. */
  lemma Sig0Bit(x: word, i: nat)
    requires i < 32
    ensures Bit(Sig0(x), i) <==> Odd(Bit(x, (i + 7) % 32), Bit(x, (i + 18) % 32), i + 3 < 32 && Bit(x, i + 3))
  {
    Powers();
    RotateBit(x, 7, 25, 0x80, 0x2000000, i);
    RotateBit(x, 18, 14, 0x40000, 0x4000, i);
    ShiftBit(x, 3, 0x8, i);
    Above(x, i + 3);
    Xor3Bit(RotateRight32(x, 0x80, 0x2000000), RotateRight32(x, 0x40000, 0x4000), ShiftRight32(x, 0x8), i);
  }

  lemma Sig1Bit(x: word, i: nat)
    requires i < 32
    ensures Bit(Sig1(x), i) <==> Odd(Bit(x, (i + 17) % 32), Bit(x, (i + 19) % 32), i + 10 < 32 && Bit(x, i + 10))
  {
    Powers();
    RotateBit(x, 17, 15, 0x20000, 0x8000, i);
    RotateBit(x, 19, 13, 0x80000, 0x2000, i);
    ShiftBit(x, 10, 0x400, i);
    Above(x, i + 10);
    Xor3Bit(RotateRight32(x, 0x20000, 0x8000), RotateRight32(x, 0x80000, 0x2000), ShiftRight32(x, 0x400), i);
  }

  lemma Above(x: word, i: nat)
    ensures Bit(x, i) ==> i < 32
  {
    if i >= 32 {
      Pow2Of32(32);
      NoBitAbove(x, 32, i);
    }
  }

  // ---------------------------------------------------------------- a round undone

  function Sub32(x: word, y: word): word {
    (x - y) % 0x1_0000_0000
  }

  /** The working variables before a round, from those after it. */
  function Unround(v: Vars, k: word, w: word): Vars {
    var t1 := Sub32(v.a, Add32(Ep0(v.b), Maj(v.b, v.c, v.d)));
    var h := Sub32(Sub32(Sub32(Sub32(t1, w), k), Ch(v.f, v.g, v.h)), Ep1(v.f));
    Vars(v.b, v.c, v.d, Sub32(v.e, t1), v.f, v.g, v.h, h)
  }

  lemma Moved(x: word, y: word)
    ensures Sub32(Add32(x, y), y) == x && Sub32(Add32(x, y), x) == y
  {
  }

  /** Every round can be undone, so that the 64 rounds lose nothing. */
  lemma RoundUndone(v: Vars, k: word, w: word)
    ensures Unround(Round(v, k, w), k, w) == v
  {
    var s1 := Add32(v.h, Ep1(v.e));
    var s2 := Add32(s1, Ch(v.e, v.f, v.g));
    var s3 := Add32(s2, k);
    var t1 := Add32(s3, w);
    Moved(t1, Add32(Ep0(v.a), Maj(v.a, v.b, v.c)));
    Moved(v.d, t1);
    Moved(s3, w);
    Moved(s2, k);
    Moved(s1, Ch(v.e, v.f, v.g));
    Moved(v.h, Ep1(v.e));
  }

  /** The schedule can be run back: any sixteen words in a row give the one before them. */
  lemma ScheduleBack(block: seq<byte>, t: nat)
    requires |block| == 64 && 16 <= t < 64
    ensures var w2, w7, w15 := Schedule(block, t - 2), Schedule(block, t - 7), Schedule(block, t - 15);
            Schedule(block, t - 16) == Sub32(Schedule(block, t), Add32(Add32(Sig1(w2), w7), Sig0(w15)))
  {
    var w2, w7, w15 := Schedule(block, t - 2), Schedule(block, t - 7), Schedule(block, t - 15);
    Moved(Schedule(block, t - 16), Add32(Add32(Sig1(w2), w7), Sig0(w15)));
  }

  /** Its first sixteen words are those of the block, big end first. */
  lemma ScheduleStarts(block: seq<byte>, t: nat)
    requires |block| == 64 && t < 16
    ensures var b0: int, b1: int, b2: int, b3: int
              := block[4 * t], block[4 * t + 1], block[4 * t + 2], block[4 * t + 3];
            Schedule(block, t) == 16777216 * b0 + 65536 * b1 + 256 * b2 + b3
  {
  }

  /** After the rounds the hash value before them is added, word by word (section 6.2.2). */
  lemma FeedForward(h: Vars, block: seq<byte>, v: Vars, next: Vars)
    requires |block| == 64 && v == Rounds(h, block, |block|) && next == Compress(h, block)
    ensures Sub32(next.a, v.a) == h.a && Sub32(next.b, v.b) == h.b && Sub32(next.c, v.c) == h.c
    ensures Sub32(next.d, v.d) == h.d && Sub32(next.e, v.e) == h.e && Sub32(next.f, v.f) == h.f
    ensures Sub32(next.g, v.g) == h.g && Sub32(next.h, v.h) == h.h
  {
    Moved(h.a, v.a);
    Moved(h.b, v.b);
    Moved(h.c, v.c);
    Moved(h.d, v.d);
    Moved(h.e, v.e);
    Moved(h.f, v.f);
    Moved(h.g, v.g);
    Moved(h.h, v.h);
  }

  // ---------------------------------------------------------------- padding and digest

  /** The number whose bytes these are, big end first. */
  function BeVal(s: seq<byte>): nat
    decreases |s|
  {
    if |s| == 0 then 0 else 256 * BeVal(s[..|s| - 1]) + s[|s| - 1]
  }

  /** The first n of the eight bytes are those of the number without its last 8 - n. */
  lemma {:induction false} LengthRead(bits: nat, n: nat, q: nat)
    requires 1 <= n <= 8 && q == bits / Weight(8 - n) && q < Weight(n)
    ensures BeVal(LengthBytes(bits)[..n]) == q
    decreases n
  {
    var s := LengthBytes(bits);
    assert s[n - 1] == q % 256;
    if n > 1 {
      var w, v := Weight(8 - n), Weight(n - 1);
      assert Weight(8 - (n - 1)) == 256 * w && Weight(n) == 256 * v;
      Quotients(bits, w, 256 * w);
      LengthRead(bits, n - 1, q / 256);
    } else {
      assert s[..n - 1] == [];
    }
    BeLast(s, n, q / 256, q % 256);
  }

  lemma BeLast(s: seq<byte>, n: nat, high: nat, low: byte)
    requires 1 <= n <= |s| && s[n - 1] == low && BeVal(s[..n - 1]) == high
    ensures BeVal(s[..n]) == 256 * high + low as int
  {
    assert s[..n][..n - 1] == s[..n - 1];
  }

  lemma Quotients(x: nat, w: nat, m: nat)
    requires w > 0 && m == 256 * w
    ensures x / m == x / w / 256
  {
    var q, r := x / w / 256, x / w % 256;
    assert x == w * (256 * q + r) + x % w;
    assert w * (256 * q + r) == 256 * w * q + w * r;
    ProductOrder(r, 255, w);
    assert w * r == r * w;
    QuotientIs(x, m, q, w * r + x % w);
  }

  lemma QuotientIs(x: nat, m: nat, q: nat, r: nat)
    requires m > 0 && r < m && x == m * q + r
    ensures x / m == q
  {
    RemainderIs(x, m, q, r);
    Distributes(m, x / m, q);
    NoProduct(m, x / m - q);
  }

  lemma NoProduct(m: int, d: int)
    requires m > 0 && m * d == 0
    ensures d == 0
  {
  }

  /** A one bit, as few zeros as fill the last block, and the number of bits in 64 (section 5.1.1). */
  lemma PaddingIs(n: nat, bits: nat)
    requires bits == 8 * n % TWO64
    ensures var p := Padding(n);
            && p[0] == 0x80 && (forall i :: 0 < i < |p| - 8 ==> p[i] == 0) && 9 <= |p| < 9 + 64
            && (n + |p|) % 64 == 0 && BeVal(p[|p| - 8..]) == bits
  {
    var z := (119 - n % 64) % 64;
    Fills(n, z);
    LengthIs(bits, 8);
    PaddingParts(Padding(n), Zeros(z), LengthBytes(bits));
  }

  lemma Fills(n: nat, z: nat)
    requires z == (119 - n % 64) % 64
    ensures z < 64 && (n + 9 + z) % 64 == 0
  {
  }

  lemma PaddingParts(p: seq<byte>, zeros: seq<byte>, length: seq<byte>)
    requires p == [0x80] + zeros + length && |length| == 8
    ensures |p| == 9 + |zeros| && p[0] == 0x80 && p[|p| - 8..] == length
    ensures forall i :: 0 < i < |p| - 8 ==> p[i] == zeros[i - 1]
  {
  }

  lemma LengthIs(bits: nat, n: nat)
    requires bits < TWO64 && n == 8
    ensures BeVal(LengthBytes(bits)) == bits
  {
    Weights();
    LengthRead(bits, n, bits);
    assert LengthBytes(bits)[..n] == LengthBytes(bits);
  }

  lemma Weights()
    ensures Weight(0) == 1 && Weight(8) == TWO64
  {
    assert Weight(4) == 0x1_0000_0000;
    assert Weight(8) == 256 * Weight(7) && Weight(7) == 256 * Weight(6) && Weight(6) == 256 * Weight(5);
    assert Weight(5) == 256 * Weight(4);
  }

  /** The digest is the eight words in order, each big end first. */
  lemma DigestWords(h: Vars)
    ensures var d := DigestBytes(h);
            && BeVal(d[..4]) == h.a && BeVal(d[4..8]) == h.b && BeVal(d[8..12]) == h.c && BeVal(d[12..16]) == h.d
            && BeVal(d[16..20]) == h.e && BeVal(d[20..24]) == h.f && BeVal(d[24..28]) == h.g && BeVal(d[28..]) == h.h
  {
    var d := WordBytes(h.a) + WordBytes(h.b) + WordBytes(h.c) + WordBytes(h.d)
             + WordBytes(h.e) + WordBytes(h.f) + WordBytes(h.g) + WordBytes(h.h);
    EightWords(d, h);
    WordRead(h.a);
    WordRead(h.b);
    WordRead(h.c);
    WordRead(h.d);
    WordRead(h.e);
    WordRead(h.f);
    WordRead(h.g);
    WordRead(h.h);
  }

  lemma EightWords(d: seq<byte>, h: Vars)
    requires d == WordBytes(h.a) + WordBytes(h.b) + WordBytes(h.c) + WordBytes(h.d)
                  + WordBytes(h.e) + WordBytes(h.f) + WordBytes(h.g) + WordBytes(h.h)
    ensures DigestBytes(h) == d
    ensures d[..4] == WordBytes(h.a) && d[4..8] == WordBytes(h.b) && d[8..12] == WordBytes(h.c)
    ensures d[12..16] == WordBytes(h.d) && d[16..20] == WordBytes(h.e) && d[20..24] == WordBytes(h.f)
    ensures d[24..28] == WordBytes(h.g) && d[28..] == WordBytes(h.h)
  {
    AllWritten(d, h);
    assert d[..32] == d;
  }

  lemma WordRead(w: word)
    ensures BeVal(WordBytes(w)) == w
  {
    var b := WordBytes(w);
    assert w / 0x1_0000 == w / 0x100 / 0x100 && w / 0x100_0000 == w / 0x1_0000 / 0x100;
    assert b[..0] == [] && b[..4] == b;
    BeLast(b, 1, 0, b[0]);
    BeLast(b, 2, w / 0x100_0000, b[1]);
    BeLast(b, 3, w / 0x1_0000, b[2]);
    BeLast(b, 4, w / 0x100, b[3]);
  }
}
