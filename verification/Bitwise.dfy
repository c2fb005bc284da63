/**
 Bitwise operations on signed 64-bit integers, by their two's complement bits.
 */
module Bitwise {

  newtype i64 = x: int | -0x8000_0000_0000_0000 <= x < 0x8000_0000_0000_0000

  function Pow2(k: nat): (p: int)
    ensures p > 0
  {
    if k == 0 then 1 else 2 * Pow2(k - 1)
  }

  /** The magnitude of x, ignoring its sign bits. */
  function Size(x: int): nat {
    if x < 0 then -x - 1 else x
  }

  /** Exclusive or of two integers, bit by bit; negative numbers have infinitely many leading ones. */
  function XorBits(x: int, y: int): int
    decreases Size(x) + Size(y)
  {
    if -1 <= x <= 0 && -1 <= y <= 0 then (if x == y then 0 else -1)
    else (x + y) % 2 + 2 * XorBits(x / 2, y / 2)
  }

  /** Conjunction of two integers, bit by bit. */
  function AndBits(x: int, y: int): int
    decreases Size(x) + Size(y)
  {
    if -1 <= x <= 0 && -1 <= y <= 0 then (if x == y then x else 0)
    else (if x % 2 == 1 then y % 2 else 0) + 2 * AndBits(x / 2, y / 2)
  }

  lemma {:induction false} BitsInRange(x: int, y: int, n: nat)
    requires -Pow2(n) <= x < Pow2(n) && -Pow2(n) <= y < Pow2(n)
    ensures -Pow2(n) <= XorBits(x, y) < Pow2(n)
    ensures -Pow2(n) <= AndBits(x, y) < Pow2(n)
    decreases n
  {
    if n > 0 {
      BitsInRange(x / 2, y / 2, n - 1);
    }
  }

  lemma {:induction false} Pow2Sum(i: nat, j: nat)
    ensures Pow2(i + j) == Pow2(i) * Pow2(j)
  {
    if i > 0 {
      Pow2Sum(i - 1, j);
      assert Pow2(i) * Pow2(j) == 2 * (Pow2(i - 1) * Pow2(j));
    }
  }

  lemma Pow2Of63(n: nat)
    requires n == 63
    ensures Pow2(n) == 0x8000_0000_0000_0000
  {
    assert Pow2(7) == 128;
    Pow2Sum(7, 7);
    Pow2Sum(7, 14);
    Pow2Sum(21, 21);
    Pow2Sum(21, 42);
  }

  function Xor(x: i64, y: i64): i64 {
    Pow2Of63(63);
    BitsInRange(x as int, y as int, 63);
    XorBits(x as int, y as int) as i64
  }

  function And(x: i64, y: i64): i64 {
    Pow2Of63(63);
    BitsInRange(x as int, y as int, 63);
    AndBits(x as int, y as int) as i64
  }

  function Not(x: i64): i64 {
    -1 - x
  }

  lemma XorStep(x: int, y: int, r: int, z: int)
    requires z == (x + y) % 2 + 2 * r
    ensures z / 2 == r && (x + z) % 2 == y % 2 && (y + z) % 2 == x % 2
  {
  }

  lemma {:induction false} XorCommutes(x: int, y: int)
    ensures XorBits(x, y) == XorBits(y, x)
    decreases Size(x) + Size(y)
  {
    if !(-1 <= x <= 0 && -1 <= y <= 0) {
      XorCommutes(x / 2, y / 2);
    }
  }

  lemma {:induction false} XorZero(x: int)
    ensures XorBits(x, 0) == x
    decreases Size(x)
  {
    if !(-1 <= x <= 0) {
      XorZero(x / 2);
    }
  }

  lemma {:induction false} XorCancels(x: int, y: int)
    ensures XorBits(x, XorBits(x, y)) == y
    decreases Size(x) + Size(y)
  {
    if !(-1 <= x <= 0 && -1 <= y <= 0) {
      XorStep(x, y, XorBits(x / 2, y / 2), XorBits(x, y));
      XorCancels(x / 2, y / 2);
    }
  }

  /** The masks 0 and -1 select nothing and everything. */
  lemma {:induction false} AndMask(y: int)
    ensures AndBits(0, y) == 0
    ensures AndBits(-1, y) == y
    decreases Size(y)
  {
    if !(-1 <= y <= 0) {
      AndMask(y / 2);
    }
  }

  /** Bitwise operations keep unsigned numbers within their width. */
  lemma {:induction false} UnsignedRange(x: nat, y: nat, n: nat)
    requires x < Pow2(n) && y < Pow2(n)
    ensures 0 <= XorBits(x, y) < Pow2(n)
    ensures 0 <= AndBits(x, y) < Pow2(n)
    decreases n
  {
    if n > 0 {
      UnsignedRange(x / 2, y / 2, n - 1);
    }
  }

  lemma Pow2Of32(n: nat)
    requires n == 32
    ensures Pow2(n) == 0x1_0000_0000 && Pow2(n / 4) == 256
  {
    assert Pow2(8) == 256;
    Pow2Sum(8, 8);
    Pow2Sum(16, 16);
  }

  /** The source's `uint32_t`. */
  type u32 = x: int | 0 <= x < 0x1_0000_0000

  function Xor32(x: u32, y: u32): u32 {
    Pow2Of32(32);
    UnsignedRange(x, y, 32);
    XorBits(x, y)
  }

  function And32(x: u32, y: u32): u32 {
    Pow2Of32(32);
    UnsignedRange(x, y, 32);
    AndBits(x, y)
  }

  function Not32(x: u32): u32 {
    0xffff_ffff - x
  }

  /** Addition modulo 2^32. */
  function Add32(x: u32, y: u32): u32 {
    (x + y) % 0x1_0000_0000
  }

  /** Rotation right by n places, for p = 2^n and q = 2^(32 - n). */
  function RotateRight32(x: u32, p: nat, q: nat): u32
    requires p * q == 0x1_0000_0000
  {
    var high, low := x / p, x % p;
    RotateRange(x, high, low, p, q);
    high + low * q
  }

  lemma RotateRange(x: u32, high: int, low: int, p: nat, q: nat)
    requires p * q == 0x1_0000_0000 && p > 0 && x == high * p + low && 0 <= low < p
    ensures 0 <= high + low * q < 0x1_0000_0000
  {
    ProductOrder(low, p - 1, q);
    if high >= q {
      ProductOrder(q, high, p);
    } else if high < 0 {
      ProductOrder(high, -1, p);
    }
  }

  lemma ProductOrder(x: int, y: int, w: nat)
    requires x <= y
    ensures x * w <= y * w
  {
  }

  /** Shift right by n places, for p = 2^n. */
  function ShiftRight32(x: u32, p: nat): u32
    requires p > 0
  {
    x / p
  }
}
