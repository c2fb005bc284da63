/**
 The replay window of a session: a 64-bit word of flags below the highest sequence number accepted.
 */
module Replay {

  import opened Bitwise

  const WIDTH: nat := 64

  // ---------------------------------------------------------------- bits of a word

  predicate Bit(x: nat, i: nat)
    decreases i
  {
    if i == 0 then x % 2 == 1 else Bit(x / 2, i - 1)
  }

  lemma {:induction false} BitOfZero(i: nat)
    ensures !Bit(0, i)
    decreases i
  {
    if i > 0 {
      BitOfZero(i - 1);
    }
  }

  lemma {:induction false} BitShifted(x: nat, s: nat, i: nat)
    ensures Bit(x * Pow2(s), i) == (i >= s && Bit(x, i - s))
    decreases s
  {
    if s > 0 {
      var y := x * Pow2(s - 1);
      assert x * Pow2(s) == 2 * y by { Doubled(x, Pow2(s - 1)); }
      if i > 0 {
        BitShifted(x, s - 1, i - 1);
      }
    }
  }

  lemma Doubled(x: int, p: int)
    ensures x * (2 * p) == 2 * (x * p)
  {
  }

  lemma HalfMod(x: nat, p: nat)
    requires p > 0
    ensures x % (2 * p) / 2 == x / 2 % p && x % (2 * p) % 2 == x % 2
  {
    var q := x / 2 / p;
    var r := x / 2 % p;
    assert x / 2 == p * q + r;
    assert x == 2 * (p * q) + 2 * r + x % 2;
    assert 2 * (p * q) == (2 * p) * q by { Regroup(p, q); }
    RemainderIs(x, 2 * p, q, 2 * r + x % 2);
  }

  lemma Regroup(p: int, q: int)
    ensures 2 * (p * q) == (2 * p) * q
  {
  }

  lemma RemainderIs(x: int, m: int, q: int, r: int)
    requires m > 0 && 0 <= r < m && x == m * q + r
    ensures x % m == r
  {
    var d := x / m - q;
    assert m * d == r - x % m by { assert m * (x / m) + x % m == x; Distributes(m, x / m, q); }
    if d > 0 {
      assert m * d >= m by { Grows(m, d); }
    } else if d < 0 {
      assert m * (-d) >= m by { Grows(m, -d); }
    }
  }

  lemma Distributes(m: int, a: int, b: int)
    ensures m * (a - b) == m * a - m * b
  {
  }

  lemma Grows(m: int, d: int)
    requires m > 0 && d >= 1
    ensures m * d >= m
  {
  }

  lemma {:induction false} BitTruncated(x: nat, n: nat, i: nat)
    ensures Bit(x % Pow2(n), i) == (i < n && Bit(x, i))
    decreases n
  {
    if n == 0 {
      assert x % 1 == 0;
      BitOfZero(i);
    } else {
      HalfMod(x, Pow2(n - 1));
      if i > 0 {
        BitTruncated(x / 2, n - 1, i - 1);
      }
    }
  }

  /** `x | (1 << b)`. */
  function WithBit(x: nat, b: nat): nat {
    if Bit(x, b) then x else x + Pow2(b)
  }

  lemma {:induction false} BitSet(x: nat, b: nat, i: nat)
    ensures Bit(WithBit(x, b), i) == (i == b || Bit(x, i))
    decreases b
  {
    if b > 0 {
      assert (x + 2 * Pow2(b - 1)) / 2 == x / 2 + Pow2(b - 1);
      if i > 0 {
        BitSet(x / 2, b - 1, i - 1);
      }
    } else if !Bit(x, 0) {
      assert (x + 1) / 2 == x / 2;
    }
  }

  /** `x << s` in 64 bits. */
  function ShiftLeft(x: nat, s: nat): nat {
    x * Pow2(s) % Pow2(WIDTH)
  }

  lemma BitShiftLeft(x: nat, s: nat, i: nat)
    ensures Bit(ShiftLeft(x, s), i) == (i < WIDTH && i >= s && Bit(x, i - s))
  {
    BitTruncated(x * Pow2(s), WIDTH, i);
    BitShifted(x, s, i);
  }

  lemma {:induction false} BitSetRange(x: nat, b: nat, n: nat)
    requires x < Pow2(n) && b < n
    ensures WithBit(x, b) < Pow2(n)
    decreases n
  {
    if b > 0 {
      BitSetRange(x / 2, b - 1, n - 1);
    }
  }

  /** Every flag of n ones is set. */
  lemma {:induction false} OnesBit(n: nat, i: nat)
    requires i < n
    ensures Bit(Pow2(n) - 1, i)
    decreases n
  {
    var x := Pow2(n) - 1;
    assert x % 2 == 1 && x / 2 == Pow2(n - 1) - 1;
    if i > 0 {
      OnesBit(n - 1, i - 1);
    }
  }

  /** A word below 2^n with every flag set is n ones. */
  lemma {:induction false} OnlyOnes(x: nat, n: nat)
    requires x < Pow2(n) && forall i: nat {:trigger Bit(x, i)} :: i < n ==> Bit(x, i)
    ensures x == Pow2(n) - 1
    decreases n
  {
    if n > 0 {
      assert Bit(x, 0);
      forall i: nat | i < n - 1
        ensures Bit(x / 2, i)
      {
        assert Bit(x, i + 1);
      }
      OnlyOnes(x / 2, n - 1);
    }
  }

  lemma ModRange(x: int, m: int)
    requires m > 0
    ensures 0 <= x % m < m
  {
  }

  // ---------------------------------------------------------------- the set it stands for

  /** A number is accepted when it is not zero, was not accepted, and is less than 64 below the highest. */
  predicate Acceptable(accepted: set<nat>, number: nat) {
    number != 0 && number !in accepted && forall s :: s in accepted ==> s < number + 64
  }

  function Accept(accepted: set<nat>, number: nat): set<nat> {
    if Acceptable(accepted, number) then accepted + {number} else accepted
  }

  /** `top` is the highest number accepted, and flag i of `bits` says whether top - i was. */
  ghost predicate Represents(top: nat, bits: nat, accepted: set<nat>) {
    && (forall s :: s in accepted ==> 1 <= s <= top) && (top > 0 ==> top in accepted)
    && forall i: nat :: i < WIDTH ==> (Bit(bits, i) <==> i < top && top - i in accepted)
  }

  lemma NoneAccepted(bits: nat)
    requires bits == 0
    ensures Represents(0, bits, {})
  {
    forall i: nat | i < WIDTH
      ensures !Bit(bits, i)
    {
      BitOfZero(i);
    }
  }

  lemma Raised(top: nat, bits: nat, accepted: set<nat>, number: nat, next: nat)
    requires Represents(top, bits, accepted) && number > top
    requires next == WithBit(if number - top >= WIDTH then 0 else ShiftLeft(bits, number - top), 0)
    ensures Represents(number, next, accepted + {number})
  {
    var shift := number - top;
    var shifted := if shift >= WIDTH then 0 else ShiftLeft(bits, shift);
    forall i: nat | i < WIDTH
      ensures Bit(next, i) <==> i < number && number - i in accepted + {number}
    {
      BitSet(shifted, 0, i);
      if shift >= WIDTH {
        BitOfZero(i);
      } else {
        BitShiftLeft(bits, shift, i);
      }
    }
  }

  lemma Lowered(top: nat, bits: nat, accepted: set<nat>, number: nat)
    requires Represents(top, bits, accepted) && 1 <= number <= top && top - number < WIDTH
    ensures Represents(top, WithBit(bits, top - number), accepted + {number})
  {
    var next := WithBit(bits, top - number);
    forall i: nat | i < WIDTH
      ensures Bit(next, i) <==> i < top && top - i in accepted + {number}
    {
      BitSet(bits, top - number, i);
    }
  }

  class Window {
    var top: u32
    var bits: nat
    /** every number accepted so far */
    ghost var accepted: set<nat>

    ghost predicate Valid()
      reads this
    {
      bits < Pow2(WIDTH) && Represents(top, bits, accepted)
    }

    constructor ()
      ensures Valid() && accepted == {}
    {
      top, bits, accepted := 0, 0, {};
      new;
      NoneAccepted(bits);
    }

    method Check(number: u32) returns (ok: bool)
      requires Valid()
      modifies this
      ensures Valid() && ok == Acceptable(old(accepted), number) && accepted == Accept(old(accepted), number)
    {
      if number == 0 {
        return false;
      }
      if number > top {
        var shift := number - top;
        ghost var before := bits;
        bits := if shift >= WIDTH then 0 else ShiftLeft(bits, shift);
        ModRange(before * Pow2(shift), Pow2(WIDTH));
        BitSetRange(bits, 0, WIDTH);
        bits := WithBit(bits, 0);
        Raised(top, before, accepted, number, bits);
        top := number;
        accepted := accepted + {number};
        return true;
      }
      var back := top - number;
      if back >= WIDTH {
        return false;
      }
      if Bit(bits, back) {
        return false;
      }
      Lowered(top, bits, accepted, number);
      BitSetRange(bits, back, WIDTH);
      bits := WithBit(bits, back);
      accepted := accepted + {number};
      return true;
    }
  }
}
