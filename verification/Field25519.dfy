/**
 The field layer of the curve arithmetic: integers modulo 2^255 - 19 held in sixteen
 signed 64-bit limbs of weight 2^16, updated in place.

 Limbs have the type `i64`, so every sum and product below is checked against 64-bit overflow.
 */
module Field25519 {

  import opened Bitwise
  import opened Bytes

  const P: int := 0x7fffffff_ffffffff_ffffffff_ffffffff_ffffffff_ffffffff_ffffffff_ffffffed

  // ---------------------------------------------------------------- values of limb vectors

  /** The weight 2^(16k) of limb k. */
  function W(k: nat): (w: int)
    ensures w > 0
  {
    if k == 0 then 1 else 65536 * W(k - 1)
  }

  /** The integer a limb vector stands for. */
  function Val(s: seq<i64>): int {
    if |s| == 0 then 0 else Val(s[..|s| - 1]) + s[|s| - 1] as int * W(|s| - 1)
  }

  lemma {:induction false} WeightSum(i: nat, j: nat)
    ensures W(i + j) == W(i) * W(j)
  {
    if i > 0 {
      WeightSum(i - 1, j);
      assert W(i) * W(j) == 65536 * (W(i - 1) * W(j));
    }
  }

  lemma {:induction false} ValSnoc(s: seq<i64>, k: nat)
    requires k < |s|
    ensures Val(s[..k + 1]) == Val(s[..k]) + s[k] as int * W(k)
  {
    assert s[..k + 1][..k] == s[..k];
  }

  lemma {:induction false} ValUpdate(s: seq<i64>, k: nat, v: i64)
    requires k < |s|
    ensures Val(s[k := v]) == Val(s) + (v as int - s[k] as int) * W(k)
  {
    var t := s[k := v];
    var n := |s| - 1;
    if k == n {
      assert t[..n] == s[..n];
      assert v as int * W(n) == s[n] as int * W(n) + (v as int - s[n] as int) * W(n);
    } else {
      assert t[..n] == s[..n][k := v];
      ValUpdate(s[..n], k, v);
    }
  }

  /** Pointwise equal limbs up to a point give equal values. */
  lemma {:induction false} ValLinear(r: seq<i64>, a: seq<i64>, b: seq<i64>, sign: int)
    requires |r| == |a| == |b|
    requires sign == 1 || sign == -1
    requires forall k :: 0 <= k < |r| ==> r[k] as int == a[k] as int + sign * b[k] as int
    ensures Val(r) == Val(a) + sign * Val(b)
  {
    if |r| > 0 {
      var n := |r| - 1;
      ValLinear(r[..n], a[..n], b[..n], sign);
      assert r[n] as int * W(n) == a[n] as int * W(n) + sign * (b[n] as int * W(n)) by {
        MulDistributes(W(n), a[n] as int, b[n] as int, sign);
      }
    }
  }

  lemma MulDistributes(w: int, x: int, y: int, sign: int)
    requires sign == 1 || sign == -1
    ensures (x + sign * y) * w == x * w + sign * (y * w)
  {
  }

  /** All limbs lie strictly between -m and m. */
  predicate Within(s: seq<i64>, m: int) {
    forall k :: 0 <= k < |s| ==> -m < s[k] as int < m
  }

  /** What two carry passes leave: a 16-bit value in every limb, limb 0 off by at most 38. */
  predicate Reduced(s: seq<i64>) {
    && |s| == 16
    && -38 <= s[0] as int < 65536 + 38
    && forall k :: 1 <= k < 16 ==> 0 <= s[k] as int < 65536
  }

  /** Every limb is a 16-bit value. */
  predicate Normal(s: seq<i64>) {
    |s| == 16 && forall k :: 0 <= k < 16 ==> 0 <= s[k] as int < 65536
  }

  predicate OffBy(x: int, y: int, q: int) {
    x - y == q * P
  }

  /** x and y are the same field element. */
  ghost predicate Congruent(x: int, y: int) {
    exists q :: OffBy(x, y, q)
  }

  lemma CongruentTrans(x: int, y: int, z: int)
    requires Congruent(x, y) && Congruent(y, z)
    ensures Congruent(x, z)
  {
    var p :| OffBy(x, y, p);
    var q :| OffBy(y, z, q);
    assert OffBy(x, z, p + q);
  }

  lemma CongruentMul(a: int, b: int, c: int, d: int)
    requires Congruent(a, c) && Congruent(b, d)
    ensures Congruent(a * b, c * d)
  {
    var p :| OffBy(a, c, p);
    var q :| OffBy(b, d, q);
    assert a * b - c * d == (a - c) * b + c * (b - d);
    assert (a - c) * b == p * b * P;
    assert c * (b - d) == c * q * P;
    assert OffBy(a * b, c * d, p * b + c * q);
  }

  /** Division with remainder has one answer. */
  lemma ModUnique(x: int, q: int, r: int)
    requires x == q * P + r && 0 <= r < P
    ensures x % P == r && x / P == q
  {
    if x / P != q {
      MultipleIsFar(x / P - q, P);
      assert false;
    }
  }

  /** Congruence is equality of remainders. */
  lemma CongruentMod(x: int, y: int)
    ensures Congruent(x, y) <==> x % P == y % P
  {
    if Congruent(x, y) {
      var q :| OffBy(x, y, q);
      ModUnique(x, y / P + q, y % P);
    }
    if x % P == y % P {
      assert OffBy(x, y, x / P - y / P);
    }
  }

  // ---------------------------------------------------------------- car25519

  /** Limb k once the carry from below has been added to it. */
  function Loaded(s: seq<i64>, k: nat): int
    requires k < |s|
    decreases k, 1
  {
    s[k] as int + (if k == 0 then 0 else Carry(s, k - 1))
  }

  /** The carry that leaves limb k when carries run upwards from limb 0. */
  function Carry(s: seq<i64>, k: nat): int
    requires k < |s|
    decreases k, 2
  {
    Loaded(s, k) / 65536
  }

  /** The 16 bits that stay in limb k. */
  function Kept(s: seq<i64>, k: nat): (r: int)
    requires k < |s|
    ensures 0 <= r < 65536
    ensures Loaded(s, k) == 65536 * Carry(s, k) + r
  {
    Loaded(s, k) % 65536
  }

  /** `r` is `s` after one carry pass: the carry out of the top limb re-enters limb 0 times 38. */
  ghost predicate IsCarried(s: seq<i64>, r: seq<i64>) {
    && |s| == |r| == 16
    && r[0] as int == Kept(s, 0) + 38 * Carry(s, 15)
    && forall k :: 1 <= k < 16 ==> r[k] as int == Kept(s, k)
  }

  lemma {:induction false} CarryBound(s: seq<i64>, m: int, b: int, k: nat)
    requires k < |s| && Within(s, m) && 0 < m <= 65535 * b
    ensures -b <= Carry(s, k) <= b
  {
    if k > 0 {
      CarryBound(s, m, b, k - 1);
    }
  }

  lemma PrefixStep(limb: int, carryIn: int, kept: int, carryOut: int, w: int)
    requires limb + carryIn == 65536 * carryOut + kept
    ensures kept * w == limb * w + carryIn * w - carryOut * (65536 * w)
  {
    calc {
      kept * w;
      (limb + carryIn - 65536 * carryOut) * w;
      limb * w + carryIn * w - 65536 * carryOut * w;
    }
  }

  /** The value of the low limbs changes by the carry that has left them. */
  lemma {:induction false} CarriedPrefix(s: seq<i64>, r: seq<i64>, n: nat)
    requires n < 16 && IsCarried(s, r)
    ensures Val(r[..n + 1]) == Val(s[..n + 1]) - Carry(s, n) * W(n + 1) + 38 * Carry(s, 15)
  {
    var w := W(n);
    assert Val(s[..n + 1]) == Val(s[..n]) + s[n] as int * w by { ValSnoc(s, n); }
    assert Val(r[..n + 1]) == Val(r[..n]) + r[n] as int * w by { ValSnoc(r, n); }
    if n == 0 {
      assert r[..0] == [] && s[..0] == [];
    } else {
      CarriedPrefix(s, r, n - 1);
      PrefixStep(s[n] as int, Carry(s, n - 1), Kept(s, n), Carry(s, n), w);
    }
  }

  lemma TopWeight(n: nat)
    requires n == 16
    ensures W(n) == 2 * P + 38
  {
    assert W(4) == 0x1_0000_0000_0000_0000;
    WeightSum(4, 4);
    WeightSum(8, 8);
  }

  /** 2^256 and 38 stand for the same residue, so a multiple of one may be traded for the other. */
  lemma Trade(x: int, y: int, c: int, w: int)
    requires w == 2 * P + 38 && x == y - c * w + 38 * c
    ensures Congruent(x, y)
  {
    assert c * w == c * (2 * P) + c * 38;
    assert OffBy(x, y, -2 * c);
  }

  /** A carry pass keeps the residue modulo 2^255 - 19. */
  lemma CarriedCongruent(s: seq<i64>, r: seq<i64>)
    requires IsCarried(s, r)
    ensures Congruent(Val(r), Val(s))
  {
    CarriedPrefix(s, r, 15);
    assert s[..16] == s && r[..16] == r;
    TopWeight(16);
    Trade(Val(r), Val(s), Carry(s, 15), W(16));
  }

  const BIG: int := 0x4000_0000_0000_0000

  /** Multiplication accepts limbs below this bound. */
  const LIMB: int := 0x400_0000

  /** First pass: limbs up to 2^62 shrink to 16 bits, limb 0 to about 2^52. */
  lemma CarriedOnce(s: seq<i64>, r: seq<i64>)
    requires IsCarried(s, r) && Within(s, BIG)
    ensures -0x10_0000_0000_0000 < r[0] as int < 0x10_0000_0000_0000
    ensures forall k :: 1 <= k < 16 ==> 0 <= r[k] as int < 65536
  {
    CarryBound(s, BIG, 0x5000_0000_0000, 15);
  }

  /** Once a carry of -1, 0 or 1 enters a run of 16-bit limbs, only such carries leave it. */
  lemma {:induction false} CarrySmall(s: seq<i64>, from: nat, k: nat)
    requires from <= k < |s|
    requires forall j :: from < j < |s| ==> 0 <= s[j] as int < 65536
    requires -1 <= Carry(s, from) <= 1
    ensures -1 <= Carry(s, k) <= 1
  {
    if from < k {
      CarrySmall(s, from, k - 1);
    }
  }

  /** Second pass: limb 0 comes within 38 of a 16-bit value. */
  lemma CarriedTwice(s: seq<i64>, r: seq<i64>)
    requires IsCarried(s, r)
    requires -0x10_0000_0000_0000 < s[0] as int < 0x10_0000_0000_0000
    requires forall k :: 1 <= k < 16 ==> 0 <= s[k] as int < 65536
    ensures Reduced(r)
  {
    assert -0x10_0000_0000 <= Carry(s, 0) <= 0x10_0000_0000;
    assert -0x10_0001 <= Carry(s, 1) <= 0x10_0001;
    assert -18 <= Carry(s, 2) <= 18;
    assert -1 <= Carry(s, 3) <= 1;
    CarrySmall(s, 3, 15);
  }

  /** The sign a carry takes in a run of 16-bit limbs is the sign it entered with, or none. */
  lemma {:induction false} CarrySign(s: seq<i64>, k: nat)
    requires k < 16 && Reduced(s)
    ensures s[0] as int < 0 ==> -1 <= Carry(s, k) <= 0
    ensures 0 <= s[0] as int < 65536 ==> Carry(s, k) == 0
    ensures s[0] as int >= 65536 ==> 0 <= Carry(s, k) <= 1
  {
    if k > 0 {
      CarrySign(s, k - 1);
    }
  }

  /** Third pass: every limb is a 16-bit value. */
  lemma CarriedThrice(s: seq<i64>, r: seq<i64>)
    requires IsCarried(s, r) && Reduced(s)
    ensures Normal(r)
  {
    CarrySign(s, 15);
  }

  method Car25519(o: array<i64>)
    requires o.Length == 16 && Within(o[..], BIG)
    modifies o
    ensures IsCarried(old(o[..]), o[..])
  {
    ghost var s := o[..];
    for i := 0 to 16
      invariant forall k :: i < k < 16 ==> o[k] == s[k]
      invariant i < 16 ==> o[i] as int == Loaded(s, i)
      invariant forall k :: 1 <= k < i ==> o[k] as int == Kept(s, k)
      invariant 0 < i < 16 ==> o[0] as int == Kept(s, 0)
      invariant i == 16 ==> o[0] as int == Kept(s, 0) + 38 * Carry(s, 15)
    {
      CarryBound(s, BIG, 0x5000_0000_0000, i);
      o[i] := o[i] + 65536;
      var c := o[i] / 65536;
      assert c as int - 1 == Carry(s, i);
      var next: int := if i < 15 then i + 1 else 0;
      o[next] := o[next] + (c - 1 + 37 * (c - 1) * (if i == 15 then 1 else 0));
      o[i] := o[i] - c * 65536;
    }
  }

  // ---------------------------------------------------------------- sel25519

  /** Exclusive-or through the mask ~(b - 1) exchanges two words when b is 1, and keeps them when b is 0. */
  lemma MaskedSwap(p: i64, q: i64, b: i64)
    requires b == 0 || b == 1
    ensures var t := And(Not(b - 1), Xor(p, q));
            Xor(p, t) == (if b == 1 then q else p) && Xor(q, t) == (if b == 1 then p else q)
  {
    XorCancels(p as int, q as int);
    XorCancels(q as int, p as int);
    XorCommutes(p as int, q as int);
    XorZero(p as int);
    XorZero(q as int);
    AndMask(Xor(p, q) as int);
  }

  /** Exchanges `p` and `q` when b is 1 and leaves them alone when b is 0, by masking. */
  method Sel25519(p: array<i64>, q: array<i64>, b: i64)
    requires p.Length == 16 && q.Length == 16 && p != q && (b == 0 || b == 1)
    modifies p, q
    ensures b == 1 ==> p[..] == old(q[..]) && q[..] == old(p[..])
    ensures b == 0 ==> p[..] == old(p[..]) && q[..] == old(q[..])
  {
    var c := Not(b - 1);
    for i := 0 to 16
      invariant forall k :: 0 <= k < i ==> p[k] == if b == 1 then old(q[k]) else old(p[k])
      invariant forall k :: 0 <= k < i ==> q[k] == if b == 1 then old(p[k]) else old(q[k])
      invariant forall k :: i <= k < 16 ==> p[k] == old(p[k]) && q[k] == old(q[k])
    {
      MaskedSwap(p[i], q[i], b);
      var t := And(c, Xor(p[i], q[i]));
      p[i] := Xor(p[i], t);
      q[i] := Xor(q[i], t);
    }
  }

  // ---------------------------------------------------------------- A, Z, M, S

  method A(o: array<i64>, a: array<i64>, b: array<i64>)
    requires o.Length == 16 && a.Length == 16 && b.Length == 16
    requires Within(a[..], BIG) && Within(b[..], BIG)
    modifies o
    ensures Val(o[..]) == old(Val(a[..]) + Val(b[..]))
    ensures forall k :: 0 <= k < 16 ==> o[k] == old(a[k]) + old(b[k])
    ensures old(Reduced(a[..]) && Reduced(b[..])) ==> Within(o[..], LIMB)
  {
    ghost var x, y := a[..], b[..];
    for i := 0 to 16
      invariant forall k :: 0 <= k < i ==> o[k] == x[k] + y[k]
      invariant forall k :: i <= k < 16 ==> a[k] == x[k] && b[k] == y[k]
    {
      o[i] := a[i] + b[i];
    }
    ValLinear(o[..], x, y, 1);
  }

  method Z(o: array<i64>, a: array<i64>, b: array<i64>)
    requires o.Length == 16 && a.Length == 16 && b.Length == 16
    requires Within(a[..], BIG) && Within(b[..], BIG)
    modifies o
    ensures Val(o[..]) == old(Val(a[..]) - Val(b[..]))
    ensures forall k :: 0 <= k < 16 ==> o[k] == old(a[k]) - old(b[k])
    ensures old(Reduced(a[..]) && Reduced(b[..])) ==> Within(o[..], LIMB)
  {
    ghost var x, y := a[..], b[..];
    for i := 0 to 16
      invariant forall k :: 0 <= k < i ==> o[k] == x[k] - y[k]
      invariant forall k :: i <= k < 16 ==> a[k] == x[k] && b[k] == y[k]
    {
      o[i] := a[i] - b[i];
    }
    ValLinear(o[..], x, y, -1);
  }

  const LIMB2: int := 0x10_0000_0000_0000

  lemma ProductBound(a: int, b: int, m: int)
    requires -m < a < m && -m < b < m
    ensures -(m * m) < a * b < m * m
  {
    assert (m - a) * (m + b) > 0 && (m + a) * (m - b) > 0;
    assert (m - a) * (m - b) > 0 && (m + a) * (m + b) > 0;
  }

  /** One more partial product a_i * b_j at weight i + j. */
  lemma PartialProduct(x: int, y: int, i: nat, j: nat, low: int)
    ensures x * W(i) * (low + y * W(j)) == x * W(i) * low + x * y * W(i + j)
  {
    WeightSum(i, j);
    ProductStep(x, W(i), low, y, W(j));
  }

  lemma ProductStep(x: int, w: int, low: int, y: int, v: int)
    ensures x * w * (low + y * v) == x * w * low + x * y * (w * v)
  {
    assert x * w * (y * v) == x * y * (w * v);
  }

  lemma Distribute(u: int, v: int, w: int)
    ensures (u + v) * w == u * w + v * w
  {
  }

  lemma {:induction false} ValZeros(s: seq<i64>)
    requires forall k :: 0 <= k < |s| ==> s[k] == 0
    ensures Val(s) == 0
  {
    if |s| > 0 {
      ValZeros(s[..|s| - 1]);
    }
  }

  /** Adds row i of the schoolbook product: t += a_i * b shifted by i limbs. */
  method AddRow(t: array<i64>, x: i64, b: array<i64>, i: nat)
    requires t.Length == 31 && b.Length == 16 && i < 16 && t != b
    requires -LIMB < x as int < LIMB && Within(b[..], LIMB)
    requires forall k :: 0 <= k < 31 ==> -(i * LIMB2) <= t[k] as int <= i * LIMB2
    modifies t
    ensures Val(t[..]) == old(Val(t[..])) + x as int * W(i) * Val(b[..])
    ensures forall k :: 0 <= k < 31 ==> -((i + 1) * LIMB2) <= t[k] as int <= (i + 1) * LIMB2
  {
    ghost var before := Val(t[..]);
    assert b[..0] == [];
    for j := 0 to 16
      invariant Val(t[..]) == before + x as int * W(i) * Val(b[..j])
      invariant forall k :: i <= k < i + j ==> -((i + 1) * LIMB2) <= t[k] as int <= (i + 1) * LIMB2
      invariant forall k :: 0 <= k < 31 && !(i <= k < i + j) ==> -(i * LIMB2) <= t[k] as int <= i * LIMB2
    {
      ProductBound(x as int, b[j] as int, LIMB);
      ghost var s := t[..];
      t[i + j] := t[i + j] + x * b[j];
      assert t[..] == s[i + j := t[i + j]];
      ValUpdate(s, i + j, t[i + j]);
      ValSnoc(b[..], j);
      assert b[..][..j] == b[..j] && b[..][..j + 1] == b[..j + 1];
      PartialProduct(x as int, b[j] as int, i, j, Val(b[..j]));
    }
    assert b[..16] == b[..];
  }

  /** Limb k of a 31-limb vector plus 38 times the limb 16 places above it. */
  function Folded(t: seq<i64>, k: nat): int
    requires k < 16 && |t| == 31
  {
    if k < 15 then t[k] as int + 38 * t[k + 16] as int else t[15] as int
  }

  /** Folding the upper fifteen limbs down, times 38, keeps the residue. */
  lemma {:induction false} FoldPrefix(t: seq<i64>, o: seq<i64>, n: nat)
    requires |t| == 31 && |o| == 16 && n <= 15
    requires forall k :: 0 <= k < 16 ==> o[k] as int == Folded(t, k)
    ensures Val(o[..n]) == Val(t[..n]) + 38 * Val(t[16..][..n])
  {
    if n > 0 {
      FoldPrefix(t, o, n - 1);
      ValSnoc(o, n - 1);
      ValSnoc(t, n - 1);
      ValSnoc(t[16..], n - 1);
      FoldStep(t[n - 1] as int, t[n + 15] as int, W(n - 1));
    }
  }

  lemma FoldStep(low: int, high: int, w: int)
    ensures (low + 38 * high) * w == low * w + 38 * (high * w)
  {
  }

  lemma {:induction false} ValSplit(t: seq<i64>, m: nat, n: nat)
    requires m + n <= |t|
    ensures Val(t[..m + n]) == Val(t[..m]) + W(m) * Val(t[m..][..n])
    decreases n
  {
    if n > 0 {
      var k := m + n - 1;
      var low, high, limb, w := Val(t[..m]), Val(t[m..][..n - 1]), t[k] as int, W(n - 1);
      assert Val(t[..k + 1]) == low + W(m) * high + limb * W(k) by {
        ValSplit(t, m, n - 1);
        ValSnoc(t, k);
      }
      assert Val(t[m..][..n]) == high + limb * w by { ValSnoc(t[m..], n - 1); }
      assert W(k) == W(m) * w by { WeightSum(m, n - 1); }
      SplitStep(high, limb, w, W(m));
    }
  }

  lemma SplitStep(v: int, limb: int, w: int, w16: int)
    ensures w16 * (v + limb * w) == w16 * v + limb * (w16 * w)
  {
    assert w16 * (limb * w) == limb * (w16 * w);
  }

  lemma FoldCongruent(t: seq<i64>, o: seq<i64>, n: nat)
    requires |t| == 31 && |o| == 16 && n == 15
    requires forall k :: 0 <= k < 16 ==> o[k] as int == Folded(t, k)
    ensures Congruent(Val(o), Val(t))
  {
    FoldPrefix(t, o, n);
    ValSnoc(o, n);
    ValSnoc(t, n);
    ValSplit(t, n + 1, n);
    assert o[..n + 1] == o && t[..16 + n] == t;
    TopWeight(n + 1);
    Trade(Val(o), Val(t), Val(t[16..][..n]), W(n + 1));
  }

  /** Two carry passes over limbs below 2^62. */
  method CarryTwice(o: array<i64>)
    requires o.Length == 16 && Within(o[..], BIG)
    modifies o
    ensures Congruent(Val(o[..]), old(Val(o[..]))) && Reduced(o[..])
  {
    ghost var s := o[..];
    Car25519(o);
    ghost var r := o[..];
    CarriedCongruent(s, r);
    CarriedOnce(s, r);
    Car25519(o);
    CarriedCongruent(r, o[..]);
    CarriedTwice(r, o[..]);
    CongruentTrans(Val(o[..]), Val(r), Val(s));
  }

  /** The 31-limb product of two limb vectors. */
  method Product(a: array<i64>, b: array<i64>) returns (t: array<i64>)
    requires a.Length == 16 && b.Length == 16
    requires Within(a[..], LIMB) && Within(b[..], LIMB)
    ensures fresh(t) && t.Length == 31 && Val(t[..]) == Val(a[..]) * Val(b[..])
    ensures forall k :: 0 <= k < 31 ==> -(16 * LIMB2) <= t[k] as int <= 16 * LIMB2
  {
    t := new i64[31](_ => 0);
    ValZeros(t[..]);
    ghost var x, y := a[..], Val(b[..]);
    assert x[..0] == [];
    for i := 0 to 16
      invariant a[..] == x && Val(b[..]) == y
      invariant Val(t[..]) == Val(x[..i]) * y
      invariant forall k :: 0 <= k < 31 ==> -(i * LIMB2) <= t[k] as int <= i * LIMB2
    {
      AddRow(t, a[i], b, i);
      ValSnoc(x, i);
      Distribute(Val(x[..i]), x[i] as int * W(i), y);
    }
    assert x[..16] == x;
  }

  /** Adds 38 times the upper fifteen limbs to the lower ones and copies the result out. */
  method FoldHigh(o: array<i64>, t: array<i64>)
    requires o.Length == 16 && t.Length == 31 && o != t
    requires forall k :: 0 <= k < 31 ==> -(16 * LIMB2) <= t[k] as int <= 16 * LIMB2
    modifies o, t
    ensures forall k :: 0 <= k < 16 ==> o[k] as int == Folded(old(t[..]), k)
    ensures Within(o[..], BIG)
  {
    ghost var wide := t[..];
    for i := 0 to 15
      invariant forall k :: 0 <= k < i ==> t[k] as int == Folded(wide, k)
      invariant forall k :: i <= k < 31 ==> t[k] == wide[k]
    {
      t[i] := t[i] + 38 * t[i + 16];
    }
    assert forall k :: 0 <= k < 16 ==> t[k] as int == Folded(wide, k);
    for i := 0 to 16
      invariant forall k :: 0 <= k < i ==> o[k] == t[k]
      invariant forall k :: 0 <= k < 16 ==> t[k] as int == Folded(wide, k)
    {
      o[i] := t[i];
    }
  }

  /** The product modulo 2^255 - 19; `o` may be one of the factors. */
  method M(o: array<i64>, a: array<i64>, b: array<i64>)
    requires o.Length == 16 && a.Length == 16 && b.Length == 16
    requires Within(a[..], LIMB) && Within(b[..], LIMB)
    modifies o
    ensures Congruent(Val(o[..]), old(Val(a[..]) * Val(b[..])))
    ensures Reduced(o[..])
  {
    var t := Product(a, b);
    ghost var wide := t[..];
    FoldHigh(o, t);
    ghost var folded := o[..];
    FoldCongruent(wide, folded, 15);
    CarryTwice(o);
    CongruentTrans(Val(o[..]), Val(folded), Val(wide));
  }

  method S(o: array<i64>, a: array<i64>)
    requires o.Length == 16 && a.Length == 16 && Within(a[..], LIMB)
    modifies o
    ensures Congruent(Val(o[..]), old(Val(a[..]) * Val(a[..])))
    ensures Reduced(o[..])
  {
    M(o, a, a);
  }

  // ---------------------------------------------------------------- inv25519, pow2523

  function Exp(x: int, e: nat): int {
    if e == 0 then 1 else x * Exp(x, e - 1)
  }

  lemma {:induction false} ExpSum(x: int, d: nat, e: nat)
    ensures Exp(x, d + e) == Exp(x, d) * Exp(x, e)
  {
    if d > 0 {
      ExpSum(x, d - 1, e);
      assert x * (Exp(x, d - 1) * Exp(x, e)) == x * Exp(x, d - 1) * Exp(x, e);
    }
  }

  /** Squares `c`: the exponent it stands for doubles. */
  method SquareStep(c: array<i64>, ghost x: int, ghost e: nat)
    requires c.Length == 16 && Within(c[..], LIMB)
    requires Congruent(Val(c[..]), Exp(x, e))
    modifies c
    ensures Reduced(c[..]) && Congruent(Val(c[..]), Exp(x, 2 * e))
  {
    CongruentMul(Val(c[..]), Val(c[..]), Exp(x, e), Exp(x, e));
    ExpSum(x, e, e);
    ghost var v := Val(c[..]);
    S(c, c);
    CongruentTrans(Val(c[..]), v * v, Exp(x, 2 * e));
  }

  /** Multiplies `c` by the base: the exponent it stands for grows by one. */
  method MultiplyStep(c: array<i64>, i: array<i64>, ghost e: nat)
    requires c.Length == 16 && i.Length == 16 && c != i
    requires Within(c[..], LIMB) && Within(i[..], LIMB)
    requires Congruent(Val(c[..]), Exp(Val(i[..]), e))
    modifies c
    ensures Reduced(c[..]) && Congruent(Val(c[..]), Exp(Val(i[..]), e + 1))
  {
    ghost var x, v := Val(i[..]), Val(c[..]);
    assert OffBy(x, x, 0);
    CongruentMul(v, x, Exp(x, e), x);
    M(c, c, i);
    CongruentTrans(Val(c[..]), v * x, Exp(x, e + 1));
  }

  lemma ReducedWithin(s: seq<i64>)
    requires Reduced(s)
    ensures Within(s, LIMB)
  {
  }

  lemma Pow2Of252(n: nat)
    requires n == 252
    ensures Pow2(n) == (P + 19) / 8 && Pow2(n + 3) == P + 19
  {
    Pow2Of63(n / 4);
    Pow2Sum(n / 4, n / 4);
    Pow2Sum(n / 2, n / 2);
    assert Pow2(n + 3) == 2 * Pow2(n + 2) && Pow2(n + 2) == 2 * Pow2(n + 1);
  }

  /** The exponents the two chains below reach. */
  const INVERSE: nat := P - 2

  const ROOT: nat := (P - 5) / 8

  method Set25519(r: array<i64>, a: array<i64>)
    requires r.Length == 16 && a.Length == 16
    modifies r
    ensures r[..] == old(a[..])
  {
    for i := 0 to 16
      invariant forall k :: 0 <= k < i ==> r[k] == old(a[k])
      invariant forall k :: i <= k < 16 ==> a[k] == old(a[k])
    {
      r[i] := a[i];
    }
  }

  /** The exponent reached by `inv25519` when bit a is next: all ones but for bits 2 and 4. */
  function InvExponent(a: int): int
    requires -1 <= a <= 253
  {
    Pow2(254 - a) - (if a >= 4 then 1 else if a == 3 then 2 else if a == 2 then 3
                     else if a == 1 then 6 else if a == 0 then 11 else 21)
  }

  lemma InvExponentStep(a: int)
    requires 0 <= a <= 253
    ensures InvExponent(a - 1) == 2 * InvExponent(a) + (if a != 2 && a != 4 then 1 else 0)
  {
    assert Pow2(254 - (a - 1)) == 2 * Pow2(254 - a);
  }

  /** The exponent reached by `pow2523` when bit a is next: all ones but for bit 1. */
  function RootExponent(a: int): int
    requires -1 <= a <= 250
  {
    Pow2(251 - a) - (if a >= 1 then 1 else if a == 0 then 2 else 3)
  }

  lemma RootExponentStep(a: int)
    requires 0 <= a <= 250
    ensures RootExponent(a - 1) == 2 * RootExponent(a) + (if a != 1 then 1 else 0)
  {
    assert Pow2(251 - (a - 1)) == 2 * Pow2(251 - a);
  }

  /** Squares `c` and, when told to, multiplies it by the base `i` once more. */
  method ChainStep(c: array<i64>, i: array<i64>, multiply: bool, ghost e: nat)
    requires c.Length == 16 && i.Length == 16 && c != i
    requires Within(c[..], LIMB) && Within(i[..], LIMB)
    requires Congruent(Val(c[..]), Exp(Val(i[..]), e))
    modifies c
    ensures Reduced(c[..]) && Congruent(Val(c[..]), Exp(Val(i[..]), 2 * e + (if multiply then 1 else 0)))
  {
    SquareStep(c, Val(i[..]), e);
    ReducedWithin(c[..]);
    if multiply {
      MultiplyStep(c, i, 2 * e);
    }
  }

  /** Raises to the power 2^255 - 21, which is the exponent p - 2 of section 4.1 of RFC 7748. */
  method Inv25519(o: array<i64>, i: array<i64>)
    requires o.Length == 16 && i.Length == 16 && Within(i[..], LIMB)
    modifies o
    ensures Congruent(Val(o[..]), Exp(old(Val(i[..])), INVERSE)) && Reduced(o[..])
  {
    var c := new i64[16];
    Set25519(c, i);
    ghost var x, e: nat := Val(i[..]), 1;
    assert OffBy(x, Exp(x, e), 0);
    assert InvExponent(253) == 1;
    var a := 253;
    while a >= 0
      invariant -1 <= a <= 253 && Within(c[..], LIMB) && (a < 253 ==> Reduced(c[..]))
      invariant i[..] == old(i[..]) && e == InvExponent(a)
      invariant Congruent(Val(c[..]), Exp(x, e))
    {
      ChainStep(c, i, a != 2 && a != 4, e);
      ReducedWithin(c[..]);
      InvExponentStep(a);
      e := 2 * e + (if a != 2 && a != 4 then 1 else 0);
      a := a - 1;
    }
    Pow2Of252(254 - a - 3);
    Set25519(o, c);
  }

  /** Raises to the power 2^252 - 3, which is the exponent (p - 5) / 8 of section 5.1.3 of RFC 8032. */
  method Pow2523(o: array<i64>, i: array<i64>)
    requires o.Length == 16 && i.Length == 16 && Within(i[..], LIMB)
    modifies o
    ensures Congruent(Val(o[..]), Exp(old(Val(i[..])), ROOT)) && Reduced(o[..])
  {
    var c := new i64[16];
    Set25519(c, i);
    ghost var x, e: nat := Val(i[..]), 1;
    assert OffBy(x, Exp(x, e), 0);
    assert RootExponent(250) == 1;
    var a := 250;
    while a >= 0
      invariant -1 <= a <= 250 && Within(c[..], LIMB) && (a < 250 ==> Reduced(c[..]))
      invariant i[..] == old(i[..]) && e == RootExponent(a)
      invariant Congruent(Val(c[..]), Exp(x, e))
    {
      ChainStep(c, i, a != 1, e);
      ReducedWithin(c[..]);
      RootExponentStep(a);
      e := 2 * e + (if a != 1 then 1 else 0);
      a := a - 1;
    }
    Pow2Of252(251 - a);
    Set25519(o, c);
  }

  // ---------------------------------------------------------------- pack25519, unpack25519

  /** Limb k of 2^255 - 19. */
  function PrimeLimb(k: nat): i64 {
    if k == 0 then 0xffed else if k < 15 then 0xffff else 0x7fff
  }

  /** The value of the lowest `n` limbs of the prime. */
  function PrimeVal(n: nat): int {
    if n == 0 then 0 else PrimeVal(n - 1) + PrimeLimb(n - 1) as int * W(n - 1)
  }

  lemma {:induction false} PrimePrefix(n: nat)
    requires n < 15
    ensures PrimeVal(n + 1) == W(n + 1) - 19
  {
    if n > 0 {
      PrimePrefix(n - 1);
    }
  }

  lemma PrimeValue(n: nat)
    requires n == 15
    ensures PrimeVal(n + 1) == P
  {
    var v, w := PrimeVal(n), W(n);
    assert v == w - 19 by { PrimePrefix(n - 1); }
    assert 65536 * w == 2 * P + 38 by { TopWeight(n + 1); }
    assert PrimeVal(n + 1) == v + 0x7fff * w;
    PrimeTop(v, w);
  }

  lemma PrimeTop(v: int, w: int)
    requires v == w - 19 && 65536 * w == 2 * P + 38
    ensures v + 0x7fff * w == P
  {
  }

  lemma {:induction false} NormalRange(s: seq<i64>)
    requires forall k :: 0 <= k < |s| ==> 0 <= s[k] as int < 65536
    ensures 0 <= Val(s) < W(|s|)
  {
    if |s| > 0 {
      NormalRange(s[..|s| - 1]);
      LimbRange(s[|s| - 1] as int, W(|s| - 1));
    }
  }

  lemma LimbRange(limb: int, w: int)
    requires 0 <= limb < 65536 && w > 0
    ensures 0 <= limb * w <= 65535 * w
  {
  }

  lemma BorrowStep(x: seq<i64>, y: seq<i64>, i: nat, b: int, d: int)
    requires 1 <= i < 16 && |x| == |y| == 16
    requires y[..i - 1] == x[..i - 1]
    requires y[i - 1] as int == x[i - 1] as int + 65536 * b && y[i] as int == d - b
    ensures Val(y[..i + 1]) == Val(x[..i]) + d * W(i)
  {
    ValSnoc(x, i - 1);
    ValSnoc(y, i - 1);
    ValSnoc(y, i);
    BorrowInts(x[i - 1] as int, b, d, W(i - 1));
  }

  lemma BorrowInts(x: int, b: int, d: int, w: int)
    ensures (x + 65536 * b) * w + (d - b) * (65536 * w) == x * w + d * (65536 * w)
  {
    assert (d - b) * (65536 * w) == d * (65536 * w) - b * (65536 * w);
  }

  /** The difference from the prime grows by the difference of the next limbs. */
  lemma DifferenceStep(t: seq<i64>, i: nat)
    requires i < 16 && |t| == 16
    ensures Val(t[..i + 1]) - PrimeVal(i + 1)
         == Val(t[..i]) - PrimeVal(i) + (t[i] as int - PrimeLimb(i) as int) * W(i)
  {
    ValSnoc(t, i);
    MulDistributes(W(i), t[i] as int, PrimeLimb(i) as int, -1);
  }

  /** The limbs of a subtraction when limb i is next: limb i - 1 still carries its sign. */
  predicate Subtracting(m: seq<i64>, i: nat) {
    && 1 <= i <= 16 && |m| == 16
    && (i < 16 ==> -65536 <= m[i - 1] as int < 65536)
    && (i == 16 ==> -0x8000 <= m[15] as int <= 0x8000)
    && forall k :: 0 <= k < i - 1 ==> 0 <= m[k] as int < 65536
  }

  /** The value subtracted so far, when limb i is next. */
  ghost predicate PrefixDiffers(m: seq<i64>, t: seq<i64>, i: nat) {
    i <= |m| && i <= |t| && Val(m[..i]) == Val(t[..i]) - PrimeVal(i)
  }

  lemma SubtractStep(x: seq<i64>, y: seq<i64>, t: seq<i64>, i: nat)
    requires 1 <= i < 16 && |x| == |y| == |t| == 16 && PrefixDiffers(x, t, i)
    requires y[..i - 1] == x[..i - 1] && -65536 <= x[i - 1] as int < 65536
    requires y[i - 1] == x[i - 1] % 65536
    requires y[i] as int == t[i] as int - PrimeLimb(i) as int - x[i - 1] as int / 65536 % 2
    ensures PrefixDiffers(y, t, i + 1)
  {
    var b, d := x[i - 1] as int / 65536 % 2, t[i] as int - PrimeLimb(i) as int;
    BorrowTaken(x[i - 1], y[i - 1]);
    var vx, vy, vt := Val(x[..i]), Val(y[..i + 1]), Val(t[..i + 1]) - PrimeVal(i + 1);
    assert vy == vx + d * W(i) by { BorrowStep(x, y, i, b, d); }
    assert vt == vx + d * W(i) by { DifferenceStep(t, i); }
  }

  /** The value subtracted so far, under a name that does not unfold. */
  ghost predicate IsDiffers(differs: (seq<i64>, seq<i64>, nat) -> bool) {
    forall m: seq<i64>, t: seq<i64>, i: nat {:trigger PrefixDiffers(m, t, i)} ::
      differs(m, t, i) == PrefixDiffers(m, t, i)
  }

  lemma SubtractStart(m: seq<i64>, t: seq<i64>, n: nat, differs: (seq<i64>, seq<i64>, nat) -> bool)
    requires IsDiffers(differs) && |m| == |t| == 16 && n == 1 && m[0] as int == t[0] as int - 0xffed
    ensures differs(m, t, n)
  {
    DifferenceStep(t, n - 1);
    ValSnoc(m, n - 1);
    assert m[..n - 1] == [] && t[..n - 1] == [];
    assert PrefixDiffers(m, t, n);
  }

  method SubtractLimb(m: array<i64>, t: array<i64>, i: nat, ghost differs: (seq<i64>, seq<i64>, nat) -> bool)
    requires m.Length == 16 && t.Length == 16 && m != t && Normal(t[..]) && 1 <= i < 16
    requires IsDiffers(differs) && Subtracting(m[..], i) && differs(m[..], t[..], i)
    modifies m
    ensures Subtracting(m[..], i + 1) && differs(m[..], t[..], i + 1)
  {
    ghost var x := m[..];
    assert m[i - 1] == x[i - 1] && PrefixDiffers(x, t[..], i);
    m[i] := t[i] - (if i < 15 then 0xffff else 0x7fff) - m[i - 1] / 65536 % 2;
    m[i - 1] := m[i - 1] % 65536;
    assert m[..i - 1] == x[..i - 1];
    SubtractStep(x, m[..], t[..], i);
  }

  /** What the limbs of the prime are worth, likewise. */
  ghost predicate IsPrimeVal(prime: nat -> int) {
    forall n: nat {:trigger PrimeVal(n)} :: prime(n) == PrimeVal(n)
  }

  lemma PrimeAt(n: nat, prime: nat -> int)
    requires IsPrimeVal(prime) && n == 16
    ensures prime(n) == P
  {
    PrimeValue(n - 1);
    assert prime(n) == PrimeVal(n);
  }

  method SubtractLimbs(m: array<i64>, t: array<i64>, ghost differs: (seq<i64>, seq<i64>, nat) -> bool,
          ghost prime: nat -> int)
    requires m.Length == 16 && t.Length == 16 && m != t && Normal(t[..]) && IsDiffers(differs) && IsPrimeVal(prime)
    modifies m
    ensures Val(m[..]) == Val(t[..]) - P
    ensures Subtracting(m[..], m.Length)
  {
    m[0] := t[0] - 0xffed;
    SubtractStart(m[..], t[..], 1, differs);
    for i := 1 to m.Length
      invariant Subtracting(m[..], i)
      invariant differs(m[..], t[..], i)
    {
      SubtractLimb(m, t, i, differs);
    }
    SubtractEnd(m[..], t[..], m.Length, differs, prime);
    PrimeAt(m.Length, prime);
  }

  /** m := t - p limb by limb, borrowing upwards; the sign stays in the top limb. */
  method SubtractPrime(m: array<i64>, t: array<i64>)
    requires m.Length == 16 && t.Length == 16 && m != t && Normal(t[..])
    modifies m
    ensures Val(m[..]) == Val(t[..]) - P
    ensures Subtracting(m[..], m.Length)
  {
    SubtractLimbs(m, t, PrefixDiffers, PrimeVal);
  }

  lemma SubtractEnd(m: seq<i64>, t: seq<i64>, n: nat, differs: (seq<i64>, seq<i64>, nat) -> bool, prime: nat -> int)
    requires IsDiffers(differs) && IsPrimeVal(prime) && |m| == n && |t| == n && differs(m, t, n)
    ensures Val(m) == Val(t) - prime(n)
  {
    assert PrefixDiffers(m, t, n);
    assert m[..n] == m && t[..n] == t;
  }

  lemma BorrowTaken(x: i64, masked: i64)
    requires -65536 <= x as int < 65536 && masked == x % 65536
    ensures masked as int == x as int + 65536 * (x as int / 65536 % 2)
  {
  }

  /** With 16-bit limbs below it, the sign of the top limb is the sign of the whole. */
  lemma TopSign(m: seq<i64>, n: nat)
    requires |m| == 16 && n == 15 && forall k :: 0 <= k < 15 ==> 0 <= m[k] as int < 65536
    ensures m[15] < 0 <==> Val(m) < 0
  {
    var low, w := Val(m[..n]), W(n);
    assert 0 <= low < w by { NormalRange(m[..n]); }
    assert Val(m) == low + m[15] as int * w by { ValTop(m, n); }
    SignOf(low, m[15] as int, w);
  }

  lemma SignOf(low: int, top: int, w: int)
    requires 0 <= low < w
    ensures top < 0 <==> low + top * w < 0
  {
    if top < 0 {
      assert (-top - 1) * w >= 0;
    } else {
      assert top * w >= 0;
    }
  }

  /** The borrow out of the top limb tells whether the value was below the prime. */
  lemma FreezeChoice(t: seq<i64>, m: seq<i64>)
    requires Subtracting(m, 16) && Val(m) == Val(t) - P
    ensures m[15] as int / 65536 % 2 == if Val(t) < P then 1 else 0
    ensures Val(t) >= P ==> Normal(m)
  {
    assert m[15] < 0 <==> Val(m) < 0 by { TopSign(m, 15); }
  }

  /** One freeze step: subtract the prime when that leaves a value of at least zero. */
  method FreezeStep(t: array<i64>)
    requires t.Length == 16 && Normal(t[..])
    modifies t
    ensures Normal(t[..])
    ensures Val(t[..]) == old(Val(t[..])) - (if old(Val(t[..])) >= P then P else 0)
  {
    var m := new i64[16];
    SubtractPrime(m, t);
    FreezeChoice(t[..], m[..]);
    var b := m[15] / 65536 % 2;
    Sel25519(t, m, 1 - b);
  }

  /** The two bytes of limb k. */
  predicate BytesOfLimb(o: seq<byte>, limb: i64, k: nat) {
    2 * k + 1 < |o| && 0 <= limb as int < 65536 && o[2 * k] == limb as int % 256 && o[2 * k + 1] == limb as int / 256
  }

  lemma {:induction false} WeightPairs(n: nat)
    ensures Weight(2 * n) == W(n) && Weight(2 * n + 1) == 256 * W(n)
  {
    if n > 0 {
      WeightPairs(n - 1);
    }
  }

  lemma {:induction false} BytesValue(o: seq<byte>, t: seq<i64>, n: nat)
    requires n <= |t| && forall k :: 0 <= k < n ==> BytesOfLimb(o, t[k], k)
    requires 2 * n <= |o|
    ensures LeVal(o[..2 * n]) == Val(t[..n])
  {
    if n > 0 {
      var w, low, high := W(n - 1), o[2 * n - 2], o[2 * n - 1];
      BytesValue(o, t, n - 1);
      assert BytesOfLimb(o, t[n - 1], n - 1);
      assert Weight(2 * n - 2) == w && Weight(2 * n - 1) == 256 * w by { WeightPairs(n - 1); }
      assert LeVal(o[..2 * n]) == Val(t[..n - 1]) + low * w + high * (256 * w) by {
        LeValSnoc(o, 2 * n - 2);
        LeValSnoc(o, 2 * n - 1);
      }
      assert Val(t[..n]) == Val(t[..n - 1]) + (low + 256 * high) * w by { ValSnoc(t, n - 1); }
      TwoBytes(low, high, w);
    }
  }

  lemma BytesAll(o: seq<byte>, t: seq<i64>)
    requires |o| == 32 && |t| == 16 && forall k :: 0 <= k < 16 ==> BytesOfLimb(o, t[k], k)
    ensures LeVal(o) == Val(t)
  {
    BytesValue(o, t, |t|);
    assert o[..2 * |t|] == o && t[..|t|] == t;
  }

  lemma TwoBytes(low: int, high: int, w: int)
    ensures low * w + high * (256 * w) == (low + 256 * high) * w
  {
  }

  /** Three carry passes make every limb a 16-bit value. */
  method Normalise(t: array<i64>)
    requires t.Length == 16 && Within(t[..], BIG)
    modifies t
    ensures Normal(t[..]) && Congruent(Val(t[..]), old(Val(t[..])))
  {
    ghost var s := Val(t[..]);
    CarryTwice(t);
    ghost var r := t[..];
    Car25519(t);
    CarriedThrice(r, t[..]);
    CarriedCongruent(r, t[..]);
    CongruentTrans(Val(t[..]), Val(r), s);
  }

  lemma FrozenRemainder(v: int, x: int, q: int, r: int)
    requires Congruent(v, x) && v == r + q * P && 0 <= r < P
    ensures r == x % P
  {
    CongruentMod(v, x);
    ModUnique(v, q, r);
  }

  method WriteLimbs(o: array<byte>, t: array<i64>)
    requires o.Length == 32 && t.Length == 16 && Normal(t[..])
    modifies o
    ensures LeVal(o[..]) == Val(t[..])
  {
    ghost var s := t[..];
    for i := 0 to 16
      invariant forall k :: 0 <= k < i ==> BytesOfLimb(o[..], s[k], k)
    {
      o[2 * i] := (t[i] % 256) as int;
      o[2 * i + 1] := (t[i] / 256) as int;
    }
    BytesAll(o[..], s);
  }

  /** The 32 bytes of the one representative in [0, 2^255 - 19). */
  method Pack25519(o: array<byte>, n: array<i64>)
    requires o.Length == 32 && n.Length == 16 && Within(n[..], BIG)
    modifies o
    ensures LeVal(o[..]) == Val(n[..]) % P
  {
    var t := new i64[16];
    Set25519(t, n);
    Normalise(t);
    ghost var v := Val(t[..]);
    NormalRange(t[..]);
    TopWeight(t.Length);
    FreezeStep(t);
    FreezeStep(t);
    FrozenRemainder(v, Val(n[..]), if v >= 2 * P then 2 else if v >= P then 1 else 0, Val(t[..]));
    WriteLimbs(o, t);
  }

  /** The limbs of a 32-byte string, its top bit ignored. */
  method Unpack25519(o: array<i64>, n: seq<byte>)
    requires o.Length == 16 && |n| == 32
    modifies o
    ensures Normal(o[..]) && Val(o[..]) == LeVal(n) % (P + 19)
  {
    for i := 0 to 16
      invariant forall k :: 0 <= k < i ==> BytesOfLimb(n, o[k], k)
    {
      o[i] := n[2 * i] as i64 + n[2 * i + 1] as i64 * 256;
    }
    ghost var s := o[..];
    BytesAll(n, s);
    o[15] := o[15] % 0x8000;
    TopBitDropped(s, o[..], 15);
  }

  lemma TopBitDropped(s: seq<i64>, r: seq<i64>, n: nat)
    requires Normal(s) && n == 15 && r == s[n := s[15] % 0x8000]
    ensures Normal(r) && Val(r) == Val(s) % (P + 19)
  {
    var q, low := s[15] as int / 0x8000, Val(s[..n]);
    assert r[..n] == s[..n];
    assert Val(r) == low + r[15] as int * W(n) by { ValTop(r, n); }
    assert Val(s) == low + s[15] as int * W(n) by { ValTop(s, n); }
    assert 0 <= low < W(n) by { NormalRange(s[..n]); }
    assert 65536 * W(n) == 2 * P + 38 by { TopWeight(n + 1); }
    TopBit(Val(s), Val(r), low, s[15] as int, r[15] as int, q, W(n));
  }

  lemma ValTop(s: seq<i64>, n: nat)
    requires |s| == n + 1
    ensures Val(s) == Val(s[..n]) + s[n] as int * W(n)
  {
  }

  lemma TopBit(s: int, r: int, low: int, limb: int, top: int, q: int, w: int)
    requires 65536 * w == 2 * P + 38 && 0 <= low < w && 0 <= top < 0x8000 && 0 <= q <= 1
    requires limb == top + 0x8000 * q && r == low + top * w && s == low + limb * w
    ensures r == s % (P + 19)
  {
    assert w == (2 * P + 38) / 65536;
    assert s == r + q * (P + 19);
  }

  /**
   The packed form is canonical: two limb vectors pack to the same bytes exactly when they stand
   for the same field element.
   */
  lemma PackCanonical(x: seq<byte>, y: seq<byte>, a: seq<i64>, b: seq<i64>)
    requires |x| == |y| == 32 && LeVal(x) == Val(a) % P && LeVal(y) == Val(b) % P
    ensures x == y <==> Congruent(Val(a), Val(b))
  {
    CongruentMod(Val(a), Val(b));
    if LeVal(x) == LeVal(y) {
      LeValInjective(x, y);
    }
  }
}
