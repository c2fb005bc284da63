/**
 SHA-256: the definition of sections 5 and 6.2 of FIPS 180-4 over a whole message, and the
 streaming context that computes it one byte at a time in a 64-byte buffer.
 */
module Sha256 {

  import opened Bytes
  import opened Bitwise

  type word = u32

  // ---------------------------------------------------------------- the definition

  function Ch(x: word, y: word, z: word): word { Xor32(And32(x, y), And32(Not32(x), z)) }

  function Maj(x: word, y: word, z: word): word { Xor32(Xor32(And32(x, y), And32(x, z)), And32(y, z)) }

  /** Rotations by 2, 13 and 22 places. */
  function Ep0(x: word): word {
    Xor32(Xor32(RotateRight32(x, 0x4, 0x40000000), RotateRight32(x, 0x2000, 0x80000)),
          RotateRight32(x, 0x400000, 0x400))
  }

  /** Rotations by 6, 11 and 25 places. */
  function Ep1(x: word): word {
    Xor32(Xor32(RotateRight32(x, 0x40, 0x4000000), RotateRight32(x, 0x800, 0x200000)),
          RotateRight32(x, 0x2000000, 0x80))
  }

  /** Rotations by 7 and 18 places, shift by 3. */
  function Sig0(x: word): word {
    Xor32(Xor32(RotateRight32(x, 0x80, 0x2000000), RotateRight32(x, 0x40000, 0x4000)), ShiftRight32(x, 0x8))
  }

  /** Rotations by 17 and 19 places, shift by 10. */
  function Sig1(x: word): word {
    Xor32(Xor32(RotateRight32(x, 0x20000, 0x8000), RotateRight32(x, 0x80000, 0x2000)), ShiftRight32(x, 0x400))
  }

  const K_0: seq<word> := [
    0x428a2f98, 0x71374491, 0xb5c0fbcf, 0xe9b5dba5, 0x3956c25b, 0x59f111f1, 0x923f82a4, 0xab1c5ed5,
    0xd807aa98, 0x12835b01, 0x243185be, 0x550c7dc3, 0x72be5d74, 0x80deb1fe, 0x9bdc06a7, 0xc19bf174]

  const K_1: seq<word> := [
    0xe49b69c1, 0xefbe4786, 0x0fc19dc6, 0x240ca1cc, 0x2de92c6f, 0x4a7484aa, 0x5cb0a9dc, 0x76f988da,
    0x983e5152, 0xa831c66d, 0xb00327c8, 0xbf597fc7, 0xc6e00bf3, 0xd5a79147, 0x06ca6351, 0x14292967]

  const K_2: seq<word> := [
    0x27b70a85, 0x2e1b2138, 0x4d2c6dfc, 0x53380d13, 0x650a7354, 0x766a0abb, 0x81c2c92e, 0x92722c85,
    0xa2bfe8a1, 0xa81a664b, 0xc24b8b70, 0xc76c51a3, 0xd192e819, 0xd6990624, 0xf40e3585, 0x106aa070]

  const K_3: seq<word> := [
    0x19a4c116, 0x1e376c08, 0x2748774c, 0x34b0bcb5, 0x391c0cb3, 0x4ed8aa4a, 0x5b9cca4f, 0x682e6ff3,
    0x748f82ee, 0x78a5636f, 0x84c87814, 0x8cc70208, 0x90befffa, 0xa4506ceb, 0xbef9a3f7, 0xc67178f2]

  const K: seq<word> := K_0 + K_1 + K_2 + K_3

  function BigEndian(b0: byte, b1: byte, b2: byte, b3: byte): word {
    b0 * 0x100_0000 + b1 * 0x1_0000 + b2 * 0x100 + b3
  }

  /** The big-endian word at byte 4t of a block. */
  function BlockWord(block: seq<byte>, t: nat): word
    requires 4 * t + 3 < |block|
  {
    BigEndian(block[4 * t], block[4 * t + 1], block[4 * t + 2], block[4 * t + 3])
  }

  datatype Vars = Vars(a: word, b: word, c: word, d: word, e: word, f: word, g: word, h: word)

  function Round(v: Vars, k: word, w: word): Vars {
    var t1 := Add32(Add32(Add32(Add32(v.h, Ep1(v.e)), Ch(v.e, v.f, v.g)), k), w);
    var t2 := Add32(Ep0(v.a), Maj(v.a, v.b, v.c));
    Vars(Add32(t1, t2), v.a, v.b, v.c, Add32(v.d, t1), v.e, v.f, v.g)
  }

  /** Word t of the message schedule. */
  function Schedule(block: seq<byte>, t: nat): word
    requires |block| == 64 && t < 64
  {
    if t < 16 then BlockWord(block, t)
    else Add32(Add32(Add32(Sig1(Schedule(block, t - 2)), Schedule(block, t - 7)), Sig0(Schedule(block, t - 15))),
             Schedule(block, t - 16))
  }

  /** The working variables after `n` rounds over a block, starting from the hash value `h`. */
  function Rounds(h: Vars, block: seq<byte>, n: nat): Vars
    requires |block| == 64 && n <= 64
  {
    if n == 0 then h else Round(Rounds(h, block, n - 1), K[n - 1], Schedule(block, n - 1))
  }

  /** The hash value after one more block, of 64 bytes and hence of 64 rounds. */
  function Compress(h: Vars, block: seq<byte>): Vars
    requires |block| == 64
  {
    var v := Rounds(h, block, |block|);
    Vars(Add32(h.a, v.a), Add32(h.b, v.b), Add32(h.c, v.c), Add32(h.d, v.d),
         Add32(h.e, v.e), Add32(h.f, v.f), Add32(h.g, v.g), Add32(h.h, v.h))
  }

  type Compression = (Vars, seq<byte>) -> Vars

  /**
   `f` is the compression function. The trigger keeps the rounds out of every proof that does not
   mention `Compress` itself.
   */
  ghost predicate IsCompress(f: Compression) {
    forall h, block {:trigger Compress(h, block)} :: |block| == 64 ==> f(h, block) == Compress(h, block)
  }

  const INITIAL: Vars := Vars(0x6a09e667, 0xbb67ae85, 0x3c6ef372, 0xa54ff53a,
                              0x510e527f, 0x9b05688c, 0x1f83d9ab, 0x5be0cd19)

  /** The hash value after every complete block of `data`, starting from `h`. */
  function Absorb(f: Compression, h: Vars, data: seq<byte>): Vars
    decreases |data|
  {
    if |data| < 64 then h else Absorb(f, f(h, data[..64]), data[64..])
  }

  function Zeros(n: nat): (z: seq<byte>)
    ensures |z| == n
    ensures forall i :: 0 <= i < n ==> z[i] == 0
  {
    seq(n, _ => 0)
  }

  const TWO64: nat := 0x1_0000_0000_0000_0000

  /** The eight big-endian bytes of a 64-bit number. */
  function LengthBytes(bits: nat): (r: seq<byte>)
    ensures |r| == 8
  {
    seq(8, k requires 0 <= k < 8 => bits / Weight(7 - k) % 256)
  }

  lemma LengthBytesAre(bits: nat, s: seq<byte>)
    requires |s| == 8
    requires s[0] == bits / 0x100_0000_0000_0000 % 256 && s[1] == bits / 0x1_0000_0000_0000 % 256
    requires s[2] == bits / 0x100_0000_0000 % 256 && s[3] == bits / 0x1_0000_0000 % 256
    requires s[4] == bits / 0x100_0000 % 256 && s[5] == bits / 0x1_0000 % 256
    requires s[6] == bits / 0x100 % 256 && s[7] == bits % 256
    ensures s == LengthBytes(bits)
  {
    assert Weight(0) == 1 && Weight(1) == 0x100 && Weight(2) == 0x1_0000 && Weight(3) == 0x100_0000;
    assert Weight(4) == 0x1_0000_0000 && Weight(5) == 0x100_0000_0000;
    assert Weight(6) == 0x1_0000_0000_0000 && Weight(7) == 0x100_0000_0000_0000;
  }

  /** The length field of a message. */
  function LengthField(n: nat): (r: seq<byte>)
    ensures |r| == 8
  {
    LengthBytes(8 * n % TWO64)
  }

  /** The padding of section 5.1.1 for a message of `n` bytes. */
  function Padding(n: nat): (p: seq<byte>)
    ensures |p| == 9 + (119 - n % 64) % 64
  {
    [0x80] + Zeros((119 - n % 64) % 64) + LengthField(n)
  }

  function WordBytes(w: word): (b: seq<byte>)
    ensures |b| == 4
  {
    [w / 0x100_0000 % 256, w / 0x1_0000 % 256, w / 0x100 % 256, w % 256]
  }

  /** Words in order, each with its most significant byte first. */
  function WordsBytes(w: seq<word>): (d: seq<byte>)
    ensures |d| == 4 * |w|
  {
    if |w| == 0 then [] else WordsBytes(w[..|w| - 1]) + WordBytes(w[|w| - 1])
  }

  function StateWords(h: Vars): (w: seq<word>)
    ensures |w| == 8
  {
    [h.a, h.b, h.c, h.d, h.e, h.f, h.g, h.h]
  }

  function DigestBytes(h: Vars): (d: seq<byte>)
    ensures |d| == 32
  {
    WordsBytes(StateWords(h))
  }

  /** The message digest: every block of the padded message in turn. */
  function DigestBy(f: Compression, m: seq<byte>): (d: seq<byte>)
    ensures |d| == 32
  {
    DigestBytes(Absorb(f, INITIAL, m + Padding(|m|)))
  }

  function Digest(m: seq<byte>): (d: seq<byte>)
    ensures |d| == 32
  {
    DigestBy((h, block) => if |block| == 64 then Compress(h, block) else h, m)
  }

  // ---------------------------------------------------------------- the streaming context

  /** Whole blocks may be absorbed first and the rest afterwards. */
  lemma {:induction false} AbsorbConcat(f: Compression, h: Vars, a: seq<byte>, b: seq<byte>, n: nat)
    requires |a| == 64 * n
    ensures Absorb(f, h, a + b) == Absorb(f, Absorb(f, h, a), b)
    decreases n
  {
    if n == 0 {
      assert a + b == b;
    } else {
      assert (a + b)[..64] == a[..64] && (a + b)[64..] == a[64..] + b;
      AbsorbConcat(f, f(h, a[..64]), a[64..], b, n - 1);
    }
  }

  lemma AbsorbOne(f: Compression, h: Vars, block: seq<byte>)
    requires |block| == 64
    ensures Absorb(f, h, block) == f(h, block)
  {
    assert block[..64] == block;
  }

  /** The byte that completes a block. */
  lemma AbsorbNext(f: Compression, m: seq<byte>, b: byte, n: nat, block: seq<byte>)
    requires |m| == 64 * n + 63 && block == m[64 * n..] + [b]
    ensures (m + [b])[64 * (n + 1)..] == []
    ensures Absorb(f, INITIAL, (m + [b])[..64 * (n + 1)]) == f(Absorb(f, INITIAL, m[..64 * n]), block)
  {
    assert (m + [b])[..64 * (n + 1)] == m[..64 * n] + block;
    AbsorbConcat(f, INITIAL, m[..64 * n], block, n);
    AbsorbOne(f, Absorb(f, INITIAL, m[..64 * n]), block);
  }

  lemma SplitAt(m: seq<byte>, k: nat, pad: seq<byte>)
    requires k <= |m|
    ensures m + pad == m[..k] + (m[k..] + pad)
  {
  }

  lemma PaddingShort(n: nat, q: nat, r: nat)
    requires n == 64 * q + r && r < 56
    ensures Padding(n) == [0x80] + Zeros(55 - r) + LengthField(n)
  {
  }

  lemma TailOne(f: Compression, m: seq<byte>, n: nat, pad: seq<byte>)
    requires 64 * n <= |m| && |m| + |pad| == 64 * n + 64
    ensures Absorb(f, INITIAL, m + pad) == f(Absorb(f, INITIAL, m[..64 * n]), m[64 * n..] + pad)
  {
    SplitAt(m, 64 * n, pad);
    AbsorbConcat(f, INITIAL, m[..64 * n], m[64 * n..] + pad, n);
    AbsorbOne(f, Absorb(f, INITIAL, m[..64 * n]), m[64 * n..] + pad);
  }

  lemma TailTwo(f: Compression, m: seq<byte>, n: nat, mark: seq<byte>, last: seq<byte>)
    requires 64 * n <= |m| && |m| + |mark| == 64 * n + 64 && |last| == 64
    ensures Absorb(f, INITIAL, m + (mark + last)) == f(f(Absorb(f, INITIAL, m[..64 * n]), m[64 * n..] + mark), last)
  {
    var a, h := m + mark, Absorb(f, INITIAL, m + mark);
    assert m + (mark + last) == a + last;
    assert h == f(Absorb(f, INITIAL, m[..64 * n]), m[64 * n..] + mark) by { TailOne(f, m, n, mark); }
    assert Absorb(f, INITIAL, a + last) == Absorb(f, h, last) by { AbsorbConcat(f, INITIAL, a, last, n + 1); }
    assert Absorb(f, h, last) == f(h, last) by { AbsorbOne(f, h, last); }
  }

  /** Fewer than 56 bytes left over: the padding ends the current block. */
  lemma ShortTail(f: Compression, m: seq<byte>, n: nat, r: nat)
    requires |m| == 64 * n + r && r < 56
    ensures var last := m[64 * n..] + ([0x80] + Zeros(55 - r) + LengthField(|m|));
            Absorb(f, INITIAL, m + Padding(|m|)) == f(Absorb(f, INITIAL, m[..64 * n]), last)
  {
    PaddingShort(|m|, n, r);
    TailOne(f, m, n, [0x80] + Zeros(55 - r) + LengthField(|m|));
  }

  lemma PaddingLong(n: nat, q: nat, r: nat)
    requires n == 64 * q + r && 56 <= r < 64
    ensures Padding(n) == [0x80] + Zeros(63 - r) + (Zeros(56) + LengthField(n))
  {
    assert Zeros((119 - r) % 64) == Zeros(63 - r) + Zeros(56);
  }

  /** At least 56 bytes left over: the padding needs a block of its own. */
  lemma LongTail(f: Compression, m: seq<byte>, n: nat, r: nat)
    requires |m| == 64 * n + r && 56 <= r < 64
    ensures var first, last := m[64 * n..] + ([0x80] + Zeros(63 - r)), Zeros(56) + LengthField(|m|);
            Absorb(f, INITIAL, m + Padding(|m|)) == f(f(Absorb(f, INITIAL, m[..64 * n]), first), last)
  {
    PaddingLong(|m|, n, r);
    TailTwo(f, m, n, [0x80] + Zeros(63 - r), Zeros(56) + LengthField(|m|));
  }

  /** Functions that agree on blocks hash alike. */
  lemma {:induction false} AbsorbSame(f: Compression, g: Compression, h: Vars, data: seq<byte>)
    requires forall v, block :: |block| == 64 ==> f(v, block) == g(v, block)
    ensures Absorb(f, h, data) == Absorb(g, h, data)
    decreases |data|
  {
    if |data| >= 64 {
      AbsorbSame(f, g, f(h, data[..64]), data[64..]);
    }
  }

  lemma DigestIs(f: Compression, m: seq<byte>)
    requires IsCompress(f)
    ensures DigestBy(f, m) == Digest(m)
  {
    var g: Compression := (h, block) => if |block| == 64 then Compress(h, block) else h;
    forall h, block | |block| == 64
      ensures f(h, block) == g(h, block)
    {
      var c := Compress(h, block);
    }
    AbsorbSame(f, g, INITIAL, m + Padding(|m|));
  }

  /** Byte j of each of the eight words is in its place. */
  predicate ByteWritten(s: seq<byte>, h: Vars, j: nat) {
    && j < 4 && |s| >= 32
    && s[j] == WordBytes(h.a)[j] && s[j + 4] == WordBytes(h.b)[j]
    && s[j + 8] == WordBytes(h.c)[j] && s[j + 12] == WordBytes(h.d)[j]
    && s[j + 16] == WordBytes(h.e)[j] && s[j + 20] == WordBytes(h.f)[j]
    && s[j + 24] == WordBytes(h.g)[j] && s[j + 28] == WordBytes(h.h)[j]
  }

  lemma BytesKept(pre: seq<byte>, post: seq<byte>, h: Vars, i: nat)
    requires |pre| == |post| && i < 4 && ByteWritten(post, h, i)
    requires forall j :: 0 <= j < i ==> ByteWritten(pre, h, j)
    requires forall p :: 0 <= p < 32 && p !in {i, i + 4, i + 8, i + 12, i + 16, i + 20, i + 24, i + 28} ==>
                         post[p] == pre[p]
    ensures forall j :: 0 <= j < i + 1 ==> ByteWritten(post, h, j)
  {
    forall j | 0 <= j < i
      ensures ByteWritten(post, h, j)
    {
      assert ByteWritten(pre, h, j);
    }
  }

  lemma {:induction false} WordsWritten(s: seq<byte>, w: seq<word>)
    requires |s| == 4 * |w| && forall k :: 0 <= k < |w| ==> s[4 * k..4 * k + 4] == WordBytes(w[k])
    ensures s == WordsBytes(w)
  {
    if |w| > 0 {
      var n := |w| - 1;
      var front, words := s[..4 * n], w[..n];
      forall k | 0 <= k < n
        ensures front[4 * k..4 * k + 4] == WordBytes(words[k])
      {
        SliceOfFront(s, 4 * n, 4 * k, 4 * k + 4);
      }
      WordsWritten(front, words);
      assert s == front + s[4 * n..4 * n + 4];
    }
  }

  lemma SliceOfFront(s: seq<byte>, n: nat, i: nat, j: nat)
    requires i <= j <= n <= |s|
    ensures s[..n][i..j] == s[i..j]
  {
  }

  lemma AllWritten(s: seq<byte>, h: Vars)
    requires |s| >= 32 && forall j :: 0 <= j < 4 ==> ByteWritten(s, h, j)
    ensures s[..32] == DigestBytes(h)
  {
    assert ByteWritten(s, h, 0) && ByteWritten(s, h, 1) && ByteWritten(s, h, 2) && ByteWritten(s, h, 3);
    var w, d := StateWords(h), s[..32];
    assert d[0..4] == WordBytes(h.a) && d[4..8] == WordBytes(h.b);
    assert d[8..12] == WordBytes(h.c) && d[12..16] == WordBytes(h.d);
    assert d[16..20] == WordBytes(h.e) && d[20..24] == WordBytes(h.f);
    assert d[24..28] == WordBytes(h.g) && d[28..32] == WordBytes(h.h);
    WordsWritten(d, w);
  }

  lemma Regroup(a: seq<byte>, b: seq<byte>, c: seq<byte>, d: seq<byte>)
    ensures a + b + c + d == a + (b + c + d) && a + b + c == a + (b + c)
  {
    assert a + b + c == a + (b + c);
    assert a + (b + c) + d == a + (b + c + d);
  }

  lemma BitStep(bits: nat, blocks: nat)
    requires bits == 512 * blocks % TWO64
    ensures (bits + 512) % TWO64 == 512 * (blocks + 1) % TWO64
  {
  }

  lemma BitCount(bits: nat, len: nat, blocks: nat, rest: nat)
    requires bits == 512 * blocks % TWO64 && len == 64 * blocks + rest
    ensures (bits + rest * 8) % TWO64 == 8 * len % TWO64
  {
  }

  class Context {
    const data: array<byte>
    const state: array<word>
    var datalen: nat
    var bitlen: nat
    /** Everything fed in since the context was initialised. */
    ghost var msg: seq<byte>
    /** The complete blocks among them. */
    ghost var blocks: nat
    /** The compression function, under a name that does not unfold. */
    ghost const f: Compression

    function Value(): Vars
      reads state
      requires state.Length == 8
    {
      Vars(state[0], state[1], state[2], state[3], state[4], state[5], state[6], state[7])
    }

    ghost predicate Valid()
      reads this, data, state
    {
      && data.Length == 64 && state.Length == 8 && IsCompress(f)
      && |msg| == 64 * blocks + datalen && datalen < 64
      && data[..datalen] == msg[64 * blocks..]
      && bitlen == 512 * blocks % TWO64
      && Value() == Absorb(f, INITIAL, msg[..64 * blocks])
    }

    constructor ()
      ensures Valid() && msg == [] && fresh(data) && fresh(state)
    {
      data := new byte[64];
      state := new word[8];
      f := (h, block) => if |block| == 64 then Compress(h, block) else h;
      new;
      Init();
    }

    method Init()
      requires data.Length == 64 && state.Length == 8 && IsCompress(f)
      modifies this, state
      ensures Valid() && msg == []
    {
      datalen, bitlen, msg, blocks := 0, 0, [], 0;
      Store(Vars(0x6a09e667, 0xbb67ae85, 0x3c6ef372, 0xa54ff53a, 0x510e527f, 0x9b05688c, 0x1f83d9ab, 0x5be0cd19));
    }

    method Store(v: Vars)
      requires state.Length == 8
      modifies state
      ensures Value() == v
    {
      state[0], state[1], state[2], state[3] := v.a, v.b, v.c, v.d;
      state[4], state[5], state[6], state[7] := v.e, v.f, v.g, v.h;
    }

    /** The sixty-four schedule words of the buffered block. */
    method Prepare() returns (m: array<word>)
      requires data.Length == 64
      ensures fresh(m) && m.Length == 64
      ensures forall t :: 0 <= t < 64 ==> m[t] == Schedule(data[..], t)
    {
      ghost var block := data[..];
      m := new word[64];
      var j := 0;
      for i := 0 to 16
        invariant j == 4 * i
        invariant forall t :: 0 <= t < i ==> m[t] == Schedule(block, t)
      {
        m[i] := BigEndian(data[j], data[j + 1], data[j + 2], data[j + 3]);
        j := j + 4;
      }
      for i := 16 to 64
        invariant forall t :: 0 <= t < i ==> m[t] == Schedule(block, t)
      {
        m[i] := Add32(Add32(Add32(Sig1(m[i - 2]), m[i - 7]), Sig0(m[i - 15])), m[i - 16]);
      }
    }

    /** One compression of the buffered block into the state. */
    method Transform()
      requires data.Length == 64 && state.Length == 8 && IsCompress(f)
      modifies state
      ensures Value() == f(old(Value()), data[..])
    {
      ghost var block := data[..];
      var m := Prepare();
      var a, b, c, d := state[0], state[1], state[2], state[3];
      var e, f, g, h := state[4], state[5], state[6], state[7];
      for i := 0 to 64
        invariant Vars(a, b, c, d, e, f, g, h) == Rounds(old(Value()), block, i)
      {
        var t1 := Add32(Add32(Add32(Add32(h, Ep1(e)), Ch(e, f, g)), K[i]), m[i]);
        var t2 := Add32(Ep0(a), Maj(a, b, c));
        h := g;
        g := f;
        f := e;
        e := Add32(d, t1);
        d := c;
        c := b;
        b := a;
        a := Add32(t1, t2);
      }
      Store(Vars(Add32(state[0], a), Add32(state[1], b), Add32(state[2], c), Add32(state[3], d),
                 Add32(state[4], e), Add32(state[5], f), Add32(state[6], g), Add32(state[7], h)));
      assert Value() == Compress(old(Value()), block);
    }

    /** Feeds one byte: the loop body of `sha256_update`. */
    method Append(b: byte)
      requires Valid()
      modifies this`datalen, this`bitlen, this`msg, this`blocks, data, state
      ensures Valid() && msg == old(msg) + [b]
    {
      ghost var m := msg;
      data[datalen] := b;
      datalen := datalen + 1;
      msg := msg + [b];
      assert data[..datalen] == m[64 * blocks..] + [b];
      if datalen == 64 {
        AbsorbNext(f, m, b, blocks, data[..]);
        BitStep(bitlen, blocks);
        Transform();
        bitlen := (bitlen + 512) % TWO64;
        datalen := 0;
        blocks := blocks + 1;
      } else {
        assert msg[..64 * blocks] == m[..64 * blocks];
      }
    }

    /** The source counts in 32 bits, so a call ends only for fewer than 2^32 bytes. */
    method Update(d: seq<byte>)
      requires Valid() && |d| < 0x1_0000_0000
      modifies this`datalen, this`bitlen, this`msg, this`blocks, data, state
      ensures Valid() && msg == old(msg) + d
    {
      for i := 0 to |d|
        invariant Valid() && msg == old(msg) + d[..i]
      {
        Append(d[i]);
        assert d[..i + 1] == d[..i] + [d[i]];
      }
      assert d[..|d|] == d;
    }

    /** Marks the end of the message and clears the buffer up to `end`. */
    method Mark(end: nat)
      requires data.Length == 64 && datalen < end <= 64
      modifies data
      ensures data[..end] == old(data[..datalen]) + [0x80] + Zeros(end - datalen - 1)
    {
      var i := datalen;
      data[i] := 0x80;
      i := i + 1;
      while i < end
        invariant datalen < i <= end
        invariant data[..datalen] == old(data[..datalen]) && data[datalen] == 0x80
        invariant forall k :: datalen < k < i ==> data[k] == 0
      {
        data[i] := 0x00;
        i := i + 1;
      }
    }

    method WriteLength()
      requires data.Length == 64
      modifies data
      ensures data[..56] == old(data[..56]) && data[56..] == LengthBytes(bitlen)
    {
      data[63] := bitlen % 256;
      data[62] := bitlen / 0x100 % 256;
      data[61] := bitlen / 0x1_0000 % 256;
      data[60] := bitlen / 0x100_0000 % 256;
      data[59] := bitlen / 0x1_0000_0000 % 256;
      data[58] := bitlen / 0x100_0000_0000 % 256;
      data[57] := bitlen / 0x1_0000_0000_0000 % 256;
      data[56] := bitlen / 0x100_0000_0000_0000 % 256;
      LengthBytesAre(bitlen, data[56..]);
    }

    /** Appends the length `n` of the message, in bits, and compresses the last block. */
    method Close(ghost n: nat)
      requires data.Length == 64 && state.Length == 8 && IsCompress(f)
      requires (bitlen + datalen * 8) % TWO64 == 8 * n % TWO64
      modifies this`bitlen, data, state
      ensures Value() == f(old(Value()), old(data[..56]) + LengthField(n))
    {
      bitlen := (bitlen + datalen * 8) % TWO64;
      WriteLength();
      assert data[..] == data[..56] + data[56..];
      Transform();
    }

    method Output(hash: array<byte>)
      requires state.Length == 8 && hash.Length >= 32 && hash as object != state
      modifies hash
      ensures hash[..32] == DigestBytes(Value()) && hash[32..] == old(hash[32..])
    {
      ghost var h, tail := Value(), hash[32..];
      for i := 0 to 4
        invariant forall j :: 0 <= j < i ==> ByteWritten(hash[..], h, j)
        invariant hash[32..] == tail && Value() == h
      {
        ghost var pre := hash[..];
        hash[i] := WordBytes(state[0])[i];
        hash[i + 4] := WordBytes(state[1])[i];
        hash[i + 8] := WordBytes(state[2])[i];
        hash[i + 12] := WordBytes(state[3])[i];
        hash[i + 16] := WordBytes(state[4])[i];
        hash[i + 20] := WordBytes(state[5])[i];
        hash[i + 24] := WordBytes(state[6])[i];
        hash[i + 28] := WordBytes(state[7])[i];
        BytesKept(pre, hash[..], h, i);
      }
      AllWritten(hash[..], h);
    }

    /** The padding fits the last block. */
    method PadShort()
      requires Valid() && datalen < 56
      modifies data
      ensures f(Value(), data[..56] + LengthField(|msg|)) == Absorb(f, INITIAL, msg + Padding(|msg|))
    {
      ghost var rest, h, field := msg[64 * blocks..], Value(), LengthField(|msg|);
      Mark(56);
      assert data[..56] + field == rest + ([0x80] + Zeros(55 - datalen) + field) by {
        Regroup(rest, [0x80], Zeros(55 - datalen), field);
      }
      ShortTail(f, msg, blocks, datalen);
    }

    /** The padding takes a block more. */
    method PadLong()
      requires Valid() && datalen >= 56
      modifies data, state
      ensures f(Value(), data[..56] + LengthField(|msg|)) == Absorb(f, INITIAL, msg + Padding(|msg|))
    {
      ghost var rest, h, field := msg[64 * blocks..], Value(), LengthField(|msg|);
      Mark(64);
      ghost var first := data[..];
      assert first == rest + ([0x80] + Zeros(63 - datalen)) by {
        assert data[..] == data[..64];
        Regroup(rest, [0x80], Zeros(63 - datalen), []);
      }
      assert Absorb(f, INITIAL, msg + Padding(|msg|)) == f(f(h, first), Zeros(56) + field) by {
        LongTail(f, msg, blocks, datalen);
      }
      Transform();
      Wipe();
    }

    /** Ends the message; a block filled by the padding is compressed at once. */
    method Pad()
      requires Valid()
      modifies data, state
      ensures f(Value(), data[..56] + LengthField(|msg|)) == Absorb(f, INITIAL, msg + Padding(|msg|))
    {
      if datalen < 56 {
        PadShort();
      } else {
        PadLong();
      }
    }

    method Wipe()
      requires data.Length == 64
      modifies data
      ensures data[..56] == Zeros(56)
    {
      for i := 0 to 56
        invariant forall k :: 0 <= k < i ==> data[k] == 0
      {
        data[i] := 0;
      }
    }

    /** Pads and compresses what is left. */
    method Finish()
      requires Valid()
      modifies this`bitlen, data, state
      ensures Value() == Absorb(f, INITIAL, msg + Padding(|msg|))
    {
      Pad();
      BitCount(bitlen, |msg|, blocks, datalen);
      Close(|msg|);
    }

    /** Writes the digest of everything fed in. */
    method Final(hash: array<byte>)
      requires Valid() && hash.Length >= 32 && hash != data && hash as object != state
      modifies this`bitlen, data, state, hash
      ensures hash[..32] == Digest(msg) && hash[32..] == old(hash[32..])
    {
      ghost var tail := hash[32..];
      Finish();
      assert DigestBytes(Value()) == Digest(msg) by { DigestIs(f, msg); }
      assert hash[32..] == tail;
      Output(hash);
    }
  }
}
