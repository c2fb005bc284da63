/**
 Messages on a public channel: building the encrypted packet, decrypting it, and splitting the text
 into the sender's name and the message.
 */
module Channel {

  import opened Bytes
  import opened Packet
  import opened Crypto
  import opened Content

  const NAME_SIZE: nat := 32

  const SEPARATOR: seq<byte> := [58, 32]

  // ---------------------------------------------------------------- text

  /** The C string at the front of a buffer. */
  function Until0(s: seq<byte>): (t: cstring)
    ensures |t| <= |s|
    decreases |s|
  {
    if |s| == 0 || s[0] == 0 then [] else [s[0]] + Until0(s[1..])
  }

  /** Where ": " first occurs in a text, or -1. */
  function FindSeparator(t: seq<byte>): (i: int)
    ensures -1 <= i && (i >= 0 ==> i + 2 <= |t| && t[i..i + 2] == SEPARATOR)
    decreases |t|
  {
    if |t| < 2 then -1
    else if t[..2] == SEPARATOR then 0
    else
      var r := FindSeparator(t[1..]);
      if r < 0 then -1 else r + 1
  }

  lemma {:induction false} Until0Stops(t: cstring, rest: seq<byte>)
    requires |rest| > 0 ==> rest[0] == 0
    ensures Until0(t + rest) == t
    decreases |t|
  {
    if |t| == 0 {
      assert t + rest == rest;
    } else {
      assert (t + rest)[1..] == t[1..] + rest && t == [t[0]] + t[1..];
      Until0Stops(t[1..], rest);
    }
  }

  /** In `sender`, ": ", `text` the first separator is the one in between, unless `sender` has one. */
  lemma {:induction false} SeparatorFound(sender: seq<byte>, text: seq<byte>)
    ensures var i := FindSeparator(sender);
            FindSeparator(sender + SEPARATOR + text) == if i < 0 then |sender| else i
    decreases |sender|
  {
    var t := sender + SEPARATOR + text;
    if |sender| == 0 {
      assert t == SEPARATOR + text && t[..2] == SEPARATOR;
    } else {
      var tail := sender[1..];
      assert t[1..] == tail + SEPARATOR + text;
      SeparatorFound(tail, text);
      if |sender| >= 2 {
        assert t[..2] == sender[..2];
      } else {
        assert t[1] == 58;
      }
    }
  }

  // ---------------------------------------------------------------- the message format

  function Line(sender: cstring, text: cstring): cstring {
    sender + SEPARATOR + text
  }

  /** The plaintext padded with zeros to whole blocks. */
  function Rounded(n: nat): (m: nat)
    ensures m % 16 == 0 && n <= m < n + 16
  {
    (n + 15) / 16 * 16
  }

  function Plain(sender: cstring, text: cstring, ts: nat): (p: seq<byte>)
    requires ts < 0x1_0000_0000
    ensures |p| == Rounded(5 + |Line(sender, text)|)
  {
    var line := Line(sender, text);
    Le32(ts) + [0] + line + Zeros(Rounded(5 + |line|) - 5 - |line|)
  }

  predicate Fits(sender: cstring, text: cstring) {
    3 + Rounded(5 + |Line(sender, text)|) <= MAX_PAYLOAD
  }

  function Built(s: Suite, ch: channel, sender: cstring, text: cstring, ts: nat, route: nat): packet
    requires ts < 0x1_0000_0000
  {
    var ct := s.encrypt(ch.secret, Plain(sender, text, ts));
    Packet(MakeHeader(0, GRP_TXT, route), 0, 0, 0, Zeros(64), [ch.hash] + s.mac(ch.secret, ct)[..2] + ct)
  }

  datatype Decryption = Plaintext(bytes: seq<byte>) | Undecodable

  function Decrypted(s: Suite, ch: channel, p: packet, outSize: nat): Decryption {
    if |p.payload| < MIN_GROUP || (|p.payload| - 3) % 16 != 0 || |p.payload| - 3 + 1 > outSize then Undecodable
    else Plaintext(s.decrypt(ch.secret, p.payload[3..]))
  }

  /** The text of a decrypted message, up to its first zero. */
  function Text(plain: seq<byte>): cstring
    requires |plain| >= 5
  {
    Until0(plain[5..])
  }

  /** The sender: the text before the first ": ", at most 31 bytes of it; none without a ": ". */
  function Sender(plain: seq<byte>): cstring
    requires |plain| >= 5
  {
    var t := Text(plain);
    var i := FindSeparator(t);
    if i < 0 then [] else if i >= NAME_SIZE then t[..NAME_SIZE - 1] else t[..i]
  }

  /** The message: the text after the first ": ", or all of it. */
  function Body(plain: seq<byte>): cstring
    requires |plain| >= 5
  {
    var t := Text(plain);
    var i := FindSeparator(t);
    if i < 0 then t else t[i + 2..]
  }

  // ---------------------------------------------------------------- what comes back

  lemma BuiltFields(s: Suite, ch: channel, sender: cstring, text: cstring, ts: nat, route: nat)
    requires Works(s) && ts < 0x1_0000_0000 && route < 4 && Fits(sender, text)
    ensures var p := Built(s, ch, sender, text, ts, route);
            && WellFormed(p) && Canonical(p) && HashCount(p.pathLen) == 0
            && RouteType(p) == route && PayloadType(p) == GRP_TXT && |p.payload| >= MIN_GROUP
            && Verifies(s, ch, p)
            && p.payload[3..] == s.encrypt(ch.secret, Plain(sender, text, ts))
  {
    var p := Built(s, ch, sender, text, ts, route);
    HeaderFields(p, 0, GRP_TXT, route);
    var ct := s.encrypt(ch.secret, Plain(sender, text, ts));
    assert p.payload[3..] == ct;
    assert p.payload[1..3] == s.mac(ch.secret, ct)[..2];
  }

  /** A built packet is public to every configuration that holds its channel. */
  lemma BuiltIsPublic(s: Suite, cfg: Public, ch: channel, sender: cstring, text: cstring, ts: nat, route: nat)
    requires Works(s) && ts < 0x1_0000_0000 && route < 4 && Fits(sender, text)
    requires ch in cfg.channels
    ensures Decide(s, cfg, Built(s, ch, sender, text, ts, route)) == OkGrpPublic
  {
    BuiltFields(s, ch, sender, text, ts, route);
    var i :| 0 <= i < |cfg.channels| && cfg.channels[i] == ch;
    assert Verifies(s, cfg.channels[i], Built(s, ch, sender, text, ts, route));
  }

  /** Decrypting it gives back the time and the whole text. */
  lemma BuiltDecrypts(s: Suite, ch: channel, sender: cstring, text: cstring, ts: nat, route: nat)
    requires Works(s) && ts < 0x1_0000_0000 && route < 4 && Fits(sender, text)
    ensures var d := Decrypted(s, ch, Built(s, ch, sender, text, ts, route), MAX_PAYLOAD);
            && d.Plaintext? && |d.bytes| >= 5
            && Word32(d.bytes[..4]) == ts && d.bytes[4] == 0 && Text(d.bytes) == Line(sender, text)
  {
    BuiltFields(s, ch, sender, text, ts, route);
    var plain := Plain(sender, text, ts);
    var line := Line(sender, text);
    var pad := Zeros(|plain| - 5 - |line|);
    assert plain[..4] == Le32(ts);
    Word32Le32(ts);
    assert plain[5..] == line + pad;
    Until0Stops(line, pad);
  }

  lemma SenderIff(plain: seq<byte>, sender: cstring, text: cstring)
    requires |plain| >= 5 && Text(plain) == Line(sender, text)
    ensures Sender(plain) == sender <==> |sender| < NAME_SIZE && FindSeparator(sender) < 0
    ensures Body(plain) == text <==> FindSeparator(sender) < 0
  {
    var t := Line(sender, text);
    SeparatorFound(sender, text);
    var i := FindSeparator(sender);
    if i < 0 {
      assert t[..|sender|] == sender && t[|sender| + 2..] == text;
    } else {
      assert |t[i + 2..]| > |text|;
    }
  }

  /**
   The sender comes back exactly when its name is under 32 bytes and holds no ": "; the message comes
   back exactly when the name holds none.
   */
  lemma BuiltSplits(s: Suite, ch: channel, sender: cstring, text: cstring, ts: nat, route: nat)
    requires Works(s) && ts < 0x1_0000_0000 && route < 4 && Fits(sender, text)
    ensures var d := Decrypted(s, ch, Built(s, ch, sender, text, ts, route), MAX_PAYLOAD);
            && d.Plaintext? && |d.bytes| >= 5
            && (Sender(d.bytes) == sender <==> |sender| < NAME_SIZE && FindSeparator(sender) < 0)
            && (Body(d.bytes) == text <==> FindSeparator(sender) < 0)
  {
    BuiltDecrypts(s, ch, sender, text, ts, route);
    var d := Decrypted(s, ch, Built(s, ch, sender, text, ts, route), MAX_PAYLOAD);
    SenderIff(d.bytes, sender, text);
  }

  /** The sender "a: b" of the message "c" is read as the sender "a" of "b: c". */
  lemma SplitsTooEarly(s: Suite, ch: channel, sender: cstring, text: cstring, ts: nat, route: nat)
    requires Works(s) && ts < 0x1_0000_0000 && route < 4
    requires sender == [97] + SEPARATOR + [98] && text == [99]
    ensures Fits(sender, text)
    ensures var d := Decrypted(s, ch, Built(s, ch, sender, text, ts, route), MAX_PAYLOAD);
            d.Plaintext? && |d.bytes| >= 5 && Sender(d.bytes) == [97] && Body(d.bytes) == [98] + SEPARATOR + [99]
  {
    BuiltDecrypts(s, ch, sender, text, ts, route);
    var line := Line(sender, text);
    assert line == [97] + SEPARATOR + ([98] + SEPARATOR + [99]);
    assert FindSeparator([97]) == -1;
    SeparatorFound([97], [98] + SEPARATOR + [99]);
    assert line[..1] == [97] && line[3..] == [98] + SEPARATOR + [99];
  }

  // ---------------------------------------------------------------- the program

  /** Fills the buffer with zeros up to `to`. */
  method ZeroPad(plain: array<byte>, from: nat, to: nat)
    requires from <= to <= plain.Length
    modifies plain
    ensures plain[..to] == old(plain[..from]) + Zeros(to - from)
  {
    for k := from to to
      invariant plain[..from] == old(plain[..from]) && forall j :: from <= j < k ==> plain[j] == 0
    {
      plain[k] := 0;
    }
  }

  /** The plaintext in its buffer; -1 when the padded message does not fit a packet. */
  method WritePlain(plain: array<byte>, sender: cstring, text: cstring, ts: nat) returns (len: int)
    requires plain.Length == MAX_PAYLOAD && ts < 0x1_0000_0000
    modifies plain
    ensures len == if Fits(sender, text) then |Plain(sender, text, ts)| else -1
    ensures len >= 0 ==> len <= MAX_PAYLOAD && plain[..len] == Plain(sender, text, ts)
  {
    var line := Line(sender, text);
    CopyInto(plain, 0, Le32(ts));
    CopyInto(plain, 4, [0]);
    // a longer line is cut to the room left, and then refused below
    var shown := if |line| <= 178 then line else line[..178];
    CopyInto(plain, 5, shown);
    plain[5 + |shown|] := 0;
    var i := 5 + |line|;
    len := Rounded(i);
    if 3 + len > MAX_PAYLOAD {
      return -1;
    }
    assert plain[..i] == Le32(ts) + [0] + line;
    ZeroPad(plain, i, len);
  }

  method BuildTxt(ghost s: Suite, ch: channel, sender: cstring, text: cstring, ts: nat, route: nat)
    returns (rc: int, p: packet)
    requires MacIsReal(s) && CipherIsReal(s) && Works(s) && ts < 0x1_0000_0000
    ensures rc == if Fits(sender, text) then 0 else -1
    ensures rc == 0 ==> p == Built(s, ch, sender, text, ts, route)
  {
    var plain := new byte[184];
    var len := WritePlain(plain, sender, text, ts);
    if len < 0 {
      return -1, Packet(0, 0, 0, 0, Zeros(64), []);
    }
    ghost var m := Plain(sender, text, ts);
    var ct := Encipher(s, ch.secret, plain[..len]);
    assert |ct| == |m|;
    var mac := ComputeMac(s, ch.secret, ct);
    return 0, Packet(MakeHeader(0, GRP_TXT, route), 0, 0, 0, Zeros(64), [ch.hash] + mac[..2] + ct);
  }

  method PutPlain(out: array<byte>, plain: seq<byte>)
    requires |plain| < out.Length
    modifies out
    ensures out[..|plain|] == plain && out[|plain|] == 0
  {
    CopyInto(out, 0, plain);
    assert out[..|plain|] == plain;
    out[|plain|] := 0;
  }

  /** The length of the plaintext written to `out`, or -1. */
  method Decrypt(ghost s: Suite, ch: channel, p: packet, out: array<byte>) returns (len: int)
    requires CipherIsReal(s) && Works(s)
    modifies out
    ensures var d := Decrypted(s, ch, p, out.Length);
            if d.Undecodable? then len == -1
            else 0 <= len < out.Length && out[..len] == d.bytes && out[len] == 0
  {
    if |p.payload| < MIN_GROUP {
      return -1;
    }
    var ctlen := |p.payload| - 3;
    if ctlen % 16 != 0 || ctlen + 1 > out.Length {
      return -1;
    }
    var plain := Decipher(s, ch.secret, p.payload[3..]);
    assert |plain| == ctlen;
    PutPlain(out, plain);
    return ctlen;
  }
}
