/**
 Session datagrams: sealing and opening them, and delivering each sealed body at most once.
 */
module Session {

  import opened Bytes
  import opened Bitwise
  import opened Packet
  import opened Crypto
  import Replay

  const HEADER: nat := 12
  const MAC: nat := 16
  const MAX_DATAGRAM: nat := 1200
  const VERSION: byte := 1

  /** What a session datagram carries, under the number of the session. */
  datatype Content = Content(kind: byte, sid: u32, number: u32, body: seq<byte>)

  function Head(c: Content): (h: seq<byte>)
    ensures |h| == HEADER
  {
    [77, 66, VERSION, c.kind] + Le32(c.sid) + Le32(c.number)
  }

  /** Header, body, and the first 16 bytes of their MAC. */
  function Sealed(s: Suite, key: seq<byte>, c: Content): (d: seq<byte>)
    ensures |d| == HEADER + |c.body| + MAC
  {
    Head(c) + c.body + s.mac(key, Head(c) + c.body)[..16]
  }

  datatype Opened = Authentic(content: Content) | Rejected(code: int)

  function Open(s: Suite, key: seq<byte>, d: seq<byte>): Opened {
    if |d| < HEADER + MAC || d[0] != 77 || d[1] != 66 || d[2] != VERSION then Rejected(-1)
    else if s.mac(key, d[..|d| - 16])[..16] != d[|d| - 16..] then Rejected(-2)
    else Authentic(Content(d[3], Number(d[4..8]), Number(d[8..12]), d[12..|d| - 16]))
  }

  /** The 32-bit number of four bytes. */
  function Number(b: seq<byte>): u32
    requires |b| == 4
  {
    Word32(b)
  }

  /** Opening what was sealed gives it back. */
  lemma SealedOpens(s: Suite, key: seq<byte>, c: Content)
    ensures Open(s, key, Sealed(s, key, c)) == Authentic(c)
  {
    var d := Sealed(s, key, c);
    Word32Le32(c.sid);
    Word32Le32(c.number);
    assert d[..|d| - 16] == Head(c) + c.body;
    assert d[4..8] == Le32(c.sid) && d[8..12] == Le32(c.number) && d[12..|d| - 16] == c.body;
  }

  /** Only what was sealed opens: a datagram opens to `c` exactly when it is `c` sealed. */
  lemma OpensIff(s: Suite, key: seq<byte>, d: seq<byte>, c: Content)
    ensures Open(s, key, d) == Authentic(c) <==> d == Sealed(s, key, c)
  {
    SealedOpens(s, key, c);
    if Open(s, key, d) == Authentic(c) {
      Le32Word32(d[4..8]);
      Le32Word32(d[8..12]);
      assert d[..12] == d[..4] + d[4..8] + d[8..12];
      assert d == d[..12] + d[12..|d| - 16] + d[|d| - 16..];
      assert d[..|d| - 16] == Head(c) + c.body;
    }
  }

  /** What opens is what carries the right magic, version and tag; the tag covers all that stands before it. */
  lemma TagCovers(s: Suite, key: seq<byte>, d: seq<byte>)
    ensures Open(s, key, d).Authentic?
       <==> (|d| >= 28 && d[..3] == [77, 66, 1] && d[|d| - 16..] == s.mac(key, d[..|d| - 16])[..16])
  {
    if |d| >= 28 {
      assert d[..3] == [d[0], d[1], d[2]];
    }
  }

  // ---------------------------------------------------------------- delivery

  /** What a datagram makes of a session that accepted these numbers: a body handed on, or nothing. */
  datatype Delivery = Delivered(content: Content) | Dropped

  function Deliver(s: Suite, key: seq<byte>, sid: u32, accepted: set<nat>, d: seq<byte>): Delivery {
    if |d| < HEADER + MAC || Number(d[4..8]) != sid then Dropped
    else
      match Open(s, key, d)
      case Rejected(_) => Dropped
      case Authentic(c) => if Replay.Acceptable(accepted, c.number) then Delivered(c) else Dropped
  }

  function Next(s: Suite, key: seq<byte>, sid: u32, accepted: set<nat>, d: seq<byte>): set<nat> {
    match Deliver(s, key, sid, accepted, d)
    case Delivered(c) => accepted + {c.number}
    case Dropped => accepted
  }

  /** The numbers accepted after a run of datagrams, and the bodies delivered, in order. */
  function Accepted(s: Suite, key: seq<byte>, sid: u32, run: seq<seq<byte>>): set<nat>
    decreases |run|
  {
    if |run| == 0 then {}
    else Next(s, key, sid, Accepted(s, key, sid, run[..|run| - 1]), run[|run| - 1])
  }

  function Bodies(s: Suite, key: seq<byte>, sid: u32, run: seq<seq<byte>>): (b: seq<Content>)
    decreases |run|
  {
    if |run| == 0 then []
    else
      var k := |run| - 1;
      Bodies(s, key, sid, run[..k]) +
      match Deliver(s, key, sid, Accepted(s, key, sid, run[..k]), run[k])
      case Delivered(c) => [c]
      case Dropped => []
  }

  /** The numbers of these bodies are the ones accepted, each once. */
  ghost predicate NumbersAre(b: seq<Content>, accepted: set<nat>) {
    && (forall i, j :: 0 <= i < j < |b| ==> b[i].number != b[j].number)
    && (forall i :: 0 <= i < |b| ==> b[i].number in accepted)
    && |accepted| == |b|
  }

  lemma NumbersGrow(b: seq<Content>, accepted: set<nat>, c: Content)
    requires NumbersAre(b, accepted) && c.number !in accepted
    ensures NumbersAre(b + [c], accepted + {c.number})
  {
  }

  /** Whatever is delivered was sealed for this session and received, and no number is delivered twice. */
  lemma {:induction false} DeliveredOnce(s: Suite, key: seq<byte>, sid: u32, run: seq<seq<byte>>)
    ensures var b := Bodies(s, key, sid, run);
            && (forall i :: 0 <= i < |b| ==> b[i].sid == sid && b[i].number != 0 && Sealed(s, key, b[i]) in run)
            && NumbersAre(b, Accepted(s, key, sid, run))
    decreases |run|
  {
    if |run| > 0 {
      var k := |run| - 1;
      var accepted := Accepted(s, key, sid, run[..k]);
      DeliveredOnce(s, key, sid, run[..k]);
      var before := Bodies(s, key, sid, run[..k]);
      match Deliver(s, key, sid, accepted, run[k])
      case Delivered(c) =>
        OpensIff(s, key, run[k], c);
        NumbersGrow(before, accepted, c);
        assert Bodies(s, key, sid, run) == before + [c];
      case Dropped =>
        assert Bodies(s, key, sid, run) == before;
    }
  }

  /** A sealed body that arrives is delivered when its number is acceptable, and only then. */
  lemma ArrivesIff(s: Suite, key: seq<byte>, accepted: set<nat>, c: Content)
    ensures Deliver(s, key, c.sid, accepted, Sealed(s, key, c))
         == if Replay.Acceptable(accepted, c.number) then Delivered(c) else Dropped
  {
    SealedOpens(s, key, c);
    Word32Le32(c.sid);
    assert Sealed(s, key, c)[4..8] == Le32(c.sid);
  }

  // ---------------------------------------------------------------- the program

  /** The length of the datagram written to `out`, or 0 when it does not fit. */
  method Seal(ghost s: Suite, out: array<byte>, c: Content, key: seq<byte>) returns (len: nat)
    requires MacIsReal(s) && |key| == 32
    modifies out
    ensures var d := Sealed(s, key, c);
            if |d| > out.Length || |d| > MAX_DATAGRAM then len == 0 && out[..] == old(out[..])
            else len == |d| && out[..] == Splice(old(out[..]), 0, d)
  {
    len := HEADER + |c.body| + MAC;
    if out.Length < len || len > MAX_DATAGRAM {
      return 0;
    }
    SealInto(s, out, [77, 66, VERSION, c.kind] + Le32(c.sid) + Le32(c.number), c.body, key);
  }

  /** Header, body, and the tag over what was written. */
  method SealInto(ghost s: Suite, out: array<byte>, head: seq<byte>, body: seq<byte>, key: seq<byte>)
    requires MacIsReal(s) && |key| == 32 && |head| == HEADER && HEADER + |body| + MAC <= out.Length
    requires HEADER + |body| + MAC <= MAX_DATAGRAM
    modifies out
    ensures out[..] == Splice(old(out[..]), 0, head + body + s.mac(key, head + body)[..16])
  {
    ghost var x := out[..];
    CopyInto(out, 0, head);
    CopyInto(out, HEADER, body);
    SpliceNext(x, 0, head, body);
    assert out[..HEADER + |body|] == head + body;
    var mac := ComputeMac(s, key, out[..HEADER + |body|]);
    CopyInto(out, HEADER + |body|, mac[..16]);
    SpliceNext(x, 0, head + body, mac[..16]);
  }

  /** Opens a datagram; the MAC is compared to the end whatever is found. */
  method OpenDatagram(ghost s: Suite, key: seq<byte>, d: seq<byte>) returns (r: Opened)
    requires MacIsReal(s) && |key| == 32 && |d| <= MAX_DATAGRAM
    ensures r == Open(s, key, d)
  {
    if |d| < HEADER + MAC || d[0] != 77 || d[1] != 66 || d[2] != VERSION {
      return Rejected(-1);
    }
    var at := |d| - 16;
    var mac := ComputeMac(s, key, d[..at]);
    var differs := false;
    for i := 0 to 16
      invariant differs <==> mac[..i] != d[at..at + i]
    {
      assert mac[..i + 1] == mac[..i] + [mac[i]] && d[at..at + i + 1] == d[at..at + i] + [d[at + i]];
      if mac[i] != d[at + i] {
        differs := true;
      }
    }
    assert d[at..at + 16] == d[at..];
    if differs {
      return Rejected(-2);
    }
    return Authentic(Content(d[3], Number(d[4..8]), Number(d[8..12]), d[12..at]));
  }

  /** A session that is up: its number, the key of this direction, and the replay window. */
  class Receiver {
    const key: seq<byte>
    const sid: u32
    const window: Replay.Window

    ghost predicate Valid()
      reads this, window
    {
      |key| == 32 && window.Valid()
    }

    constructor (key: seq<byte>, sid: u32)
      requires |key| == 32
      ensures Valid() && fresh(window) && this.key == key && this.sid == sid && window.accepted == {}
    {
      this.key := key;
      this.sid := sid;
      window := new Replay.Window();
    }

    method OnDatagram(ghost s: Suite, d: seq<byte>) returns (r: Delivery)
      requires Valid() && MacIsReal(s) && |d| <= MAX_DATAGRAM
      modifies window
      ensures Valid() && r == Deliver(s, key, sid, old(window.accepted), d)
      ensures window.accepted == Next(s, key, sid, old(window.accepted), d)
    {
      if |d| < HEADER + MAC {
        return Dropped;
      }
      if Number(d[4..8]) != sid {
        return Dropped;
      }
      var content := OpenDatagram(s, key, d);
      if content.Rejected? {
        return Dropped;
      }
      var isNew := window.Check(content.content.number);
      return if isNew then Delivered(content.content) else Dropped;
    }
  }
}
