/**
 Paths: the hop hashes a packet carries, how a node rewrites them when it relays the packet, and the
 path of a reply.
 */
module Routes {

  import opened Bytes
  import opened Packet

  type key = k: seq<byte> | |k| == 32 witness Zeros(32)

  /** Hop i of a path of hashes of `hs` bytes each. */
  function HopAt(path: seq<byte>, hs: nat, i: nat): seq<byte>
    requires (i + 1) * hs <= |path|
  {
    assert 0 <= i * hs <= (i + 1) * hs;
    path[i * hs..(i + 1) * hs]
  }

  /** The first n hops of a path. */
  function HopsOf(path: seq<byte>, hs: nat, n: nat): (h: seq<seq<byte>>)
    requires n * hs <= |path|
    ensures |h| == n
    decreases n
  {
    if n == 0 then []
    else
      assert (n - 1) * hs <= n * hs;
      HopsOf(path, hs, n - 1) + [HopAt(path, hs, n - 1)]
  }

  function Count(p: packet): nat { HashCount(p.pathLen) }

  function Size(p: packet): nat { HashSize(p.pathLen) }

  /** The hop hashes of a packet, nearest the source first. */
  function Hops(p: packet): (h: seq<seq<byte>>)
    requires ValidPathLen(p.pathLen)
    ensures |h| == Count(p)
  {
    HopsOf(p.path, Size(p), Count(p))
  }

  lemma {:induction false} HopsAgree(a: seq<byte>, b: seq<byte>, hs: nat, n: nat)
    requires n * hs <= |a| && n * hs <= |b| && a[..n * hs] == b[..n * hs]
    ensures HopsOf(a, hs, n) == HopsOf(b, hs, n)
    decreases n
  {
    if n > 0 {
      var m := (n - 1) * hs;
      assert m + hs == n * hs;
      assert a[..m] == a[..n * hs][..m] && b[..m] == b[..n * hs][..m];
      HopsAgree(a, b, hs, n - 1);
      assert a[m..m + hs] == a[..n * hs][m..m + hs];
      assert b[m..m + hs] == b[..n * hs][m..m + hs];
    }
  }

  // ---------------------------------------------------------------- appending a hop

  /** The guard on a flood: room for one more hash. */
  predicate CanAppend(p: packet) {
    (Count(p) + 1) * Size(p) <= MAX_PATH
  }

  /** The packet with this node's hash after the last hop, and the count one higher, in six bits. */
  function Appended(p: packet, id: key): packet
    requires CanAppend(p)
  {
    var n, hs := Count(p), Size(p);
    assert n * hs + hs == (n + 1) * hs;
    Packet(p.header, p.code0, p.code1, WithCount(p.pathLen, n + 1), Splice(p.path, n * hs, id[..hs]), p.payload)
  }

  lemma SixBits(pathLen: byte, n: nat)
    requires n <= 64
    ensures HashCount(WithCount(pathLen, n)) == n % 64 && HashSize(WithCount(pathLen, n)) == HashSize(pathLen)
  {
  }

  lemma SpaceUsed(n: nat, hs: nat)
    requires n == 63 && hs >= 1 && (n + 1) * hs <= 64
    ensures hs == 1
  {
    assert (n + 1) * hs == 64 * hs;
  }

  lemma LastHop(path: seq<byte>, hs: nat, n: nat, hop: seq<byte>)
    requires |hop| == hs && n * hs + hs == (n + 1) * hs <= |path|
    ensures HopsOf(Splice(path, n * hs, hop), hs, n + 1) == HopsOf(path, hs, n) + [hop]
  {
    var next := Splice(path, n * hs, hop);
    assert next[..n * hs] == path[..n * hs];
    HopsAgree(next, path, hs, n);
    assert HopAt(next, hs, n) == hop;
  }

  /**
   A relayed flood carries the hops it came with and then this node's, unless it already had 63: then
   the guard lets one more in, the count wraps, and the path is gone.
   */
  lemma AppendedHops(p: packet, id: key)
    requires WellFormed(p) && CanAppend(p)
    ensures var q := Appended(p, id);
            && WellFormed(q) && Size(q) == Size(p)
            && Hops(q) == if Count(p) < 63 then Hops(p) + [id[..Size(p)]] else []
  {
    var n, hs := Count(p), Size(p);
    var q := Appended(p, id);
    SixBits(p.pathLen, n + 1);
    assert n * hs + hs == (n + 1) * hs;
    if n < 63 {
      LastHop(p.path, hs, n, id[..hs]);
    } else {
      SpaceUsed(n, hs);
    }
  }

  /** The path law holds exactly below 63 hops. */
  lemma AppendsIff(p: packet, id: key)
    requires WellFormed(p) && CanAppend(p)
    ensures Hops(Appended(p, id)) == Hops(p) + [id[..Size(p)]] <==> Count(p) < 63
  {
    AppendedHops(p, id);
  }

  /** With 63 hops, which are then one byte each, the guard passes and the path is lost. */
  lemma WrapsAt63(p: packet, id: key)
    requires WellFormed(p) && Count(p) == 63
    ensures CanAppend(p) <==> Size(p) == 1
    ensures CanAppend(p) ==> |Hops(p)| == 63 && Hops(Appended(p, id)) == []
  {
    if CanAppend(p) {
      SpaceUsed(63, Size(p));
      AppendedHops(p, id);
    }
  }

  // ---------------------------------------------------------------- stripping a hop

  /** Whether the first hop is this node. */
  predicate NextHopIs(p: packet, id: key)
    requires ValidPathLen(p.pathLen)
  {
    Count(p) >= 1 && p.path[..Size(p)] == id[..Size(p)]
  }

  lemma OneHopFits(n: nat, hs: nat)
    requires n >= 1
    ensures (n - 1) * hs + hs == n * hs && (n - 1) * hs >= 0
  {
  }

  /** The path moved down by one hop; what was the last hop's place is left as it was. */
  function Stripped(p: packet): packet
    requires ValidPathLen(p.pathLen) && Count(p) >= 1
  {
    var n, hs := Count(p), Size(p);
    OneHopFits(n, hs);
    Packet(p.header, p.code0, p.code1, WithCount(p.pathLen, n - 1),
           p.path[hs..n * hs] + p.path[(n - 1) * hs..], p.payload)
  }

  lemma {:induction false} HopsShift(path: seq<byte>, hs: nat, n: nat)
    requires hs >= 1 && (n + 1) * hs <= |path|
    ensures hs <= (n + 1) * hs && n * hs <= |path| - hs
    ensures [HopAt(path, hs, 0)] + HopsOf(path[hs..], hs, n) == HopsOf(path, hs, n + 1)
    decreases n
  {
    assert (n + 1) * hs == n * hs + hs;
    if n > 0 {
      assert n * hs == (n - 1) * hs + hs;
      HopsShift(path, hs, n - 1);
      var tail := path[hs..];
      assert HopAt(tail, hs, n - 1) == HopAt(path, hs, n);
      assert [HopAt(path, hs, 0)] + (HopsOf(tail, hs, n - 1) + [HopAt(tail, hs, n - 1)])
          == ([HopAt(path, hs, 0)] + HopsOf(tail, hs, n - 1)) + [HopAt(path, hs, n)];
    } else {
      assert HopsOf(path, hs, 1) == HopsOf(path, hs, 0) + [HopAt(path, hs, 0)];
    }
  }

  /** Stripping removes exactly the first hop. */
  lemma StrippedHops(p: packet)
    requires WellFormed(p) && Count(p) >= 1
    ensures var q := Stripped(p); WellFormed(q) && Size(q) == Size(p) && Hops(q) == Hops(p)[1..]
  {
    var n, hs := Count(p), Size(p);
    var q := Stripped(p);
    OneHopFits(n, hs);
    SixBits(p.pathLen, n - 1);
    HopsShift(p.path, hs, n - 1);
    assert q.path[..(n - 1) * hs] == p.path[hs..][..(n - 1) * hs];
    HopsAgree(q.path, p.path[hs..], hs, n - 1);
  }

  lemma FirstHop(p: packet, id: key)
    requires WellFormed(p) && Count(p) >= 1
    ensures NextHopIs(p, id) <==> Hops(p)[0] == id[..Size(p)]
  {
    var n, hs := Count(p), Size(p);
    OneHopFits(n, hs);
    HopsShift(p.path, hs, n - 1);
    assert HopAt(p.path, hs, 0) == p.path[..hs];
  }

  // ---------------------------------------------------------------- relaying

  datatype Routing = Relay(packet: packet, priority: nat) | Full | NotOurs

  /** Where a packet the policy lets through goes: a flood onwards, a direct packet only if it is ours. */
  function Route(p: packet, id: key): Routing
    requires ValidPathLen(p.pathLen)
  {
    if IsFlood(p) then
      if !MarkedDnr(p) && CanAppend(p) then Relay(Appended(p, id), Count(p) + 1) else Full
    else if NextHopIs(p, id) then Relay(Stripped(p), 0)
    else NotOurs
  }

  /** Relaying rewrites the path only, and keeps the packet fit for the wire. */
  lemma RelayKeeps(p: packet, id: key)
    requires WellFormed(p) && Route(p, id).Relay?
    ensures var q := Route(p, id).packet;
            && WellFormed(q) && q.header == p.header && q.payload == p.payload
            && q.code0 == p.code0 && q.code1 == p.code1 && Size(q) == Size(p)
    ensures Route(p, id).priority <= 64
  {
    if IsFlood(p) {
      AppendedHops(p, id);
    } else {
      StrippedHops(p);
    }
  }

  datatype Arrival = Arrived(packet: packet) | Lost

  /** The packet after each node of `ids` in turn has relayed it. */
  function Travel(p: packet, ids: seq<key>): Arrival
    requires WellFormed(p)
    decreases |ids|
  {
    if |ids| == 0 then Arrived(p)
    else if !Route(p, ids[0]).Relay? then Lost
    else
      RelayKeeps(p, ids[0]);
      Travel(Route(p, ids[0]).packet, ids[1..])
  }

  function Hashes(ids: seq<key>, hs: nat): (h: seq<seq<byte>>)
    requires hs <= 4
    ensures |h| == |ids|
  {
    seq(|ids|, i requires 0 <= i < |ids| => ids[i][..hs])
  }

  lemma Shrinks(n: nat, m: nat, hs: nat)
    requires n <= m
    ensures n * hs <= m * hs
  {
  }

  /** A flood arrives with the hashes of its relays behind the ones it started with, in order. */
  lemma {:induction false} FloodArrives(p: packet, ids: seq<key>)
    requires WellFormed(p) && IsFlood(p) && !MarkedDnr(p)
    requires Count(p) + |ids| < 64 && (Count(p) + |ids|) * Size(p) <= MAX_PATH
    ensures Travel(p, ids).Arrived?
    ensures var q := Travel(p, ids).packet;
            && WellFormed(q) && q.header == p.header && q.payload == p.payload && Size(q) == Size(p)
            && Hops(q) == Hops(p) + Hashes(ids, Size(p))
    decreases |ids|
  {
    if |ids| > 0 {
      Shrinks(Count(p) + 1, Count(p) + |ids|, Size(p));
      var q := Appended(p, ids[0]);
      AppendedHops(p, ids[0]);
      assert Route(p, ids[0]).packet == q;
      assert Count(q) == Count(p) + 1;
      FloodArrives(q, ids[1..]);
      assert Hashes(ids, Size(p)) == [ids[0][..Size(p)]] + Hashes(ids[1..], Size(p));
    }
  }

  /** A direct packet naming `ids` is stripped by each of them in turn and ends with an empty path. */
  lemma {:induction false} DirectArrives(p: packet, ids: seq<key>)
    requires WellFormed(p) && !IsFlood(p) && Hops(p) == Hashes(ids, Size(p))
    ensures Travel(p, ids).Arrived?
    ensures var q := Travel(p, ids).packet;
            WellFormed(q) && q.header == p.header && q.payload == p.payload && Count(q) == 0
    decreases |ids|
  {
    if |ids| > 0 {
      FirstHop(p, ids[0]);
      StrippedHops(p);
      var q := Stripped(p);
      assert Route(p, ids[0]).packet == q;
      assert Hashes(ids, Size(p))[1..] == Hashes(ids[1..], Size(p));
      DirectArrives(q, ids[1..]);
    }
  }

  // ---------------------------------------------------------------- the path of a reply

  function Reversed<T>(s: seq<T>): (r: seq<T>)
    ensures |r| == |s|
  {
    seq(|s|, i requires 0 <= i < |s| => s[|s| - 1 - i])
  }

  /** The first i hops of the reversed path, as bytes. */
  function ReversedBytes(path: seq<byte>, hs: nat, n: nat, i: nat): (r: seq<byte>)
    requires i <= n && n * hs <= |path|
    ensures |r| == i * hs
    decreases i
  {
    if i == 0 then []
    else
      Shrinks(n - i + 1, n, hs);
      assert (i - 1) * hs + hs == i * hs && (n - i) * hs + hs == (n - i + 1) * hs;
      ReversedBytes(path, hs, n, i - 1) + HopAt(path, hs, n - i)
  }

  lemma {:induction false} HopsIndex(path: seq<byte>, hs: nat, n: nat, i: nat)
    requires i < n && n * hs <= |path|
    ensures (i + 1) * hs <= |path| && HopsOf(path, hs, n)[i] == HopAt(path, hs, i)
    decreases n
  {
    Shrinks(i + 1, n, hs);
    if i < n - 1 {
      Shrinks(n - 1, n, hs);
      HopsIndex(path, hs, n - 1, i);
    }
  }

  lemma {:induction false} ReversedHops(path: seq<byte>, hs: nat, n: nat, i: nat)
    requires i <= n && n * hs <= |path|
    ensures HopsOf(ReversedBytes(path, hs, n, i), hs, i) == Reversed(HopsOf(path, hs, n))[..i]
    decreases i
  {
    if i > 0 {
      var r := ReversedBytes(path, hs, n, i);
      var t := ReversedBytes(path, hs, n, i - 1);
      assert (i - 1) * hs + hs == i * hs;
      ReversedHops(path, hs, n, i - 1);
      HopsAgree(r, t, hs, i - 1);
      HopsIndex(path, hs, n, n - i);
      assert HopAt(r, hs, i - 1) == HopAt(path, hs, n - i);
      assert Reversed(HopsOf(path, hs, n))[..i]
          == Reversed(HopsOf(path, hs, n))[..i - 1] + [HopsOf(path, hs, n)[n - i]];
    }
  }

  /** The reply to `rx`: the packet built for it, with the path of `rx` reversed. */
  function Reply(rx: packet, built: packet): packet
    requires ValidPathLen(rx.pathLen)
  {
    var n, hs := Count(rx), Size(rx);
    if n == 0 then built
    else
      Packet(built.header, built.code0, built.code1, MakePathLen(hs, n),
             Splice(built.path, 0, ReversedBytes(rx.path, hs, n, n)), built.payload)
  }

  lemma ReplyHops(rx: packet, built: packet)
    requires WellFormed(rx) && WellFormed(built) && Count(built) == 0
    ensures var p := Reply(rx, built);
            && WellFormed(p) && p.header == built.header && p.payload == built.payload
            && Hops(p) == Reversed(Hops(rx)) && (Count(rx) > 0 ==> Size(p) == Size(rx))
  {
    var n, hs := Count(rx), Size(rx);
    if n > 0 {
      var p := Reply(rx, built);
      PathLenFields(hs, n);
      var r := ReversedBytes(rx.path, hs, n, n);
      ReversedHops(rx.path, hs, n, n);
      assert Reversed(Hops(rx))[..n] == Reversed(Hops(rx));
      assert p.path[..n * hs] == r[..n * hs];
      HopsAgree(p.path, r, hs, n);
    }
  }

  lemma HashesReversed(ids: seq<key>, hs: nat)
    requires hs <= 4
    ensures Reversed(Hashes(ids, hs)) == Hashes(Reversed(ids), hs)
  {
  }

  /**
   End to end: a flood relayed by `ids`, at most 63 of them and within 64 bytes, arrives with their
   hashes in order; the reply is stripped by the same nodes in reverse and leaves the last with an
   empty path.
   */
  lemma ReplyComesBack(p: packet, ids: seq<key>, built: packet)
    requires WellFormed(p) && IsFlood(p) && !MarkedDnr(p) && Count(p) == 0
    requires |ids| < 64 && |ids| * Size(p) <= MAX_PATH
    requires WellFormed(built) && !IsFlood(built) && Count(built) == 0
    ensures Travel(p, ids).Arrived?
    ensures var rx := Travel(p, ids).packet;
            && WellFormed(rx) && Hops(rx) == Hashes(ids, Size(p))
            && WellFormed(Reply(rx, built)) && Hops(Reply(rx, built)) == Hashes(Reversed(ids), Size(p))
            && var back := Travel(Reply(rx, built), Reversed(ids));
               back.Arrived? && Count(back.packet) == 0 && back.packet.payload == built.payload
  {
    FloodArrives(p, ids);
    var rx := Travel(p, ids).packet;
    assert Hops(p) == [];
    HashesReversed(ids, Size(p));
    ReplyHops(rx, built);
    var reply := Reply(rx, built);
    if |ids| == 0 {
      assert Reversed(ids) == [];
      assert Travel(reply, Reversed(ids)) == Arrived(reply);
    } else {
      DirectArrives(reply, Reversed(ids));
    }
  }

  // ---------------------------------------------------------------- the program

  method AppendInPlace(path: array<byte>, n: nat, hs: nat, id: key)
    requires path.Length == 64 && 1 <= hs <= 4 && (n + 1) * hs <= 64 && n * hs + hs == (n + 1) * hs
    modifies path
    ensures path[..] == Splice(old(path[..]), n * hs, id[..hs])
  {
    var at := n * hs;
    CopyInto(path, at, id[..hs]);
    assert path[..] == path[..at + hs] + path[at + hs..];
  }

  method StripInPlace(path: array<byte>, n: nat, hs: nat)
    requires path.Length == 64 && n >= 1 && 1 <= hs <= 4 && n * hs <= 64 && (n - 1) * hs + hs == n * hs
    modifies path
    ensures path[..] == old(path[hs..n * hs]) + old(path[(n - 1) * hs..])
  {
    var len := (n - 1) * hs;
    ghost var x := path[..];
    for k := 0 to len
      invariant forall i :: 0 <= i < k ==> path[i] == x[i + hs]
      invariant forall i :: k <= i < 64 ==> path[i] == x[i]
    {
      path[k] := path[k + hs];
    }
    assert |x| == 64 && len + hs == n * hs;
    assert path[..len] == x[hs..n * hs];
    assert path[len..] == x[len..];
    assert path[..] == path[..len] + path[len..];
  }

  lemma HopsTurn(n: nat, i: nat, hs: nat)
    requires i < n
    ensures 0 <= (n - 1 - i) * hs && (n - 1 - i) * hs + hs == (n - i) * hs <= n * hs
    ensures i * hs + hs == (i + 1) * hs <= n * hs
  {
    Shrinks(n - i, n, hs);
    Shrinks(i + 1, n, hs);
  }

  lemma NextReversed(path: seq<byte>, hs: nat, n: nat, i: nat)
    requires i < n && n * hs <= |path| && (n - i) * hs <= |path|
    ensures ReversedBytes(path, hs, n, i + 1) == ReversedBytes(path, hs, n, i) + HopAt(path, hs, n - 1 - i)
  {
  }

  method ReverseInto(rx: packet, path: array<byte>)
    requires path.Length == 64 && ValidPathLen(rx.pathLen)
    modifies path
    ensures path[..] == Splice(old(path[..]), 0, ReversedBytes(rx.path, Size(rx), Count(rx), Count(rx)))
  {
    var n, hs := Count(rx), Size(rx);
    ghost var x := path[..];
    for i := 0 to n
      invariant i * hs <= n * hs && path[..] == Splice(x, 0, ReversedBytes(rx.path, hs, n, i))
    {
      HopsTurn(n, i, hs);
      NextReversed(rx.path, hs, n, i);
      ghost var done := ReversedBytes(rx.path, hs, n, i);
      var hop := HopAt(rx.path, hs, n - 1 - i);
      CopyInto(path, i * hs, hop);
      SpliceNext(x, 0, done, hop);
    }
  }
}
