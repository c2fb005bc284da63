/**
 A message carried over the air by whole nodes: every hop parses a frame, checks its hash, its policy and its
 queue, and what it queues is the frame the next hop hears.
 */
module Chain {

  import opened Bytes
  import opened Packet
  import opened Routes
  import opened Crypto
  import opened Content
  import opened Mesh
  import Channel
  import Queue

  // ---------------------------------------------------------------- one hop

  /** A node, what it is in when the frame reaches it, and what else it reads then. */
  datatype Station = Station(node: Node, st: State, inp: Inputs)

  /** The sender, when the node can read it, is not blocked. */
  predicate SenderAllowed(n: Node, p: packet) {
    match OpenedBy(n, p)
    case Text(plain) => |plain| >= 5 ==> !Blacklisted(n.cfg, Channel.Sender(plain))
    case Opaque => true
  }

  /** A repeater that passes this group message on. */
  predicate Takes(n: Node, p: packet) {
    && !n.cfg.hotspot && n.cfg.forward && Decide(n.suite, n.cfg.public, p).OkGrpPublic? && SenderAllowed(n, p)
  }

  /** The message is new to it, no local service answers it, and there is room. */
  predicate Ready(x: Station, p: packet) {
    && HashOf(x.node, p) !in x.st.seen && Queue.HasRoom(x.st.txq)
    && x.inp.service.reply.NoReply? && !x.inp.service.answered
  }

  /** What this node queues for `p` is heard as `q` by the next. */
  ghost predicate Passes(x: Station, p: packet, q: packet) {
    && WellFormed(p)
    && var (next, result) := Received(x.node, x.st, Wire(p), x.inp);
       && result.Forwarded?
       && exists i :: 0 <= i < Queue.SLOTS && x.st.txq[i].Free? && QueuedAs(next.txq[i], q)
  }

  predicate QueuedAs(s: Queue.Slot, q: packet) {
    s.Used? && WellFormed(s.entry.pkt) && !s.entry.own && Parsed(Wire(s.entry.pkt)) == Ok(q)
  }

  /** The order a repeater relays with. */
  function OrderOf(x: Station, p: packet): Order
    requires ValidPathLen(p.pathLen) && Route(p, x.node.id).Relay?
  {
    var wait := if IsFlood(p) then x.inp.backoff else 0;
    Order(Route(p, x.node.id).priority, wait, x.node.cfg.txPower, false, x.inp.relayAt)
  }

  /** Neither the policy nor the local services change anything before the message is relayed. */
  lemma GroupAdmitted(n: Node, st: State, p: packet, inp: Inputs)
    requires WellFormed(p) && Takes(n, p) && inp.service.reply.NoReply? && !inp.service.answered
    ensures PayloadType(p) != ADVERT && Admitted(n, st, p, [], inp) == Relayed(n, st, p, n.cfg.txPower, inp)
  {
    ForwardsIff(n.suite, n.cfg.public, p);
  }

  lemma GroupRelayed(x: Station, p: packet)
    requires WellFormed(p) && Canonical(p) && Takes(x.node, p) && Ready(x, p) && Route(p, x.node.id).Relay?
    ensures var (next, result) := Received(x.node, x.st, Wire(p), x.inp);
            && result.Forwarded?
            && next.txq == Queue.Add(x.st.txq, EntryFor(x.st, Route(p, x.node.id).packet, OrderOf(x, p)))
  {
    WireParses(p);
    var known := Recorded(x.node, x.st, p);
    GroupAdmitted(x.node, known, p, x.inp);
  }

  /** What the next node hears. */
  function Hop(p: packet, id: key): packet
    requires WellFormed(p) && Route(p, id).Relay?
  {
    RelayKeeps(p, id);
    Canon(Route(p, id).packet)
  }

  lemma HopPasses(x: Station, p: packet)
    requires WellFormed(p) && Canonical(p) && Takes(x.node, p) && Ready(x, p) && Route(p, x.node.id).Relay?
    ensures Passes(x, p, Hop(p, x.node.id))
  {
    GroupRelayed(x, p);
    var q := Route(p, x.node.id).packet;
    RelayKeeps(p, x.node.id);
    WireArrives(q);
    var e := EntryFor(x.st, q, OrderOf(x, p));
    var i :| 0 <= i < Queue.SLOTS && x.st.txq[i].Free? && Queue.Add(x.st.txq, e) == x.st.txq[i := Queue.Used(e)];
    assert QueuedAs(Queue.Add(x.st.txq, e)[i], Hop(p, x.node.id));
  }

  /** The wire keeps the hops. */
  lemma CanonHops(p: packet)
    requires WellFormed(p)
    ensures var q := Canon(p);
            && WellFormed(q) && Canonical(q) && Hops(q) == Hops(p) && Size(q) == Size(p) && Count(q) == Count(p)
            && q.header == p.header && q.payload == p.payload
  {
    WireArrives(p);
    var q := Canon(p);
    assert q.path[..ByteLen(p.pathLen)] == p.path[..ByteLen(p.pathLen)];
    HopsAgree(q.path, p.path, Size(p), Count(p));
  }

  /** The message is the same to every node: type, payload and codes. */
  predicate SameMessage(p: packet, q: packet) {
    p.header == q.header && p.payload == q.payload && (HasCodes(p) ==> p.code0 == q.code0)
  }

  lemma SameToAll(n: Node, p: packet, q: packet)
    requires SameMessage(p, q) && WellFormed(p) && WellFormed(q)
    ensures PayloadType(p) != TRACE ==> HashOf(n, p) == HashOf(n, q)
    ensures Takes(n, p) == Takes(n, q)
  {
    if PayloadType(p) != TRACE {
      assert HashInput(p) == HashInput(q);
    }
    assert OpenedBy(n, p) == OpenedBy(n, q) by { OpensAlike(n, p, q); }
    PublicAlike(n.suite, n.cfg.public, p, q);
  }

  lemma OpensAlike(n: Node, p: packet, q: packet)
    requires p.header == q.header && p.payload == q.payload
    ensures OpenedBy(n, p) == OpenedBy(n, q)
  {
    if |p.payload| >= MIN_GROUP {
      MatchesAlike(n, p, q, 0);
    }
  }

  lemma {:induction false} MatchesAlike(n: Node, p: packet, q: packet, i: nat)
    requires p.payload == q.payload && |p.payload| >= MIN_GROUP && i <= |n.cfg.public.channels|
    ensures MatchFrom(n, p, i) == MatchFrom(n, q, i)
    decreases |n.cfg.public.channels| - i
  {
    if i < |n.cfg.public.channels| {
      MatchesAlike(n, p, q, i + 1);
    }
  }

  lemma PublicAlike(s: Suite, cfg: Public, p: packet, q: packet)
    requires p.header == q.header && p.payload == q.payload
    ensures Decide(s, cfg, p).OkGrpPublic? == Decide(s, cfg, q).OkGrpPublic?
  {
    ForwardsIff(s, cfg, p);
    ForwardsIff(s, cfg, q);
  }

  // ---------------------------------------------------------------- many hops

  function Ids(xs: seq<Station>): (ids: seq<key>)
    ensures |ids| == |xs|
  {
    seq(|xs|, i requires 0 <= i < |xs| => xs[i].node.id)
  }

  /** Each node in turn passes on what the one before it sent. */
  ghost predicate Carried(xs: seq<Station>, p: packet, q: packet)
    decreases |xs|
  {
    if |xs| == 0 then p == q else exists r: packet :: Passes(xs[0], p, r) && Carried(xs[1..], r, q)
  }

  predicate AllTake(xs: seq<Station>, p: packet) {
    forall i :: 0 <= i < |xs| ==> Takes(xs[i].node, p) && Ready(xs[i], p)
  }

  /** A group message. */
  predicate Fine(p: packet) {
    WellFormed(p) && Canonical(p) && PayloadType(p) != TRACE
  }

  lemma HopFine(p: packet, id: key)
    requires Fine(p) && Route(p, id).Relay?
    ensures var q := Hop(p, id);
            && Fine(q) && SameMessage(p, q) && Size(q) == Size(p) && Hops(q) == Hops(Route(p, id).packet)
            && Count(q) == |Hops(q)|
  {
    RelayKeeps(p, id);
    CanonHops(Route(p, id).packet);
  }

  lemma RestTake(xs: seq<Station>, p: packet, q: packet)
    requires |xs| > 0 && AllTake(xs, p) && Fine(p) && Fine(q) && SameMessage(p, q)
    ensures AllTake(xs[1..], q)
  {
    forall i | 0 <= i < |xs[1..]|
      ensures Takes(xs[1..][i].node, q) && Ready(xs[1..][i], q)
    {
      assert xs[1..][i] == xs[i + 1];
      SameToAll(xs[i + 1].node, p, q);
    }
  }

  lemma FloodHop(x: Station, p: packet)
    requires Fine(p) && IsFlood(p) && !MarkedDnr(p) && Takes(x.node, p) && Ready(x, p)
    requires Count(p) < 63 && (Count(p) + 1) * Size(p) <= MAX_PATH
    ensures Route(p, x.node.id).Relay?
    ensures var r := Hop(p, x.node.id);
            && Passes(x, p, r) && Fine(r) && SameMessage(p, r) && Size(r) == Size(p) && Count(r) == Count(p) + 1
            && Hops(r) == Hops(p) + [x.node.id[..Size(p)]]
  {
    AppendedHops(p, x.node.id);
    HopFine(p, x.node.id);
    HopPasses(x, p);
  }

  lemma HashesFirst(xs: seq<Station>, hs: nat)
    requires |xs| > 0 && hs <= 4
    ensures Hashes(Ids(xs), hs) == [xs[0].node.id[..hs]] + Hashes(Ids(xs[1..]), hs)
  {
    assert Ids(xs)[1..] == Ids(xs[1..]);
  }

  lemma JoinHops(a: seq<seq<byte>>, x: seq<byte>, b: seq<seq<byte>>)
    ensures a + [x] + b == a + ([x] + b)
  {
  }

  /** A flooded message reaches the end of any chain of nodes it is new to, with their hashes in order. */
  lemma {:induction false} FloodCarried(xs: seq<Station>, p: packet, total: nat) returns (q: packet)
    requires Fine(p) && IsFlood(p) && !MarkedDnr(p) && AllTake(xs, p)
    requires total == Count(p) + |xs| < 64 && total * Size(p) <= MAX_PATH
    ensures Carried(xs, p, q) && Fine(q) && SameMessage(p, q) && Size(q) == Size(p)
    ensures Hops(q) == Hops(p) + Hashes(Ids(xs), Size(p))
    decreases |xs|
  {
    if |xs| == 0 {
      q := p;
    } else {
      Shrinks(Count(p) + 1, total, Size(p));
      FloodHop(xs[0], p);
      var r := Hop(p, xs[0].node.id);
      RestTake(xs, p, r);
      q := FloodCarried(xs[1..], r, total);
      HashesFirst(xs, Size(p));
      JoinHops(Hops(p), xs[0].node.id[..Size(p)], Hashes(Ids(xs[1..]), Size(p)));
    }
  }

  /** A direct message naming a chain of nodes is stripped by each and arrives with an empty path. */
  lemma {:induction false} DirectCarried(xs: seq<Station>, p: packet) returns (q: packet)
    requires Fine(p) && !IsFlood(p) && AllTake(xs, p) && Hops(p) == Hashes(Ids(xs), Size(p))
    ensures Carried(xs, p, q) && Fine(q) && SameMessage(p, q) && Count(q) == 0
    decreases |xs|
  {
    if |xs| == 0 {
      q := p;
    } else {
      var id := xs[0].node.id;
      assert Ids(xs)[0] == id && Ids(xs)[1..] == Ids(xs[1..]);
      FirstHop(p, id);
      StrippedHops(p);
      var r := Hop(p, id);
      HopFine(p, id);
      HopPasses(xs[0], p);
      RestTake(xs, p, r);
      assert Hashes(Ids(xs), Size(p))[1..] == Hashes(Ids(xs[1..]), Size(p));
      q := DirectCarried(xs[1..], r);
    }
  }

  // ---------------------------------------------------------------- a command and its reply

  /** A repeater with these primitives that holds the channel and does not block who speaks. */
  ghost predicate Repeats(x: Station, s: Suite, ch: channel, p: packet) {
    && x.node.suite == s && ch in x.node.cfg.public.channels && !x.node.cfg.hotspot && x.node.cfg.forward
    && SenderAllowed(x.node, p) && Ready(x, p)
  }

  lemma BuiltTaken(xs: seq<Station>, s: Suite, ch: channel, sender: cstring, text: cstring, ts: nat, route: nat)
    requires Works(s) && ts < 0x1_0000_0000 && route < 4 && Channel.Fits(sender, text)
    requires forall i :: 0 <= i < |xs| ==> Repeats(xs[i], s, ch, Channel.Built(s, ch, sender, text, ts, route))
    ensures var p := Channel.Built(s, ch, sender, text, ts, route);
            AllTake(xs, p) && Fine(p) && Count(p) == 0 && Size(p) == 1 && RouteType(p) == route && !MarkedDnr(p)
  {
    var p := Channel.Built(s, ch, sender, text, ts, route);
    Channel.BuiltFields(s, ch, sender, text, ts, route);
    forall i | 0 <= i < |xs|
      ensures Takes(xs[i].node, p)
    {
      Channel.BuiltIsPublic(s, xs[i].node.cfg.public, ch, sender, text, ts, route);
    }
  }

  lemma AlsoTake(xs: seq<Station>, p: packet, q: packet)
    requires AllTake(xs, p) && Fine(p) && Fine(q) && SameMessage(p, q)
    ensures AllTake(xs, q)
  {
    forall i | 0 <= i < |xs|
      ensures Takes(xs[i].node, q) && Ready(xs[i], q)
    {
      SameToAll(xs[i].node, p, q);
    }
  }

  /** The reply as the first node of the way back hears it. */
  function ReplyHeard(rx: packet, built: packet): packet
    requires WellFormed(rx) && WellFormed(built) && Count(built) == 0
  {
    ReplyHops(rx, built);
    Canon(Routes.Reply(rx, built))
  }

  lemma ReplyFine(rx: packet, built: packet)
    requires WellFormed(rx) && Fine(built) && Count(built) == 0
    ensures var q := ReplyHeard(rx, built);
            && Fine(q) && SameMessage(built, q) && Hops(q) == Reversed(Hops(rx))
            && (Count(rx) > 0 ==> Size(q) == Size(rx))
  {
    ReplyHops(rx, built);
    CanonHops(Routes.Reply(rx, built));
  }

  /**
   End to end through whole nodes: a command flooded on a channel is carried by any at most 63 repeaters that
   hold the channel, and arrives with their hashes in order; the reply, sent back along that path, is carried
   by the same repeaters in reverse and arrives with an empty path.
   */
  lemma CommandAndReply(s: Suite, ch: channel, out: seq<Station>, back: seq<Station>, sender: cstring, text: cstring,
          ts: nat, name: cstring, answer: cstring, later: nat) returns (rx: packet, end: packet)
    requires Works(s) && ts < 0x1_0000_0000 && later < 0x1_0000_0000
    requires Channel.Fits(sender, text) && Channel.Fits(name, answer)
    requires 0 < |out| < 64 && Ids(back) == Reversed(Ids(out))
    requires forall i :: 0 <= i < |out| ==> Repeats(out[i], s, ch, Channel.Built(s, ch, sender, text, ts, 1))
    requires forall i :: 0 <= i < |back| ==> Repeats(back[i], s, ch, Channel.Built(s, ch, name, answer, later, 2))
    ensures var command := Channel.Built(s, ch, sender, text, ts, 1);
            && Carried(out, command, rx) && rx.payload == command.payload
            && WellFormed(rx) && Hops(rx) == Hashes(Ids(out), 1)
    ensures var built := Channel.Built(s, ch, name, answer, later, 2);
            && WellFormed(built) && Count(built) == 0
            && Carried(back, ReplyHeard(rx, built), end) && end.payload == built.payload && Count(end) == 0
  {
    BuiltTaken(out, s, ch, sender, text, ts, 1);
    BuiltTaken(back, s, ch, name, answer, later, 2);
    var command, built := Channel.Built(s, ch, sender, text, ts, 1), Channel.Built(s, ch, name, answer, later, 2);
    assert Hops(command) == [];
    rx := FloodCarried(out, command, |out|);
    ReplyFine(rx, built);
    HashesReversed(Ids(out), 1);
    var reply := ReplyHeard(rx, built);
    AlsoTake(back, built, reply);
    end := DirectCarried(back, reply);
  }
}
