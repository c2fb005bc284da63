/**
 The program of a node: an object whose methods change the ring, the queue and the tables in place, each
 proved to do what `Mesh` says.
 */
module MeshProgram {

  import opened Bytes
  import opened Packet
  import opened Routes
  import opened Crypto
  import opened Content
  import opened Names
  import opened Neighbours
  import opened Mesh
  import opened Runs
  import Channel
  import Queue
  import Seen

  class Program {
    const n: Node
    const seen: Seen.Ring
    const queue: Queue.TxQueue
    const neighbours: array<Neighbour>
    var repeaters: seq<byte>
    var awakeUntil: nat
    var silent: bool
    var serial: nat
    /** everything handed to the backbone, as a record of the calls made */
    var offers: seq<Offering>
    var rxSrc: Source

    ghost function Repr(): set<object>
      reads this
    {
      {this, seen, seen.ring, queue, queue.txq, neighbours}
    }

    ghost predicate Valid()
      reads Repr()
    {
      && seen.Valid() && queue.Valid() && neighbours.Length == TABLE
      && seen.ring as object != queue.txq as object && seen.ring as object != neighbours as object
      && queue.txq as object != neighbours as object
    }

    ghost function View(): State
      reads Repr()
      requires Valid()
    {
      State(seen.Window(), queue.Slots(), neighbours[..], repeaters, awakeUntil, silent, serial, offers)
    }

    constructor (n: Node)
      ensures Valid() && fresh(Repr()) && this.n == n && View() == Initial() && rxSrc == Rf
    {
      this.n := n;
      seen := new Seen.Ring();
      queue := new Queue.TxQueue();
      neighbours := new Neighbour[96](_ => Unused);
      repeaters := [];
      awakeUntil := 0;
      silent := false;
      serial := 0;
      offers := [];
      rxSrc := Rf;
      new;
      assert neighbours[..] == NoNeighbours();
    }

    predicate IsSilent(now: nat)
      reads this
    {
      n.cfg.hotspot && n.cfg.awake != 0 && now >= awakeUntil
    }

    method Record(p: packet) returns (present: bool)
      requires Valid()
      modifies seen, seen.ring
      ensures Valid() && View() == Recorded(n, old(View()), p) && present == (HashOf(n, p) in old(View()).seen)
    {
      present := seen.CheckAndAdd(HashOf(n, p));
    }

    method Enqueue(p: packet, o: Order) returns (ok: bool)
      requires Valid()
      modifies this`serial, this`offers, queue.txq
      ensures Valid() && View() == Enqueued(n, old(View()), p, o, rxSrc) && ok == CanQueue(n, old(View()), o.now)
    {
      if IsSilent(o.now) {
        return false;
      }
      ok := queue.Enqueue(Queue.Entry(p, o.now + o.delay, o.priority, o.power, o.own, serial));
      if ok {
        serial := serial + 1;
        if n.cfg.backbone && rxSrc.Rf? {
          offers := offers + [Offering(p, o.own)];
        }
      }
    }

    method SendAdvert(a: SelfAdvert)
      requires Valid()
      modifies this`serial, this`offers, queue.txq, seen, seen.ring
      ensures Valid() && View() == Advertised(n, old(View()), a, rxSrc)
    {
      if a.Unbuilt? {
        return;
      }
      if IsSilent(a.checked) {
        return;
      }
      var _ := Record(a.own.pkt);
      var _ := Enqueue(a.own.pkt, Order(ADVERT_PRIORITY, a.own.delay, OwnPower(n), true, a.own.now));
    }

    method IsCompanionName(who: cstring) returns (r: bool)
      requires Valid()
      ensures r == IsCompanion(n, View(), who)
    {
      if |who| == 0 || !IsHome(n.cfg, who) || (|who| >= 3 && Folded(who[..3]) == [111, 110, 48])
        || IsAffinity(n.cfg, who) || SameName(who, n.cfg.name) {
        return false;
      }
      for i := 0 to TABLE
        invariant forall j :: 0 <= j < i ==>
                    !(neighbours[j].Heard? && neighbours[j].kind != CHAT && SameName(neighbours[j].name, who))
      {
        if neighbours[i].Heard? && neighbours[i].kind != CHAT && SameName(neighbours[i].name, who) {
          assert HeardOtherwise(View().neighbours, who);
          return false;
        }
      }
      return true;
    }

    method HotspotWake(p: packet, who: cstring, now: nat, a: SelfAdvert)
      requires Valid()
      modifies this`serial, this`offers, this`awakeUntil, this`silent, queue.txq, seen, seen.ring
      ensures Valid() && View() == Woken(n, old(View()), p, who, rxSrc, now, a)
    {
      if !n.cfg.hotspot || n.cfg.awake == 0 || rxSrc.Backbone? || Count(p) != 0 {
        return;
      }
      var companion := IsCompanionName(who);
      if !companion {
        return;
      }
      var wasSilent := IsSilent(now);
      awakeUntil := now + n.cfg.awake * 1000;
      if wasSilent {
        silent := false;
        SendAdvert(a);
      }
    }

    method LearnAffinity(pub: key)
      requires Valid()
      modifies this`repeaters
      ensures Valid()
      ensures View() == old(View()).(repeaters := if pub[0] in old(repeaters) || |old(repeaters)| >= 16 then old(repeaters)
                                                  else old(repeaters) + [pub[0]])
    {
      for i := 0 to |repeaters|
        invariant forall j :: 0 <= j < i ==> repeaters[j] != pub[0]
        invariant repeaters == old(repeaters)
      {
        if repeaters[i] == pub[0] {
          return;
        }
      }
      if |repeaters| < 16 {
        repeaters := repeaters + [pub[0]];
      }
    }

    method PathAffinity(p: packet) returns (r: bool)
      requires Valid() && ValidPathLen(p.pathLen)
      ensures r == PathHasAffinity(View(), p)
    {
      var hops, hs := Count(p), Size(p);
      for h := 0 to hops
        invariant forall k :: 0 <= k < h && k * hs < 64 ==> p.path[k * hs] !in repeaters
      {
        assert h * hs < hops * hs by { HopInside(h, hops, hs); }
        if p.path[h * hs] in repeaters {
          return true;
        }
      }
      return false;
    }

    method HotspotDecide(p: packet, advertiser: cstring, sender: cstring) returns (scope: Scope)
      requires Valid() && ValidPathLen(p.pathLen)
      ensures scope == HotspotScope(n, View(), p, advertiser, sender, rxSrc)
    {
      var kind := PayloadType(p);
      if rxSrc.Backbone? {
        return if kind != ADVERT || IsAffinity(n.cfg, advertiser) then Within(n.cfg.powerLow) else Outside;
      }
      if kind == ADVERT {
        if IsAffinity(n.cfg, advertiser) {
          return Within(n.cfg.powerLow);
        }
        return if IsHome(n.cfg, advertiser) then Within(n.cfg.powerHigh) else Outside;
      }
      var viaRepeater := PathAffinity(p);
      if viaRepeater {
        return Within(n.cfg.powerLow);
      }
      if kind == GRP_TXT && IsAffinity(n.cfg, sender) {
        return Within(n.cfg.powerLow);
      }
      return if kind == GRP_TXT && IsHome(n.cfg, sender) then Within(n.cfg.powerHigh) else Outside;
    }

    /** The last part of receiving: the hotspot's scope, then the route. */
    method Forward(p: packet, advertiser: cstring, sender: cstring, inp: Inputs) returns (r: Result)
      requires Valid() && ValidPathLen(p.pathLen) && inp.src == rxSrc
      modifies this`serial, this`offers, queue.txq
      ensures Valid() && (View(), r) == Scoped(n, old(View()), p, advertiser, sender, inp)
    {
      var power := n.cfg.txPower;
      if n.cfg.hotspot {
        var scope := HotspotDecide(p, advertiser, sender);
        if scope.Outside? {
          return Refused;
        }
        power := scope.power;
      }
      match Route(p, n.id)
      case Relay(q, priority) =>
        var ok := Enqueue(q, Order(priority, if IsFlood(p) then inp.backoff else 0, power, false, inp.relayAt));
        return if ok then Forwarded else Local;
      case Full => return Local;
      case NotOurs => return Local;
    }

    method Serve(reply: Reply)
      requires Valid()
      modifies this`serial, this`offers, queue.txq, seen, seen.ring
      ensures Valid() && View() == Served(n, old(View()), reply, rxSrc)
    {
      if reply.ReplyWith? {
        var _ := Record(reply.own.pkt);
        var _ := Enqueue(reply.own.pkt, Order(REPLY_PRIORITY, reply.own.delay, OwnPower(n), true, reply.own.now));
      }
    }

    /** A message on public channel i: blacklist, companion, local services, and on. */
    method ProcessPublicGroup(p: packet, i: nat, inp: Inputs) returns (r: Result)
      requires Valid() && ValidPathLen(p.pathLen) && inp.src == rxSrc
      requires |p.payload| >= MIN_GROUP && MatchFrom(n, p, 0) == i
      modifies this`serial, this`offers, this`awakeUntil, this`silent, queue.txq, seen, seen.ring
      ensures Valid() && (View(), r) == PublicGroup(n, old(View()), p, inp)
    {
      if PayloadType(p) != GRP_TXT {
        r := Forward(p, [], [], inp);
        return;
      }
      var text := Channel.Decrypted(n.suite, n.cfg.public.channels[i], p, MAX_PAYLOAD);
      if text.Undecodable? || |text.bytes| < 5 {
        r := Forward(p, [], [], inp);
        return;
      }
      var sender := Channel.Sender(text.bytes);
      if Blacklisted(n.cfg, sender) {
        return Refused;
      }
      HotspotWake(p, sender, inp.wakeAt, inp.advert);
      if rxSrc.Rf? {
        Serve(inp.service.reply);
        if inp.service.answered {
          return Local;
        }
      }
      r := Forward(p, [], sender, inp);
    }

    /** From the trace and forwarding tests on. */
    method Admit(p: packet, advertiser: cstring, inp: Inputs) returns (r: Result)
      requires Valid() && ValidPathLen(p.pathLen) && inp.src == rxSrc
      modifies this`serial, this`offers, this`awakeUntil, this`silent, queue.txq, seen, seen.ring
      ensures Valid() && (View(), r) == Admitted(n, old(View()), p, advertiser, inp)
    {
      if PayloadType(p) == TRACE || !n.cfg.forward {
        return Local;
      }
      var d, matched := Classify(n.suite, n.cfg.public, p);
      if d.OkGrpPublic? {
        MatchIs(n, p, 0, matched);
        r := ProcessPublicGroup(p, matched, inp);
      } else if d.OkPublic? || d.OkRegion? {
        r := Forward(p, advertiser, [], inp);
      } else {
        r := Refused;
      }
    }

    method Heed(p: packet, inp: Inputs)
      requires Valid() && inp.src == rxSrc && |p.payload| >= DATA_OFFSET
      modifies this`serial, this`offers, this`awakeUntil, this`silent, this`repeaters
      modifies neighbours, queue.txq, seen, seen.ring
      ensures Valid() && View() == Heeded(n, old(View()), p, inp)
    {
      if rxSrc.Backbone? {
        return;
      }
      var name := AdvertName(p);
      Update(neighbours, p, inp.wallClock);
      if n.cfg.hotspot && IsAffinity(n.cfg, name) {
        LearnAffinity(Advertiser(p));
      }
      if AdvertKind(p, 0) == CHAT {
        HotspotWake(p, name, inp.wakeAt, inp.advert);
      }
    }

    method OnRecv(raw: seq<byte>, inp: Inputs) returns (r: Result)
      requires Valid() && inp.src == rxSrc
      modifies this`serial, this`offers, this`awakeUntil, this`silent, this`repeaters
      modifies neighbours, queue.txq, seen, seen.ring
      ensures Valid() && (View(), r) == Received(n, old(View()), raw, inp)
    {
      var parsed := Parse(raw);
      if parsed.Err? {
        return Malformed;
      }
      var p := parsed.packet;
      ParsedIsWire(raw);
      var present := Record(p);
      if present {
        return Duplicate;
      }
      if PayloadType(p) != ADVERT {
        r := Admit(p, [], inp);
        return;
      }
      if !Signed(n.verify, p) {
        return Refused;
      }
      var name := AdvertName(p);
      if Blacklisted(n.cfg, name) || KeyBlocked(n.cfg, Advertiser(p)) {
        return Refused;
      }
      Heed(p, inp);
      r := Admit(p, name, inp);
    }

    /** A frame the hub sent: received like any other, but known to come from there. */
    method OnBackbone(raw: seq<byte>, inp: Inputs) returns (r: Result)
      requires Valid() && inp.src == Backbone
      modifies Repr()
      ensures Valid() && rxSrc == old(rxSrc) && (View(), r) == Received(n, old(View()), raw, inp)
    {
      var saved := rxSrc;
      rxSrc := Backbone;
      r := OnRecv(raw, inp);
      rxSrc := saved;
    }

    /**
     One turn of the transmit service: what goes to the radio is the wire form of the entry served, which
     always serialises.
     */
    method ServiceTx(r: Radio, raw: array<byte>) returns (turn: Turn, len: nat)
      requires Valid() && GoodState(n, View()) && raw.Length == 255 && raw !in Repr()
      modifies this`silent, queue.txq, raw
      ensures Valid() && (View(), turn) == Transmitted(n, old(View()), r)
      ensures turn.Sent? || turn.Failed? ==>
                WellFormed(turn.entry.pkt) && 0 < len <= 254 && raw[..len] == Wire(turn.entry.pkt)
    {
      len := 0;
      if IsSilent(r.now) {
        silent := true;
        var _ := queue.Flush();
        return Flushed, 0;
      }
      var idx := queue.PickDue(r.now);
      if idx < 0 {
        return Idle, 0;
      }
      if n.cfg.listenFirst && r.busy {
        queue.Postpone(idx, r.now + r.backoff);
        return Postponed, 0;
      }
      var e;
      e, len := Unqueue(idx, raw);
      return if r.sent then Sent(e) else Failed(e), len;
    }

    /** The wire form of an entry, which leaves the queue. */
    method Unqueue(idx: nat, raw: array<byte>) returns (e: Queue.Entry, len: nat)
      requires Valid() && GoodState(n, View()) && raw.Length == 255 && raw !in Repr()
      requires idx < Queue.SLOTS && queue.txq[idx].Used?
      modifies queue.txq, raw
      ensures Valid() && e == old(queue.txq[idx].entry)
      ensures View() == old(View()).(txq := old(View().txq)[idx := Queue.Free])
      ensures WellFormed(e.pkt) && 0 < len <= 254 && raw[..len] == Wire(e.pkt)
    {
      e := queue.txq[idx].entry;
      assert GoodPacket(n, e.pkt, e.own);
      WireLength(e.pkt);
      len := Serialise(e.pkt, raw);
      queue.Remove(idx);
    }
  }

  lemma {:induction false} MatchIs(n: Node, p: packet, i: nat, m: nat)
    requires |p.payload| >= MIN_GROUP && i <= m < |n.cfg.public.channels|
    requires Verifies(n.suite, n.cfg.public.channels[m], p)
    requires forall j :: i <= j < m ==> !Verifies(n.suite, n.cfg.public.channels[j], p)
    ensures MatchFrom(n, p, i) == m
    decreases m - i
  {
    if i < m {
      MatchIs(n, p, i + 1, m);
    }
  }

  lemma HopInside(h: nat, n: nat, hs: nat)
    requires h < n && hs >= 1
    ensures h * hs < n * hs
  {
  }
}
