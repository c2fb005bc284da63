/**
 What a node passes on, said once for the whole reception: exactly which frames, and as what they are queued.
 */
module Relay {

  import opened Bytes
  import opened Packet
  import opened Routes
  import opened Content
  import opened Names
  import opened Neighbours
  import opened Mesh
  import opened Runs
  import opened Hotspot
  import Channel
  import Queue
  import Stale

  // ---------------------------------------------------------------- which frames

  /** A public message whose sender the node can read. */
  predicate Readable(n: Node, p: packet) {
    OpenedBy(n, p).Text? && |OpenedBy(n, p).plain| >= 5
  }

  function SenderOf(n: Node, p: packet): cstring {
    if Readable(n, p) then Channel.Sender(OpenedBy(n, p).plain) else []
  }

  function NameOf(p: packet): cstring {
    if PayloadType(p) == ADVERT && |p.payload| >= DATA_OFFSET then AdvertName(p) else []
  }

  /** A signed advert of nobody blocked, or a group packet shown public of nobody blocked. */
  predicate Permitted(n: Node, p: packet) {
    if PayloadType(p) == ADVERT then
      Signed(n.verify, p) && !Blacklisted(n.cfg, AdvertName(p)) && !KeyBlocked(n.cfg, Advertiser(p))
    else Shown(n.suite, n.cfg.public, p) && (Readable(n, p) ==> !Blacklisted(n.cfg, SenderOf(n, p)))
  }

  /** A hotspot passes on only what comes from the mesh, and on RF what the operator's devices say. */
  predicate InScope(n: Node, st: State, p: packet, src: Source)
    requires ValidPathLen(p.pathLen)
  {
    || !n.cfg.hotspot || FromMesh(n, st, p, NameOf(p), SenderOf(n, p), src)
    || (src.Rf? && FromDevice(n, p, NameOf(p), SenderOf(n, p)))
  }

  /** A flood with room for one more hop, or a direct packet whose next hop is this node. */
  predicate Routable(n: Node, p: packet)
    requires WellFormed(p)
  {
    if RouteType(p) < 2 then (Count(p) + 1) * Size(p) <= 64 else Count(p) > 0 && Hops(p)[0] == n.id[..Size(p)]
  }

  /** A message a local service answered is not passed on. */
  predicate AnsweredHere(n: Node, p: packet, inp: Inputs) {
    inp.src.Rf? && Readable(n, p) && inp.service.answered
  }

  predicate PassesOn(n: Node, st: State, p: packet, inp: Inputs)
    requires WellFormed(p)
  {
    && n.cfg.forward && HashOf(n, p) !in st.seen && Permitted(n, p) && InScope(n, st, p, inp.src) && Routable(n, p)
    && !AnsweredHere(n, p, inp)
  }

  /** Who is blocked: by the operator's list, or by the hub's when its policy is in force. */
  lemma BlockedIff(cfg: Config, name: cstring, pub: key)
    ensures Blacklisted(cfg, name)
       <==> |name| > 0 && ((exists x :: x in cfg.blacklist && SameName(x, name))
                           || (cfg.policy && exists x :: x in cfg.policyNames && SameName(x, name)))
    ensures KeyBlocked(cfg, pub) <==> cfg.policy && exists i :: 0 <= i < |cfg.policyKeys| && cfg.policyKeys[i] == pub
  {
  }

  // ---------------------------------------------------------------- as what

  /** At low power what comes from the mesh, at high power what the operator's devices say. */
  function PowerFor(n: Node, st: State, p: packet, src: Source): int
    requires ValidPathLen(p.pathLen)
  {
    if !n.cfg.hotspot then n.cfg.txPower
    else if FromMesh(n, st, p, NameOf(p), SenderOf(n, p), src) then n.cfg.powerLow
    else n.cfg.powerHigh
  }

  /**
   A flood waits for its backoff and is the more urgent the fewer hops it has made; a routed packet is the most
   urgent and waits for nothing.
   */
  predicate QueuedFor(n: Node, p: packet, power: int, inp: Inputs, e: Queue.Entry)
    requires WellFormed(p)
  {
    && Route(p, n.id).Relay? && e.pkt == Route(p, n.id).packet && !e.own && e.power == power
    && if RouteType(p) < 2 then e.priority == |Hops(p)| + 1 && e.due == inp.relayAt + inp.backoff
       else e.priority == 0 && e.due == inp.relayAt
  }

  /** Slot i, free before, holds it. */
  predicate HeldAt(n: Node, txq: Queue.slots, next: State, p: packet, power: int, inp: Inputs, i: nat)
    requires WellFormed(p) && i < Queue.SLOTS
  {
    txq[i].Free? && next.txq[i].Used? && QueuedFor(n, p, power, inp, next.txq[i].entry)
  }

  /** Passed on exactly when `yes` and not silent, and then queued in a slot that `txq` had free. */
  ghost predicate Decided(n: Node, txq: Queue.slots, p: packet, power: int, inp: Inputs, next: State, result: Result,
          yes: bool)
    requires WellFormed(p)
  {
    && (result.Forwarded? <==> yes && !RfSilent(n, next, inp.relayAt))
    && (result.Forwarded? ==> exists i: nat :: i < Queue.SLOTS && HeldAt(n, txq, next, p, power, inp, i))
  }

  // ---------------------------------------------------------------- the proof, from the queue outwards

  lemma RoutableIff(n: Node, p: packet)
    requires WellFormed(p)
    ensures Routable(n, p) <==> Route(p, n.id).Relay?
  {
    if RouteType(p) >= 2 && Count(p) > 0 {
      FirstHop(p, n.id);
    }
  }

  /** What a step in front of the relaying leaves: the tables used for the scope, room, and the slots in use. */
  predicate Before(st: State, mid: State, free: nat) {
    mid.repeaters == st.repeaters && Queue.FreeSlots(mid.txq) >= free && Stale.KeepsSlots(st.txq, mid.txq)
  }

  lemma RelayedDecided(n: Node, txq: Queue.slots, mid: State, p: packet, power: int, inp: Inputs)
    requires WellFormed(p) && Queue.FreeSlots(mid.txq) >= 1 && Stale.KeepsSlots(txq, mid.txq)
    ensures var (next, result) := Relayed(n, mid, p, power, inp);
            Decided(n, txq, p, power, inp, next, result, Routable(n, p))
  {
    RoutableIff(n, p);
    Queue.AddTakesOne(mid.txq, Queue.Entry(p, 0, 0, 0, false, 0));
    var (next, result) := Relayed(n, mid, p, power, inp);
    if result.Forwarded? {
      var r := Route(p, n.id);
      var o := Order(r.priority, if IsFlood(p) then inp.backoff else 0, power, false, inp.relayAt);
      var e := EntryFor(mid, r.packet, o);
      var i :| 0 <= i < Queue.SLOTS && mid.txq[i].Free? && Queue.Add(mid.txq, e) == mid.txq[i := Queue.Used(e)];
      assert HeldAt(n, txq, next, p, power, inp, i);
    }
  }

  lemma ScopedDecided(n: Node, txq: Queue.slots, mid: State, p: packet, inp: Inputs)
    requires WellFormed(p) && Queue.FreeSlots(mid.txq) >= 1 && Stale.KeepsSlots(txq, mid.txq)
    ensures var (next, result) := Scoped(n, mid, p, NameOf(p), SenderOf(n, p), inp);
            Decided(n, txq, p, PowerFor(n, mid, p, inp.src), inp, next, result,
                    InScope(n, mid, p, inp.src) && Routable(n, p))
  {
    ScopeIff(n, mid, p, NameOf(p), SenderOf(n, p), inp.src);
    RelayedDecided(n, txq, mid, p, PowerFor(n, mid, p, inp.src), inp);
  }

  /** The scope depends on no more of the state than the affinity table, and for an advert not on that. */
  lemma SameScope(n: Node, st: State, mid: State, p: packet, src: Source)
    requires WellFormed(p) && (mid.repeaters == st.repeaters || PayloadType(p) == ADVERT)
    ensures InScope(n, mid, p, src) == InScope(n, st, p, src) && PowerFor(n, mid, p, src) == PowerFor(n, st, p, src)
  {
    if PayloadType(p) != ADVERT {
      assert PathHasAffinity(mid, p) == PathHasAffinity(st, p);
    }
  }

  lemma OriginatedBefore(n: Node, st: State, mid: State, own: Own, priority: nat, src: Source, free: nat)
    requires Before(st, mid, free + 1)
    ensures Before(st, Originated(n, mid, own, priority, src), free)
  {
    var known := Recorded(n, mid, own.pkt);
    Stale.EnqueuedOne(n, known, own.pkt, Order(priority, own.delay, OwnPower(n), true, own.now), src);
  }

  lemma WokenBefore(n: Node, st: State, p: packet, who: cstring, inp: Inputs, free: nat)
    requires Queue.FreeSlots(st.txq) >= free + 1
    ensures Before(st, Woken(n, st, p, who, inp.src, inp.wakeAt, inp.advert), free)
  {
    if inp.advert.Built? {
      OriginatedBefore(n, st, Up(n, st, inp.wakeAt), inp.advert.own, ADVERT_PRIORITY, inp.src, free);
    }
  }

  /** What is left to test of a group message once the policy let it through. */
  predicate GroupPasses(n: Node, st: State, p: packet, inp: Inputs)
    requires WellFormed(p)
  {
    && (Readable(n, p) ==> !Blacklisted(n.cfg, SenderOf(n, p)))
    && InScope(n, st, p, inp.src) && Routable(n, p) && !AnsweredHere(n, p, inp)
  }

  lemma GroupDecided(n: Node, st: State, p: packet, inp: Inputs)
    requires WellFormed(p) && PayloadType(p) != ADVERT && Queue.FreeSlots(st.txq) >= 3
    ensures var (next, result) := PublicGroup(n, st, p, inp);
            Decided(n, st.txq, p, PowerFor(n, st, p, inp.src), inp, next, result, GroupPasses(n, st, p, inp))
  {
    if !Readable(n, p) {
      ScopedDecided(n, st.txq, st, p, inp);
    } else if !Blacklisted(n.cfg, SenderOf(n, p)) {
      var up := Woken(n, st, p, SenderOf(n, p), inp.src, inp.wakeAt, inp.advert);
      WokenBefore(n, st, p, SenderOf(n, p), inp, 2);
      SameScope(n, st, up, p, inp.src);
      if inp.src.Backbone? || inp.service.reply.NoReply? {
        ScopedDecided(n, st.txq, up, p, inp);
      } else {
        var served := Served(n, up, inp.service.reply, inp.src);
        OriginatedBefore(n, st, up, inp.service.reply.own, REPLY_PRIORITY, inp.src, 1);
        SameScope(n, st, served, p, inp.src);
        ScopedDecided(n, st.txq, served, p, inp);
      }
    }
  }

  lemma AdmittedGroup(n: Node, st: State, p: packet, inp: Inputs)
    requires WellFormed(p) && PayloadType(p) != ADVERT && Queue.FreeSlots(st.txq) >= 3
    ensures var (next, result) := Admitted(n, st, p, [], inp);
            Decided(n, st.txq, p, PowerFor(n, st, p, inp.src), inp, next, result,
                    n.cfg.forward && Permitted(n, p) && GroupPasses(n, st, p, inp))
  {
    ForwardsIff(n.suite, n.cfg.public, p);
    if OpenedBy(n, p).Text? {
      ReadableIsPublic(n, p);
    }
    if n.cfg.forward && PayloadType(p) != TRACE {
      var d := Decide(n.suite, n.cfg.public, p);
      if d.OkGrpPublic? {
        GroupDecided(n, st, p, inp);
      } else if d.OkRegion? {
        ScopedDecided(n, st.txq, st, p, inp);
      }
    }
  }

  lemma AdmittedAdvert(n: Node, st: State, p: packet, inp: Inputs)
    requires WellFormed(p) && Signed(n.verify, p) && Queue.FreeSlots(st.txq) >= 3
    ensures var (next, result) := Admitted(n, Heeded(n, st, p, inp), p, AdvertName(p), inp);
            Decided(n, st.txq, p, PowerFor(n, st, p, inp.src), inp, next, result,
                    n.cfg.forward && InScope(n, st, p, inp.src) && Routable(n, p))
  {
    ForwardsIff(n.suite, n.cfg.public, p);
    var mid := Heeded(n, st, p, inp);
    HeededLeaves(n, st, p, inp);
    SameScope(n, st, mid, p, inp.src);
    ScopedDecided(n, st.txq, mid, p, inp);
  }

  lemma HeededLeaves(n: Node, st: State, p: packet, inp: Inputs)
    requires |p.payload| >= DATA_OFFSET && Queue.FreeSlots(st.txq) >= 3
    ensures var mid := Heeded(n, st, p, inp); Queue.FreeSlots(mid.txq) >= 1 && Stale.KeepsSlots(st.txq, mid.txq)
  {
    var name := AdvertName(p);
    var learned := Learned(n, st.repeaters, Advertiser(p), name);
    var known := WithTables(st, Updated(st.neighbours, p, inp.wallClock), learned);
    WokenBefore(n, known, p, name, inp, 2);
  }

  /** What was recorded first does not matter to the decision. */
  lemma AcceptedDecided(n: Node, st: State, p: packet, inp: Inputs)
    requires WellFormed(p) && Queue.FreeSlots(st.txq) >= 3
    ensures var (next, result) := Accepted(n, st, p, inp);
            Decided(n, st.txq, p, PowerFor(n, st, p, inp.src), inp, next, result,
                    && n.cfg.forward && Permitted(n, p) && InScope(n, st, p, inp.src) && Routable(n, p)
                    && !AnsweredHere(n, p, inp))
  {
    if PayloadType(p) != ADVERT {
      AdmittedGroup(n, st, p, inp);
    } else if Signed(n.verify, p) {
      AdmittedAdvert(n, st, p, inp);
    }
  }

  /**
   A frame is passed on exactly when it parses, is new, permitted, in scope, routable and not answered here, and
   the node is not silent then; and it is queued as said above. For every node with three free slots: one
   for a wake's advert, one for a reply, one for the frame.
   */
  lemma ForwardedIff(n: Node, st: State, raw: seq<byte>, p: packet, inp: Inputs)
    requires Queue.FreeSlots(st.txq) >= 3 && Parsed(raw) == Ok(p) && WellFormed(p)
    ensures var (next, result) := Received(n, st, raw, inp);
            Decided(n, st.txq, p, PowerFor(n, st, p, inp.src), inp, next, result, PassesOn(n, st, p, inp))
  {
    var known := Recorded(n, st, p);
    SameScope(n, st, known, p, inp.src);
    AcceptedDecided(n, known, p, inp);
  }

  // ---------------------------------------------------------------- identifying

  /** The node's own advert has entered the queue. */
  ghost predicate Identifies(n: Node, txq: Queue.slots, next: State, own: Own) {
    exists i: nat {:trigger next.txq[i]} :: i < Queue.SLOTS && txq[i].Free? && next.txq[i].Used?
      && var e := next.txq[i].entry; e.pkt == own.pkt && e.own && e.priority == 0 && e.due == own.now + own.delay
  }

  lemma IdentifiesStill(n: Node, txq: Queue.slots, mid: State, next: State, own: Own)
    requires Identifies(n, txq, mid, own) && Stale.KeepsSlots(mid.txq, next.txq)
    ensures Identifies(n, txq, next, own)
  {
    var i: nat :| i < Queue.SLOTS && txq[i].Free? && mid.txq[i].Used?
      && var e := mid.txq[i].entry; e.pkt == own.pkt && e.own && e.priority == 0 && e.due == own.now + own.delay;
    assert next.txq[i] == mid.txq[i];
  }

  lemma WokenIdentifies(n: Node, st: State, p: packet, who: cstring, inp: Inputs)
    requires Wakes(n, st, p, who, inp.src) && RfSilent(n, st, inp.wakeAt) && Queue.FreeSlots(st.txq) >= 1
    requires inp.advert.Built? && inp.advert.checked < Until(n, inp) && inp.advert.own.now < Until(n, inp)
    ensures Identifies(n, st.txq, Woken(n, st, p, who, inp.src, inp.wakeAt, inp.advert), inp.advert.own)
  {
    var own := inp.advert.own;
    var known := Recorded(n, Up(n, st, inp.wakeAt), own.pkt);
    var e := EntryFor(known, own.pkt, Order(ADVERT_PRIORITY, own.delay, OwnPower(n), true, own.now));
    Queue.AddTakesOne(st.txq, e);
    var i :| 0 <= i < Queue.SLOTS && st.txq[i].Free? && Queue.Add(st.txq, e) == st.txq[i := Queue.Used(e)];
    assert Woken(n, st, p, who, inp.src, inp.wakeAt, inp.advert).txq[i] == Queue.Used(e);
  }

  lemma ScopedKeepsSlots(n: Node, st: State, p: packet, advertiser: cstring, sender: cstring, inp: Inputs)
    requires ValidPathLen(p.pathLen)
    ensures Stale.KeepsSlots(st.txq, Scoped(n, st, p, advertiser, sender, inp).0.txq)
  {
  }

  lemma ServedKeepsSlots(n: Node, st: State, reply: Reply, src: Source)
    ensures Stale.KeepsSlots(st.txq, Served(n, st, reply, src).txq)
  {
  }

  lemma MessageIdentifies(n: Node, st: State, p: packet, inp: Inputs)
    requires ValidPathLen(p.pathLen) && n.cfg.forward && Readable(n, p) && !Blacklisted(n.cfg, SenderOf(n, p))
    requires Wakes(n, st, p, SenderOf(n, p), inp.src) && RfSilent(n, st, inp.wakeAt)
    requires Queue.FreeSlots(st.txq) >= 1
    requires inp.advert.Built? && inp.advert.checked < Until(n, inp) && inp.advert.own.now < Until(n, inp)
    ensures Identifies(n, st.txq, Admitted(n, st, p, [], inp).0, inp.advert.own)
  {
    ReadableIsPublic(n, p);
    var who := SenderOf(n, p);
    var up := Woken(n, st, p, who, inp.src, inp.wakeAt, inp.advert);
    WokenIdentifies(n, st, p, who, inp);
    var served := Served(n, up, inp.service.reply, inp.src);
    ServedKeepsSlots(n, up, inp.service.reply, inp.src);
    IdentifiesStill(n, st.txq, up, served, inp.advert.own);
    ScopedKeepsSlots(n, served, p, [], who, inp);
    IdentifiesStill(n, st.txq, served, Scoped(n, served, p, [], who, inp).0, inp.advert.own);
    assert Admitted(n, st, p, [], inp) == PublicGroup(n, st, p, inp);
  }

  lemma AdvertIdentifies(n: Node, st: State, p: packet, inp: Inputs)
    requires WellFormed(p) && Signed(n.verify, p) && AdvertKind(p, 0) == CHAT && inp.src.Rf?
    requires Wakes(n, st.(neighbours := Updated(st.neighbours, p, inp.wallClock)), p, AdvertName(p), inp.src)
    requires RfSilent(n, st, inp.wakeAt) && Queue.FreeSlots(st.txq) >= 1
    requires inp.advert.Built? && inp.advert.checked < Until(n, inp) && inp.advert.own.now < Until(n, inp)
    ensures Identifies(n, st.txq, Admitted(n, Heeded(n, st, p, inp), p, AdvertName(p), inp).0, inp.advert.own)
  {
    var name := AdvertName(p);
    var learned := Learned(n, st.repeaters, Advertiser(p), name);
    var known := WithTables(st, Updated(st.neighbours, p, inp.wallClock), learned);
    CompanionByTable(n, known, st.(neighbours := Updated(st.neighbours, p, inp.wallClock)), name);
    WokenIdentifies(n, known, p, name, inp);
    ForwardsIff(n.suite, n.cfg.public, p);
    var mid := Heeded(n, st, p, inp);
    ScopedKeepsSlots(n, mid, p, name, [], inp);
    IdentifiesStill(n, st.txq, mid, Admitted(n, mid, p, name, inp).0, inp.advert.own);
  }

  /** A hotspot that a companion wakes from silence identifies itself: its advert goes into the queue. */
  lemma WakingIdentifies(n: Node, st: State, raw: seq<byte>, inp: Inputs)
    requires Waking(n, st, raw, inp) && RfSilent(n, st, inp.wakeAt) && Queue.FreeSlots(st.txq) >= 1
    requires inp.advert.Built? && inp.advert.checked < Until(n, inp) && inp.advert.own.now < Until(n, inp)
    ensures Identifies(n, st.txq, Received(n, st, raw, inp).0, inp.advert.own)
  {
    var p := Parsed(raw).packet;
    ParsedIsWire(raw);
    var who: cstring :| CompanionHeard(n, st, raw, inp, who);
    var known := Recorded(n, st, p);
    CompanionByTable(n, known.(neighbours := TableAt(n, st, p, inp)), st.(neighbours := TableAt(n, st, p, inp)), who);
    if PayloadType(p) == ADVERT {
      AdvertIdentifies(n, known, p, inp);
    } else {
      MessageIdentifies(n, known, p, inp);
    }
  }

  // ---------------------------------------------------------------- what is learned

  /** A frame that is new and brings, on RF, a signed advert of nobody blocked. */
  predicate AdvertHeard(n: Node, st: State, raw: seq<byte>, inp: Inputs) {
    && inp.src.Rf? && Parsed(raw).Ok?
    && var p := Parsed(raw).packet;
       && HashOf(n, p) !in st.seen && Signed(n.verify, p) && !Blacklisted(n.cfg, AdvertName(p))
       && !KeyBlocked(n.cfg, Advertiser(p))
  }

  /**
   Exactly those change the tables: the neighbour table, and on a hotspot the affinity table when the advertiser
   is an affinity repeater, whose first key byte is not in it yet, and it has fewer than 16.
   */
  lemma LearnsIff(n: Node, st: State, raw: seq<byte>, inp: Inputs)
    ensures var next := Received(n, st, raw, inp).0;
            if !AdvertHeard(n, st, raw, inp) then next.neighbours == st.neighbours && next.repeaters == st.repeaters
            else
              var p := Parsed(raw).packet;
              var byte0 := p.payload[0];
              && next.neighbours == Updated(st.neighbours, p, inp.wallClock)
              && next.repeaters
                 == if n.cfg.hotspot && IsAffinity(n.cfg, AdvertName(p)) && byte0 !in st.repeaters
                       && |st.repeaters| < 16
                    then st.repeaters + [byte0] else st.repeaters
  {
    if Parsed(raw).Ok? && HashOf(n, Parsed(raw).packet) !in st.seen {
      var p := Parsed(raw).packet;
      ParsedIsWire(raw);
      var known := Recorded(n, st, p);
      if PayloadType(p) != ADVERT {
        AdmittedTables(n, known, p, [], inp);
      } else if Signed(n.verify, p) && !Blacklisted(n.cfg, AdvertName(p)) && !KeyBlocked(n.cfg, Advertiser(p)) {
        AdmittedTables(n, Heeded(n, known, p, inp), p, AdvertName(p), inp);
        if inp.src.Rf? {
          HeededTables(n, known, p, inp);
        }
      }
    }
  }

  predicate SameTables(a: State, b: State) {
    a.neighbours == b.neighbours && a.repeaters == b.repeaters
  }

  lemma ScopedTables(n: Node, st: State, p: packet, advertiser: cstring, sender: cstring, inp: Inputs)
    requires WellFormed(p)
    ensures SameTables(st, Scoped(n, st, p, advertiser, sender, inp).0)
  {
  }

  lemma WokenTables(n: Node, st: State, p: packet, who: cstring, inp: Inputs)
    ensures SameTables(st, Woken(n, st, p, who, inp.src, inp.wakeAt, inp.advert))
  {
  }

  lemma GroupTables(n: Node, st: State, p: packet, inp: Inputs)
    requires WellFormed(p)
    ensures SameTables(st, PublicGroup(n, st, p, inp).0)
  {
    if !Readable(n, p) {
      ScopedTables(n, st, p, [], [], inp);
    } else {
      var sender := SenderOf(n, p);
      var up := Woken(n, st, p, sender, inp.src, inp.wakeAt, inp.advert);
      WokenTables(n, st, p, sender, inp);
      var served := Served(n, up, inp.service.reply, inp.src);
      ScopedTables(n, up, p, [], sender, inp);
      ScopedTables(n, served, p, [], sender, inp);
    }
  }

  lemma AdmittedTables(n: Node, st: State, p: packet, advertiser: cstring, inp: Inputs)
    requires WellFormed(p)
    ensures SameTables(st, Admitted(n, st, p, advertiser, inp).0)
  {
    GroupTables(n, st, p, inp);
    ScopedTables(n, st, p, advertiser, [], inp);
  }

  /** What an advert leaves in the tables. */
  lemma HeededTables(n: Node, st: State, p: packet, inp: Inputs)
    requires |p.payload| >= DATA_OFFSET && inp.src.Rf?
    ensures var next := Heeded(n, st, p, inp);
            && next.neighbours == Updated(st.neighbours, p, inp.wallClock)
            && next.repeaters == Learned(n, st.repeaters, Advertiser(p), AdvertName(p))
  {
    var learned := Learned(n, st.repeaters, Advertiser(p), AdvertName(p));
    WokenTables(n, WithTables(st, Updated(st.neighbours, p, inp.wallClock), learned), p, AdvertName(p), inp);
  }

  /** The affinity table holds nothing but first key bytes of affinity repeaters heard. */
  lemma {:induction false} LearnedHasCause(n: Node, run: seq<Event>, b: byte) returns (i: nat)
    requires b in Ran(n, run).repeaters
    ensures i < |run| && run[i].Receive? && AdvertHeard(n, Ran(n, run[..i]), run[i].raw, run[i].inp)
    ensures var p := Parsed(run[i].raw).packet; n.cfg.hotspot && IsAffinity(n.cfg, AdvertName(p)) && p.payload[0] == b
    decreases |run|
  {
    var k := |run| - 1;
    var before := Ran(n, run[..k]);
    if b in before.repeaters {
      i := LearnedHasCause(n, run[..k], b);
      assert run[..k][..i] == run[..i];
    } else {
      i := k;
      if run[k].Receive? {
        LearnsIff(n, before, run[k].raw, run[k].inp);
      }
    }
  }

  // ---------------------------------------------------------------- what a turn serves

  /** No due entry comes before that of slot b. */
  predicate ServedFirst(txq: Queue.slots, now: nat, b: nat)
    requires b < Queue.SLOTS
  {
    && txq[b].Used? && txq[b].entry.due <= now
    && forall j :: 0 <= j < Queue.SLOTS && txq[j].Used? && txq[j].entry.due <= now ==>
         var mine, other := txq[b].entry, txq[j].entry;
         mine.priority < other.priority || (mine.priority == other.priority && mine.due <= other.due)
  }

  /**
   A turn in silence empties the queue. Any other serves one due entry that comes first, or none: it waits on when
   the channel is busy and the node listens first, and else leaves the queue, sent or not.
   */
  lemma TurnIs(n: Node, st: State, r: Radio) returns (b: nat)
    ensures b < Queue.SLOTS
    ensures var (next, turn) := Transmitted(n, st, r);
            if n.cfg.hotspot && n.cfg.awake != 0 && r.now >= st.awakeUntil then
              turn == Flushed && next == st.(silent := true, txq := Queue.Empty())
            else if forall j :: 0 <= j < Queue.SLOTS && st.txq[j].Used? ==> r.now < st.txq[j].entry.due then
              turn == Idle && next == st
            else
              && ServedFirst(st.txq, r.now, b)
              && var e := st.txq[b].entry;
                 if n.cfg.listenFirst && r.busy then
                   turn == Postponed && next == st.(txq := st.txq[b := Queue.Used(e.(due := r.now + r.backoff))])
                 else turn == (if r.sent then Sent(e) else Failed(e)) && next == st.(txq := st.txq[b := Queue.Free])
  {
    Queue.PickIsLeast(st.txq, r.now);
    b := if Queue.Pick(st.txq, r.now) >= 0 then Queue.Pick(st.txq, r.now) else 0;
  }
}
