/**
 The echo of what a node sends itself: its neighbours relay it, and it comes back as a duplicate.
 */
module Echo {

  import opened Bytes
  import opened Packet
  import opened Content
  import opened Mesh
  import opened Runs
  import opened Hotspot
  import opened Relay
  import Hub
  import Queue
  import Seen

  /** Event i sends a packet of the node's own: a service does, or a timer sends the advert. */
  predicate SendsOwn(n: Node, st: State, ev: Event, own: Own) {
    || (ev.Originate? && ev.own == own)
    || (ev.Advertise? && ev.advert.Built? && ev.advert.own == own && !RfSilent(n, st, ev.advert.checked))
  }

  /** As another node relays it: with any path. */
  predicate SameButPath(p: packet, q: packet) {
    PayloadType(p) != TRACE && PayloadType(q) == PayloadType(p) && q.payload == p.payload
  }

  /**
   A packet of the node's own is recorded, and unless the node is silent or its queue full it waits for its delay
   in a slot that was free: with the priority of its kind, at high power on a hotspot.
   */
  lemma OwnIsQueued(n: Node, st: State, own: Own, priority: nat, src: Source) returns (i: nat)
    ensures i < Queue.SLOTS
    ensures var next := Originated(n, st, own, priority, src);
            && HashOf(n, own.pkt) in next.seen
            && if RfSilent(n, st, own.now) || Queue.FreeSlots(st.txq) == 0 then next.txq == st.txq
               else
                 && st.txq[i].Free? && next.txq == st.txq[i := next.txq[i]] && next.txq[i].Used?
                 && var e, power := next.txq[i].entry, if n.cfg.hotspot then n.cfg.powerHigh else n.cfg.txPower;
                    e == Queue.Entry(own.pkt, own.now + own.delay, priority, power, true, st.serial)
  {
    var known := Recorded(n, st, own.pkt);
    var e := EntryFor(known, own.pkt, Order(priority, own.delay, OwnPower(n), true, own.now));
    Queue.AddTakesOne(known.txq, e);
    i := 0;
    if Queue.HasRoom(known.txq) {
      i :| 0 <= i < Queue.SLOTS && known.txq[i].Free? && Queue.Add(known.txq, e) == known.txq[i := Queue.Used(e)];
    }
  }

  lemma OwnIsHeld(n: Node, st: State, ev: Event, own: Own)
    requires SendsOwn(n, st, ev, own)
    ensures var h := HashOf(n, own.pkt);
            Step(n, st, ev).seen == if h in st.seen then st.seen else st.seen[1..] + [h]
  {
  }

  lemma EchoHash(n: Node, p: packet, q: packet)
    requires SameButPath(p, q)
    ensures HashOf(n, p) == HashOf(n, q)
  {
    assert HashInput(p) == HashInput(q);
  }

  lemma HeldAt(w: Seen.window, before: Seen.window, h: Seen.hash) returns (k: nat)
    requires w == if h in before then before else before[1..] + [h]
    ensures k < Seen.SIZE && w[k] == h && (h !in before ==> k == Seen.SIZE - 1)
  {
    if h in before {
      k :| k < Seen.SIZE && before[k] == h;
    } else {
      k := Seen.SIZE - 1;
    }
  }

  lemma HeardAgain(n: Node, st: State, raw: seq<byte>, inp: Inputs)
    requires Parsed(raw).Ok? && HashOf(n, Parsed(raw).packet) in st.seen
    ensures Received(n, st, raw, inp) == (st, Duplicate)
  {
  }

  /**
   Event i sends a packet of the node's own, and at j it is heard again, relayed by others: as a duplicate,
   which changes nothing, until more hashes than the window held before it have been recorded, all others:
   160 of them when the packet was new.
   */
  lemma EchoIsDuplicate(n: Node, run: seq<Event>, i: nat, j: nat, own: Own, q: packet)
    returns (hs: seq<Seen.hash>, k: nat)
    requires GoodRun(run) && i < j < |run| && SendsOwn(n, Ran(n, run[..i]), run[i], own)
    requires run[j].Receive? && Parsed(run[j].raw) == Ok(q) && SameButPath(own.pkt, q)
    ensures var w := Ran(n, run[..i + 1]).seen;
            && Ran(n, run[..j]).seen == Seen.After(w, hs) && k < Seen.SIZE && w[k] == HashOf(n, q)
            && (HashOf(n, own.pkt) !in Ran(n, run[..i]).seen ==> k + 1 == 160)
            && (forall m :: 0 <= m <= k && m < |Seen.Recorded(w, hs)| ==> Seen.Recorded(w, hs)[m] != HashOf(n, q))
            && (|Seen.Recorded(w, hs)| <= k ==>
                  Received(n, Ran(n, run[..j]), run[j].raw, run[j].inp) == (Ran(n, run[..j]), Duplicate))
  {
    var before, w := Ran(n, run[..i]), Ran(n, run[..i + 1]).seen;
    assert run[..i + 1][..i] == run[..i];
    OwnIsHeld(n, before, run[i], own);
    EchoHash(n, own.pkt, q);
    k := HeldAt(w, before.seen, HashOf(n, q));
    Hub.SinceSelf(Ran(n, run[..i + 1]));
    Hub.RunSince(n, run, i + 1, j, w);
    hs :| Ran(n, run[..j]).seen == Seen.After(w, hs);
    Seen.StillHeld(w, hs, k);
    if |Seen.Recorded(w, hs)| <= k {
      HeardAgain(n, Ran(n, run[..j]), run[j].raw, run[j].inp);
    }
  }

  /** The reply a local service gives is held as well, so that its echo is a duplicate. */
  lemma ReplyIsHeld(n: Node, st: State, raw: seq<byte>, p: packet, inp: Inputs)
    requires Parsed(raw) == Ok(p) && WellFormed(p) && HashOf(n, p) !in st.seen && n.cfg.forward
    requires Readable(n, p) && !Blacklisted(n.cfg, SenderOf(n, p))
    requires inp.src.Rf? && inp.service.reply.ReplyWith?
    ensures HashOf(n, inp.service.reply.own.pkt) in Received(n, st, raw, inp).0.seen
  {
    ReadableIsPublic(n, p);
    var known, sender := Recorded(n, st, p), SenderOf(n, p);
    var up := Woken(n, known, p, sender, inp.src, inp.wakeAt, inp.advert);
    var served := Served(n, up, inp.service.reply, inp.src);
    ScopedSeen(n, served, p, sender, inp);
    assert Received(n, st, raw, inp) == PublicGroup(n, known, p, inp);
  }

  lemma ScopedSeen(n: Node, st: State, p: packet, sender: cstring, inp: Inputs)
    requires ValidPathLen(p.pathLen)
    ensures Scoped(n, st, p, [], sender, inp).0.seen == st.seen
  {
  }
}
