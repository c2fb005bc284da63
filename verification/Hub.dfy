/**
 Frames sent down by the hub: what they may cause at once, and when a packet they brought may be offered
 back to the hub.
 */
module Hub {

  import opened Bytes
  import opened Packet
  import opened Routes
  import opened Content
  import opened Neighbours
  import opened Mesh
  import opened Runs
  import Channel
  import Stale
  import Queue
  import Seen

  // ---------------------------------------------------------------- what a hub frame does at once

  /** Only the queue changed: by one entry in one more slot when the frame was forwarded, else not at all. */
  predicate QueuedOne(st: State, next: State, result: Result) {
    var k := if result.Forwarded? then 1 else 0;
    && next == st.(txq := next.txq, serial := st.serial + k)
    && Queue.FreeSlots(next.txq) == Queue.FreeSlots(st.txq) - k
  }

  lemma HubScoped(n: Node, st: State, p: packet, advertiser: cstring, sender: cstring, inp: Inputs)
    requires ValidPathLen(p.pathLen) && inp.src.Backbone?
    ensures var (next, result) := Scoped(n, st, p, advertiser, sender, inp); QueuedOne(st, next, result)
  {
    var scope := ScopeOf(n, st, p, advertiser, sender, inp.src);
    var r := Route(p, n.id);
    if scope.Within? && r.Relay? {
      var o := Order(r.priority, if IsFlood(p) then inp.backoff else 0, scope.power, false, inp.relayAt);
      Queue.AddTakesOne(st.txq, EntryFor(st, r.packet, o));
    }
  }

  lemma HubPublicGroup(n: Node, st: State, p: packet, inp: Inputs)
    requires ValidPathLen(p.pathLen) && inp.src.Backbone?
    ensures var (next, result) := PublicGroup(n, st, p, inp); QueuedOne(st, next, result)
  {
    HubScoped(n, st, p, [], [], inp);
    var text := OpenedBy(n, p);
    if text.Text? && |text.plain| >= 5 {
      HubScoped(n, st, p, [], Channel.Sender(text.plain), inp);
    }
  }

  lemma HubAdmitted(n: Node, st: State, p: packet, advertiser: cstring, inp: Inputs)
    requires ValidPathLen(p.pathLen) && inp.src.Backbone?
    ensures var (next, result) := Admitted(n, st, p, advertiser, inp); QueuedOne(st, next, result)
  {
    HubScoped(n, st, p, advertiser, [], inp);
    HubPublicGroup(n, st, p, inp);
  }

  lemma HubAccepted(n: Node, st: State, p: packet, inp: Inputs)
    requires ValidPathLen(p.pathLen) && inp.src.Backbone?
    ensures var (next, result) := Accepted(n, st, p, inp); QueuedOne(st, next, result)
  {
    HubAdmitted(n, st, p, [], inp);
    if Signed(n.verify, p) {
      HubAdmitted(n, st, p, AdvertName(p), inp);
    }
  }

  /**
   A frame from the hub queues at most one entry, taking at most one slot. It offers nothing, answers
   nothing, wakes nothing and enters no table: beside the queue only its hash is recorded.
   */
  lemma HubFrame(n: Node, st: State, raw: seq<byte>, inp: Inputs)
    requires inp.src.Backbone?
    ensures var (next, result) := Received(n, st, raw, inp);
            && QueuedOne(st.(seen := next.seen), next, result)
            && next.seen == if Parsed(raw).Ok? then Seen.Offer(st.seen, HashOf(n, Parsed(raw).packet)) else st.seen
  {
    if Parsed(raw).Ok? {
      var p := Parsed(raw).packet;
      ParsedIsWire(raw);
      HubAccepted(n, Recorded(n, st, p), p, inp);
    }
  }

  /** The hub's frames are let in with 8 free slots, so 7 are left: 7 exactly when 8 were and one is queued. */
  lemma HubLeavesSeven(n: Node, st: State, raw: seq<byte>, inp: Inputs)
    requires inp.src.Backbone? && Queue.FreeSlots(st.txq) >= 8
    ensures var (next, result) := Received(n, st, raw, inp);
            && Queue.FreeSlots(next.txq) >= 7
            && (Queue.FreeSlots(next.txq) == 7 <==> Queue.FreeSlots(st.txq) == 8 && result.Forwarded?)
  {
    HubFrame(n, st, raw, inp);
  }

  // ---------------------------------------------------------------- offering back

  /** Every packet relayed and offered since `st` hashes to `h`. */
  predicate OffersOnly(n: Node, st: State, next: State, h: Seen.hash) {
    && st.offers <= next.offers
    && forall i :: |st.offers| <= i < |next.offers| && !next.offers[i].own ==> HashOf(n, next.offers[i].pkt) == h
  }

  /** Relaying a packet does not change its dedup hash; a trace is never relayed. */
  lemma RelayKeepsHash(n: Node, p: packet)
    requires WellFormed(p) && Shareable(n, p) && Route(p, n.id).Relay?
    ensures HashOf(n, Route(p, n.id).packet) == HashOf(n, p)
  {
    RelayKeeps(p, n.id);
    var q := Route(p, n.id).packet;
    assert HashInput(q) == HashInput(p);
  }

  lemma SameHashGood(n: Node, h: Seen.hash) returns (good: Goodness)
    ensures good == ((p: packet, own: bool) => own || HashOf(n, p) == h)
  {
    good := (p: packet, own: bool) => own || HashOf(n, p) == h;
  }

  lemma EnqueuedOffers(n: Node, st: State, from: State, h: Seen.hash, p: packet, o: Order, src: Source)
    requires OffersOnly(n, from, st, h) && (o.own || HashOf(n, p) == h)
    ensures OffersOnly(n, from, Enqueued(n, st, p, o, src), h)
  {
    var next := Enqueued(n, st, p, o, src);
    forall i | |from.offers| <= i < |next.offers| && !next.offers[i].own
      ensures HashOf(n, next.offers[i].pkt) == h
    {
      assert i < |st.offers| ==> next.offers[i] == st.offers[i];
    }
  }

  /** Receiving offers, of relayed packets, only the one received. */
  lemma ReceivedOffers(n: Node, st: State, raw: seq<byte>, inp: Inputs)
    requires InputsFrom(inp, 0) && Parsed(raw).Ok?
    ensures OffersOnly(n, st, Received(n, st, raw, inp).0, HashOf(n, Parsed(raw).packet))
  {
    var p := Parsed(raw).packet;
    var h := HashOf(n, p);
    var good := SameHashGood(n, h);
    var keeps: Property := (s: State) => OffersOnly(n, st, s, h);
    forall s: State, q: packet, o: Order, src: Source | keeps(s) && good(q, o.own)
      ensures keeps(Enqueued(n, s, q, o, src))
    {
      EnqueuedOffers(n, s, st, h, q, o, src);
    }
    if WellFormed(p) && Shareable(n, p) && Route(p, n.id).Relay? {
      RelayKeepsHash(n, p);
    }
    StepKeepsBy(n, keeps, good, 0, st, Receive(raw, inp));
  }

  /** The window of `next` is that of `w` after some more offers. */
  ghost predicate SeenSince(w: Seen.window, next: State) {
    exists hs: seq<Seen.hash> :: next.seen == Seen.After(w, hs)
  }

  lemma RecordedSince(n: Node, w: Seen.window, st: State, p: packet)
    requires SeenSince(w, st)
    ensures SeenSince(w, Recorded(n, st, p))
  {
    var hs: seq<Seen.hash> :| st.seen == Seen.After(w, hs);
    var more := hs + [HashOf(n, p)];
    assert more[..|hs|] == hs;
    assert Recorded(n, st, p).seen == Seen.After(w, more);
  }

  lemma StepSince(n: Node, w: Seen.window, st: State, ev: Event)
    requires SeenSince(w, st) && EventFrom(ev, 0)
    ensures SeenSince(w, Step(n, st, ev))
  {
    if !ev.Transmit? {
      var keeps: Property := (s: State) => SeenSince(w, s);
      forall s: State, p: packet | keeps(s)
        ensures keeps(Recorded(n, s, p))
      {
        RecordedSince(n, w, s, p);
      }
      StepKeeps(n, keeps, 0, st, ev);
    }
  }

  lemma SinceSelf(st: State)
    ensures SeenSince(st.seen, st)
  {
    assert st.seen == Seen.After(st.seen, []);
  }

  lemma {:induction false} RunSince(n: Node, run: seq<Event>, i: nat, j: nat, w: Seen.window)
    requires GoodRun(run) && i <= j <= |run| && SeenSince(w, Ran(n, run[..i]))
    ensures SeenSince(w, Ran(n, run[..j]))
    decreases j - i
  {
    if i < j {
      RunSince(n, run, i, j - 1, w);
      assert run[..j][..j - 1] == run[..j - 1];
      StepSince(n, w, Ran(n, run[..j - 1]), run[j - 1]);
    }
  }

  /** The step offers a relayed packet with this hash. */
  predicate Bridges(n: Node, st: State, ev: Event, h: Seen.hash) {
    var next := Step(n, st, ev);
    exists m :: |st.offers| <= m < |next.offers| && !next.offers[m].own && HashOf(n, next.offers[m].pkt) == h
  }

  lemma OwnOffers(n: Node, st: State, ev: Event)
    requires EventFrom(ev, 0) && !ev.Receive?
    ensures forall h :: !Bridges(n, st, ev, h)
  {
  }

  /** A packet is bridged only when its hash was not held. */
  lemma BridgesNew(n: Node, st: State, ev: Event, h: Seen.hash)
    requires EventFrom(ev, 0) && Bridges(n, st, ev, h)
    ensures ev.Receive? && ev.inp.src.Rf? && h !in st.seen
  {
    if !ev.Receive? {
      OwnOffers(n, st, ev);
    } else {
      if ev.inp.src.Backbone? {
        HubFrame(n, st, ev.raw, ev.inp);
      }
      if Parsed(ev.raw).Ok? {
        ReceivedOffers(n, st, ev.raw, ev.inp);
      }
    }
  }

  /**
   After a hub frame with hash `h` no packet with that hash is bridged until more hashes than the window
   held before `h` have been recorded, all others: 160 of them when the frame was new.
   */
  lemma NoBridgeUntil(n: Node, run: seq<Event>, i: nat, j: nat, p: packet) returns (hs: seq<Seen.hash>, k: nat)
    requires GoodRun(run) && i < j < |run|
    requires run[i].Receive? && run[i].inp.src.Backbone? && Parsed(run[i].raw) == Ok(p)
    requires Bridges(n, Ran(n, run[..j]), run[j], HashOf(n, p))
    ensures var w := Ran(n, run[..i + 1]).seen;
            && Ran(n, run[..j]).seen == Seen.After(w, hs)
            && k < Seen.SIZE && w[k] == HashOf(n, p) && |Seen.Recorded(w, hs)| > k
            && (forall m :: 0 <= m <= k ==> Seen.Recorded(w, hs)[m] != HashOf(n, p))
            && (HashOf(n, p) !in Ran(n, run[..i]).seen ==> |Seen.Recorded(w, hs)| >= 160)
  {
    var h := HashOf(n, p);
    var before := Ran(n, run[..i]);
    var w := Ran(n, run[..i + 1]).seen;
    assert run[..i + 1][..i] == run[..i];
    HubFrame(n, before, run[i].raw, run[i].inp);
    assert w == Seen.Offer(before.seen, h);
    BridgesNew(n, Ran(n, run[..j]), run[j], h);
    SinceSelf(Ran(n, run[..i + 1]));
    RunSince(n, run, i + 1, j, w);
    hs :| Ran(n, run[..j]).seen == Seen.After(w, hs);
    if h !in before.seen {
      k := Seen.SIZE - 1;
    } else {
      k :| k < Seen.SIZE && w[k] == h;
    }
    Seen.StillHeld(w, hs, k);
  }

  // ---------------------------------------------------------------- a duplicate from the hub

  /** `h` is the oldest hash held, and held once. */
  predicate IsOldest(w: Seen.window, h: Seen.hash) {
    w[0] == h && forall i :: 0 < i < Seen.SIZE ==> w[i] != h
  }

  /** What it takes for a node that is no hotspot to relay an advert. */
  predicate RelaysAdvert(n: Node, p: packet) {
    && !n.cfg.hotspot && n.cfg.forward && n.cfg.backbone && WellFormed(p) && Canonical(p)
    && Signed(n.verify, p) && !Blacklisted(n.cfg, AdvertName(p)) && !KeyBlocked(n.cfg, Advertiser(p))
    && Route(p, n.id).Relay?
  }

  lemma AdvertRelayed(n: Node, st: State, p: packet, inp: Inputs)
    requires RelaysAdvert(n, p) && HashOf(n, p) !in st.seen && Queue.HasRoom(st.txq) && inp.src.Rf?
    ensures var (next, result) := Received(n, st, Wire(p), inp);
            var r := Route(p, n.id);
            var o := Order(r.priority, if IsFlood(p) then inp.backoff else 0, n.cfg.txPower, false, inp.relayAt);
            && result.Forwarded? && next.offers == st.offers + [Offering(r.packet, false)]
            && next.txq == Queue.Add(st.txq, EntryFor(st, r.packet, o))
  {
    WireParses(p);
    var known := Recorded(n, st, p);
    var heeded := Heeded(n, known, p, inp);
    assert heeded == known.(neighbours := heeded.neighbours, repeaters := heeded.repeaters);
    ForwardsIff(n.suite, n.cfg.public, p);
  }

  lemma AdvertBridged(n: Node, st: State, p: packet, inp: Inputs)
    requires RelaysAdvert(n, p) && HashOf(n, p) !in st.seen && Queue.HasRoom(st.txq) && inp.src.Rf?
    ensures Bridges(n, st, Receive(Wire(p), inp), HashOf(n, p))
  {
    AdvertRelayed(n, st, p, inp);
    RelayKeepsHash(n, p);
    var next := Step(n, st, Receive(Wire(p), inp));
    var m := |st.offers|;
    assert !next.offers[m].own && HashOf(n, next.offers[m].pkt) == HashOf(n, p);
  }

  /**
   When a packet is bridged again. Its hash is held with k older ones, and more hashes are recorded, not
   it: heard on RF it is bridged exactly when they are more than k.
   */
  lemma BridgesIff(n: Node, st: State, p: packet, rf: Inputs, hs: seq<Seen.hash>, k: nat)
    requires RelaysAdvert(n, p) && Queue.HasRoom(st.txq) && rf.src.Rf? && InputsFrom(rf, 0)
    requires k < Seen.SIZE && st.seen[k] == HashOf(n, p) && HashOf(n, p) !in hs
    requires forall i :: k < i < Seen.SIZE ==> st.seen[i] != HashOf(n, p)
    ensures Bridges(n, st.(seen := Seen.After(st.seen, hs)), Receive(Wire(p), rf), HashOf(n, p))
            <==> |Seen.Recorded(st.seen, hs)| > k
  {
    var later := st.(seen := Seen.After(st.seen, hs));
    var ev := Receive(Wire(p), rf);
    Seen.Lifetime(st.seen, hs, k);
    if HashOf(n, p) in later.seen {
      assert !Bridges(n, later, ev, HashOf(n, p)) by {
        if Bridges(n, later, ev, HashOf(n, p)) {
          BridgesNew(n, later, ev, HashOf(n, p));
        }
      }
    } else {
      AdvertBridged(n, later, p, rf);
    }
  }

  // ---------------------------------------------------------------- a run that bridges too soon

  /** Nothing of the node's own is sent. */
  predicate SendsNothing(inp: Inputs) {
    InputsFrom(inp, 0) && inp.advert.Unbuilt? && inp.service.reply.NoReply?
  }

  /** Receiving records the hash of the frame, and no other when the node sends nothing of its own. */
  lemma RecordsOnly(n: Node, st: State, p: packet, inp: Inputs)
    requires WellFormed(p) && Canonical(p) && SendsNothing(inp)
    ensures Received(n, st, Wire(p), inp).0.seen == Seen.Offer(st.seen, HashOf(n, p))
  {
    WireParses(p);
    var w := Seen.Offer(st.seen, HashOf(n, p));
    var keeps: Property := (s: State) => s.seen == w;
    var good: Goodness := (q: packet, own: bool) => !own;
    StepKeepsBy(n, keeps, good, 0, st, Receive(Wire(p), inp));
  }

  function HashesOf(n: Node, ps: seq<packet>): (hs: seq<Seen.hash>)
    ensures |hs| == |ps|
  {
    seq(|ps|, i requires 0 <= i < |ps| => HashOf(n, ps[i]))
  }

  /** Packets with different hashes, none of them zero. */
  predicate AllDifferent(n: Node, ps: seq<packet>) {
    && (forall i :: 0 <= i < |ps| ==> WellFormed(ps[i]) && Canonical(ps[i]) && HashOf(n, ps[i]) != Seen.ZERO)
    && forall i, j :: 0 <= i < j < |ps| ==> HashOf(n, ps[i]) != HashOf(n, ps[j])
  }

  predicate HearsOne(ev: Event, p: packet) {
    WellFormed(p) && ev.Receive? && ev.raw == Wire(p) && SendsNothing(ev.inp)
  }

  /** Each packet is heard once, in order, with any turns of the transmit service in between. */
  predicate Hears(run: seq<Event>, ps: seq<packet>)
    decreases |run|
  {
    if |run| == 0 then |ps| == 0
    else
      var k := |run| - 1;
      if run[k].Transmit? then Hears(run[..k], ps)
      else |ps| > 0 && HearsOne(run[k], ps[|ps| - 1]) && Hears(run[..k], ps[..|ps| - 1])
  }

  lemma TurnKeepsSeen(n: Node, st: State, r: Radio)
    ensures Transmitted(n, st, r).0.seen == st.seen
  {
  }

  lemma {:induction false} HeardInOrder(n: Node, run: seq<Event>, ps: seq<packet>)
    requires AllDifferent(n, ps) && Hears(run, ps)
    ensures Ran(n, run).seen == Seen.After(Seen.Fresh(), HashesOf(n, ps)) && GoodRun(run)
    decreases |run|
  {
    if |run| > 0 {
      var k := |run| - 1;
      GoodHeard(run, ps);
      if run[k].Transmit? {
        HeardInOrder(n, run[..k], ps);
        TurnKeepsSeen(n, Ran(n, run[..k]), run[k].radio);
      } else {
        var last := |ps| - 1;
        HeardInOrder(n, run[..k], ps[..last]);
        HeardLast(n, Ran(n, run[..k]), run[k], ps, last);
      }
    }
  }

  lemma HeardLast(n: Node, st: State, ev: Event, ps: seq<packet>, last: nat)
    requires AllDifferent(n, ps) && |ps| == last + 1 && HearsOne(ev, ps[last])
    requires st.seen == Seen.After(Seen.Fresh(), HashesOf(n, ps[..last]))
    ensures Step(n, st, ev).seen == Seen.After(Seen.Fresh(), HashesOf(n, ps))
  {
    assert HashesOf(n, ps)[..last] == HashesOf(n, ps[..last]);
    RecordsOnly(n, st, ps[last], ev.inp);
  }

  lemma {:induction false} GoodHeard(run: seq<Event>, ps: seq<packet>)
    requires Hears(run, ps)
    ensures GoodRun(run)
    decreases |run|
  {
    if |run| > 0 {
      var k := |run| - 1;
      GoodHeard(run[..k], if run[k].Transmit? then ps else ps[..|ps| - 1]);
      GoodAppended(run, k);
    }
  }

  lemma GoodAppended(run: seq<Event>, k: nat)
    requires |run| == k + 1 && GoodRun(run[..k]) && EventFrom(run[k], 0)
    ensures GoodRun(run)
  {
    forall i | 0 <= i < |run|
      ensures EventFrom(run[i], 0)
    {
      assert i < k ==> run[i] == run[..k][i];
    }
  }

  /** After 160 packets the first is the oldest held. */
  lemma WindowFilled(n: Node, run: seq<Event>, ps: seq<packet>)
    requires AllDifferent(n, ps) && Hears(run, ps) && |ps| == Seen.SIZE
    ensures Ran(n, run).seen == HashesOf(n, ps) && GoodRun(run)
  {
    HeardInOrder(n, run, ps);
    Seen.Fills(Seen.Fresh(), HashesOf(n, ps));
    assert Seen.Fresh()[Seen.SIZE..] == [];
  }

  lemma LatestDue(s: Queue.slots, n: nat) returns (t: nat)
    requires n <= Queue.SLOTS
    ensures forall i :: 0 <= i < n && s[i].Used? ==> s[i].entry.due <= t
    decreases n
  {
    t := 0;
    if n > 0 {
      t := LatestDue(s, n - 1);
      if s[n - 1].Used? && s[n - 1].entry.due > t {
        t := s[n - 1].entry.due;
      }
    }
  }

  /** A turn when everything is due leaves a slot free. */
  lemma TurnMakesRoom(n: Node, st: State) returns (r: Radio)
    requires !n.cfg.hotspot
    ensures var next := Transmitted(n, st, r).0; Queue.HasRoom(next.txq) && next == st.(txq := next.txq)
  {
    var t := LatestDue(st.txq, Queue.SLOTS);
    r := Radio(t, false, 0, true);
    Queue.PickIsLeast(st.txq, t);
    var b := Queue.Pick(st.txq, t);
    var next := Transmitted(n, st, r).0;
    if b >= 0 {
      assert next.txq[b].Free?;
    } else {
      assert !Queue.Due(st.txq, 0, t);
      assert next.txq[0].Free?;
    }
  }

  /** A duplicate changes nothing. */
  lemma HeldIsDuplicate(n: Node, st: State, p: packet, inp: Inputs)
    requires WellFormed(p) && Canonical(p) && HashOf(n, p) in st.seen
    ensures Received(n, st, Wire(p), inp) == (st, Duplicate)
  {
    WireParses(p);
  }

  /** The hub's frame, another packet, a turn after each, and the packet again. */
  function Ending(p: packet, hub: Inputs, idle: Radio, other: packet, heard: Inputs, r: Radio, rf: Inputs): seq<Event>
    requires WellFormed(p) && WellFormed(other)
  {
    [Receive(Wire(p), hub), Transmit(idle), Receive(Wire(other), heard), Transmit(r), Receive(Wire(p), rf)]
  }

  /** The states between those events. */
  lemma EndingStates(n: Node, ran: seq<Event> -> State, first: seq<Event>, p: packet, hub: Inputs, idle: Radio,
          other: packet, heard: Inputs, r: Radio, rf: Inputs)
    requires Stale.IsRan(n, ran) && WellFormed(p) && WellFormed(other)
    ensures var run, m := first + Ending(p, hub, idle, other, heard, r, rf), |first|;
            && ran(run[..m]) == ran(first)
            && ran(run[..m + 1]) == Received(n, ran(run[..m]), Wire(p), hub).0
            && ran(run[..m + 2]) == Transmitted(n, ran(run[..m + 1]), idle).0
            && ran(run[..m + 3]) == Received(n, ran(run[..m + 2]), Wire(other), heard).0
            && ran(run[..m + 4]) == Transmitted(n, ran(run[..m + 3]), r).0
  {
    var run, m := first + Ending(p, hub, idle, other, heard, r, rf), |first|;
    assert run[..m] == first;
    Prefix(n, ran, run, m);
    Prefix(n, ran, run, m + 1);
    Prefix(n, ran, run, m + 2);
    Prefix(n, ran, run, m + 3);
  }

  lemma Prefix(n: Node, ran: seq<Event> -> State, run: seq<Event>, k: nat)
    requires Stale.IsRan(n, ran) && k < |run|
    ensures ran(run[..k + 1]) == Step(n, ran(run[..k]), run[k])
  {
    assert run[..k + 1][..k] == run[..k];
    assert ran(run[..k + 1]) == Ran(n, run[..k + 1]) && ran(run[..k]) == Ran(n, run[..k]);
  }

  /** A packet held as the oldest is bridged after one new hash, whatever the hub sent in between. */
  lemma OldestIsBridged(n: Node, st: State, p: packet, hub: Inputs, idle: Radio, other: packet,
          heard: Inputs, rf: Inputs)
    returns (r: Radio)
    requires RelaysAdvert(n, p) && rf.src.Rf? && IsOldest(st.seen, HashOf(n, p))
    requires WellFormed(other) && Canonical(other) && SendsNothing(heard) && HashOf(n, other) !in st.seen
    ensures var told := Received(n, st, Wire(p), hub).0;
            var waited := Transmitted(n, told, idle).0;
            var more := Received(n, waited, Wire(other), heard).0;
            var served := Transmitted(n, more, r).0;
            && served.seen == Seen.Offer(told.seen, HashOf(n, other))
            && Bridges(n, served, Receive(Wire(p), rf), HashOf(n, p))
  {
    assert st.seen[0] == HashOf(n, p);
    HeldIsDuplicate(n, st, p, hub);
    var waited := Transmitted(n, st, idle).0;
    TurnKeepsSeen(n, st, idle);
    var more := Received(n, waited, Wire(other), heard).0;
    RecordsOnly(n, waited, other, heard);
    r := TurnMakesRoom(n, more);
    AdvertBridged(n, Transmitted(n, more, r).0, p, rf);
  }

  lemma OldestInWindow(n: Node, ps: seq<packet>, other: packet, w: Seen.window)
    requires |ps| == Seen.SIZE && AllDifferent(n, ps + [other]) && w == HashesOf(n, ps)
    ensures AllDifferent(n, ps) && IsOldest(w, HashOf(n, ps[0])) && HashOf(n, other) !in w
    ensures WellFormed(other) && Canonical(other)
  {
    var all := ps + [other];
    assert all[|ps|] == other;
    forall i | 0 <= i < |ps|
      ensures all[i] == ps[i] && HashOf(n, ps[i]) != HashOf(n, other)
    {
      assert HashOf(n, all[i]) != HashOf(n, all[|ps|]);
    }
    forall i, j | 0 <= i < j < |ps|
      ensures HashOf(n, ps[i]) != HashOf(n, ps[j])
    {
      assert all[i] == ps[i] && all[j] == ps[j];
    }
  }

  /** The hub sends `p` down at i; at j it is bridged, though only `other` was recorded in between. */
  predicate TooSoon(n: Node, run: seq<Event>, i: nat, j: nat, p: packet, other: packet) {
    && i < j < |run| && WellFormed(p)
    && run[i].Receive? && run[i].inp.src.Backbone? && run[i].raw == Wire(p)
    && Bridges(n, Ran(n, run[..j]), run[j], HashOf(n, p))
    && Ran(n, run[..j]).seen == Seen.Offer(Ran(n, run[..i + 1]).seen, HashOf(n, other))
  }

  /**
   For every repeater that relays the advert ps[0], and any 160 packets beside it with other hashes: it hears
   160, the hub sends down the first, one more is heard, and the first, heard again on RF, is bridged. One
   hash was recorded since the hub's frame, not 160.
   */
  lemma BridgedTooSoon(n: Node, ps: seq<packet>, first: seq<Event>, hub: Inputs, idle: Radio, other: packet,
          heard: Inputs, rf: Inputs) returns (r: Radio)
    requires |ps| == Seen.SIZE && AllDifferent(n, ps + [other]) && Hears(first, ps) && RelaysAdvert(n, ps[0])
    requires SendsNothing(hub) && hub.src.Backbone? && SendsNothing(heard) && SendsNothing(rf) && rf.src.Rf?
    ensures WellFormed(other)
    ensures var run := first + Ending(ps[0], hub, idle, other, heard, r, rf);
            GoodRun(run) && TooSoon(n, run, |first|, |first| + 4, ps[0], other)
  {
    OldestInWindow(n, ps, other, HashesOf(n, ps));
    WindowFilled(n, first, ps);
    var ran := Stale.RanOf(n);
    assert ran(first) == Ran(n, first);
    r := SoonFrom(n, ran, first, ps[0], hub, idle, other, heard, rf);
  }

  lemma SoonFrom(n: Node, ran: seq<Event> -> State, first: seq<Event>, p: packet, hub: Inputs, idle: Radio,
          other: packet, heard: Inputs, rf: Inputs) returns (r: Radio)
    requires Stale.IsRan(n, ran) && GoodRun(first) && RelaysAdvert(n, p) && IsOldest(ran(first).seen, HashOf(n, p))
    requires WellFormed(other) && Canonical(other) && HashOf(n, other) !in ran(first).seen
    requires SendsNothing(hub) && hub.src.Backbone? && SendsNothing(heard) && SendsNothing(rf) && rf.src.Rf?
    ensures var run := first + Ending(p, hub, idle, other, heard, r, rf);
            GoodRun(run) && TooSoon(n, run, |first|, |first| + 4, p, other)
  {
    r := OldestIsBridged(n, ran(first), p, hub, idle, other, heard, rf);
    var run := first + Ending(p, hub, idle, other, heard, r, rf);
    EndingStates(n, ran, first, p, hub, idle, other, heard, r, rf);
    EndsTooSoon(n, ran, run, |first|, p, other);
    EndingGood(first, p, hub, idle, other, heard, r, rf);
  }

  lemma EndsTooSoon(n: Node, ran: seq<Event> -> State, run: seq<Event>, m: nat, p: packet, other: packet)
    requires Stale.IsRan(n, ran) && |run| == m + 5 && WellFormed(p)
    requires run[m].Receive? && run[m].inp.src.Backbone? && run[m].raw == Wire(p)
    requires ran(run[..m + 4]).seen == Seen.Offer(ran(run[..m + 1]).seen, HashOf(n, other))
    requires Bridges(n, ran(run[..m + 4]), run[m + 4], HashOf(n, p))
    ensures TooSoon(n, run, m, m + 4, p, other)
  {
    assert ran(run[..m + 4]) == Ran(n, run[..m + 4]) && ran(run[..m + 1]) == Ran(n, run[..m + 1]);
  }

  lemma EndingGood(first: seq<Event>, p: packet, hub: Inputs, idle: Radio, other: packet, heard: Inputs, r: Radio,
          rf: Inputs)
    requires GoodRun(first) && WellFormed(p) && WellFormed(other)
    requires SendsNothing(hub) && SendsNothing(heard) && SendsNothing(rf)
    ensures GoodRun(first + Ending(p, hub, idle, other, heard, r, rf))
  {
  }

  // ---------------------------------------------------------------- a flood that loses its path

  /** The advert as a flood with 63 one-byte hops. */
  function With63(p: packet, hops: seq<byte>): packet
    requires |hops| == 63
  {
    Packet(MakeHeader(0, ADVERT, FLOOD), 0, 0, 63, hops + [0], p.payload)
  }

  /**
   Any signed advert, as a flood that comes with 63 one-byte hops, is relayed by every repeater that takes it,
   with no hop at all.
   */
  lemma RelayedWithoutHops(n: Node, st: State, p: packet, hops: seq<byte>, inp: Inputs)
    requires !n.cfg.hotspot && n.cfg.forward && n.cfg.backbone && inp.src.Rf? && |hops| == 63
    requires WellFormed(p) && Signed(n.verify, p)
    requires !Blacklisted(n.cfg, AdvertName(p)) && !KeyBlocked(n.cfg, Advertiser(p))
    requires HashOf(n, With63(p, hops)) !in st.seen && Queue.HasRoom(st.txq)
    ensures var q := With63(p, hops);
            && WellFormed(q) && |Hops(q)| == 63 && Route(q, n.id).Relay? && Hops(Route(q, n.id).packet) == []
            && var (next, result) := Received(n, st, Wire(q), inp);
               result.Forwarded? && next.offers == st.offers + [Offering(Route(q, n.id).packet, false)]
  {
    var q := With63(p, hops);
    FieldsOf(q.header, 0, ADVERT, FLOOD);
    assert Count(q) == 63 && Size(q) == 1;
    assert q.path[63..] == [0];
    AppendedHops(q, n.id);
    AdvertRelayed(n, st, q, inp);
  }
}
