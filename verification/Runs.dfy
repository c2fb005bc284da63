/**
 Whole runs of one node: whatever it hears and whenever it is served, what it queues is public, no
 entry is lost or sent twice, and nothing but a companion puts a hotspot on the air.
 */
module Runs {

  import opened Bytes
  import opened Packet
  import opened Routes
  import opened Crypto
  import opened Content
  import opened Neighbours
  import opened Mesh
  import Channel
  import Queue

  // ---------------------------------------------------------------- runs

  /** What can happen to a node; `Originate` and `Advertise` are its own timers. */
  datatype Event =
    | Receive(raw: seq<byte>, inp: Inputs)
    | Transmit(radio: Radio)
    | Originate(own: Own, priority: nat)
    | Advertise(advert: SelfAdvert)

  function Step(n: Node, st: State, ev: Event): State {
    match ev
    case Receive(raw, inp) => Received(n, st, raw, inp).0
    case Transmit(radio) => Transmitted(n, st, radio).0
    case Originate(own, priority) => Originated(n, st, own, priority, Rf)
    case Advertise(advert) => Advertised(n, st, advert, Rf)
  }

  // What this node builds fits the wire, and its clock does not run backwards.

  predicate OwnFrom(o: Own, from: nat) {
    WellFormed(o.pkt) && o.now >= from
  }

  predicate InputsFrom(inp: Inputs, from: nat) {
    && inp.wakeAt >= from && inp.relayAt >= from
    && (inp.advert.Built? ==> OwnFrom(inp.advert.own, from))
    && (inp.service.reply.ReplyWith? ==> OwnFrom(inp.service.reply.own, from))
  }

  predicate EventFrom(ev: Event, from: nat) {
    match ev
    case Receive(raw, inp) => InputsFrom(inp, from)
    case Transmit(radio) => radio.now >= from
    case Originate(own, priority) => OwnFrom(own, from)
    case Advertise(advert) => advert.Built? ==> OwnFrom(advert.own, from)
  }

  /** The state after a run from the start. */
  function Ran(n: Node, run: seq<Event>): State
    decreases |run|
  {
    if |run| == 0 then Initial() else Step(n, Ran(n, run[..|run| - 1]), run[|run| - 1])
  }

  predicate GoodRun(run: seq<Event>) {
    forall i :: 0 <= i < |run| ==> EventFrom(run[i], 0)
  }

  // ---------------------------------------------------------------- what every step keeps

  /** An advert whose signature verifies, or a group packet shown to be public. */
  predicate Shareable(n: Node, p: packet) {
    Signed(n.verify, p) || Shown(n.suite, n.cfg.public, p)
  }

  predicate GoodPacket(n: Node, p: packet, own: bool) {
    WellFormed(p) && (own || Shareable(n, p))
  }

  type Property = State -> bool

  /** Which packets may be queued, own or relayed. */
  type Goodness = (packet, bool) -> bool

  predicate InputsGood(inp: Inputs, good: Goodness) {
    && (inp.advert.Built? ==> good(inp.advert.own.pkt, true))
    && (inp.service.reply.ReplyWith? ==> good(inp.service.reply.own.pkt, true))
  }

  /** The packets the event makes this node send are good. */
  predicate EventGood(ev: Event, good: Goodness) {
    match ev
    case Receive(raw, inp) => InputsGood(inp, good)
    case Transmit(radio) => true
    case Originate(own, priority) => good(own.pkt, true)
    case Advertise(advert) => advert.Built? ==> good(advert.own.pkt, true)
  }

  /** What this node makes of a public packet by relaying it is good. */
  predicate RelayGood(n: Node, good: Goodness, p: packet) {
    WellFormed(p) && Shareable(n, p) && Route(p, n.id).Relay? ==> good(Route(p, n.id).packet, false)
  }

  /** Kept when the hash of a good packet of its own is recorded. */
  ghost predicate RecordKeepsBy(n: Node, keeps: Property, good: Goodness) {
    forall st: State, p: packet {:trigger Recorded(n, st, p)} ::
      keeps(st) && good(p, true) ==> keeps(Recorded(n, st, p))
  }

  /** Kept when a packet `good` allows is queued at `from` or later. */
  ghost predicate EnqueueKeeps(n: Node, keeps: Property, good: Goodness, from: nat) {
    forall st: State, p: packet, o: Order, src: Source {:trigger Enqueued(n, st, p, o, src)} ::
      keeps(st) && good(p, o.own) && o.now >= from ==> keeps(Enqueued(n, st, p, o, src))
  }

  function WithTables(st: State, t: table, repeaters: seq<byte>): State {
    st.(neighbours := t, repeaters := repeaters)
  }

  /** Kept whatever is learned. */
  ghost predicate LearnKeeps(keeps: Property) {
    forall st: State, t: table, r: seq<byte> {:trigger WithTables(st, t, r)} ::
      keeps(st) ==> keeps(WithTables(st, t, r))
  }

  /** Kept when a hotspot wakes at `from` or later. */
  ghost predicate WakeKeeps(n: Node, keeps: Property, from: nat) {
    forall st: State, now: nat {:trigger Up(n, st, now)} :: keeps(st) && now >= from ==> keeps(Up(n, st, now))
  }

  ghost predicate StepsKeepBy(n: Node, keeps: Property, good: Goodness, from: nat) {
    && RecordKeepsBy(n, keeps, good) && EnqueueKeeps(n, keeps, good, from) && LearnKeeps(keeps)
    && WakeKeeps(n, keeps, from)
  }

  lemma OriginatedKeeps(n: Node, keeps: Property, good: Goodness, from: nat, st: State, own: Own, priority: nat,
          src: Source)
    requires RecordKeepsBy(n, keeps, good) && EnqueueKeeps(n, keeps, good, from)
    requires keeps(st) && OwnFrom(own, from) && good(own.pkt, true)
    ensures keeps(Originated(n, st, own, priority, src))
  {
    var known := Recorded(n, st, own.pkt);
    assert keeps(known);
  }

  lemma AdvertisedKeeps(n: Node, keeps: Property, good: Goodness, from: nat, st: State, a: SelfAdvert, src: Source)
    requires RecordKeepsBy(n, keeps, good) && EnqueueKeeps(n, keeps, good, from)
    requires keeps(st) && (a.Built? ==> OwnFrom(a.own, from) && good(a.own.pkt, true))
    ensures keeps(Advertised(n, st, a, src))
  {
    if a.Built? {
      OriginatedKeeps(n, keeps, good, from, st, a.own, ADVERT_PRIORITY, src);
    }
  }

  lemma WokenKeeps(n: Node, keeps: Property, good: Goodness, from: nat, st: State, p: packet, who: cstring, inp: Inputs)
    requires RecordKeepsBy(n, keeps, good) && EnqueueKeeps(n, keeps, good, from) && WakeKeeps(n, keeps, from)
    requires keeps(st) && InputsFrom(inp, from) && InputsGood(inp, good)
    ensures keeps(Woken(n, st, p, who, inp.src, inp.wakeAt, inp.advert))
  {
    var up := Up(n, st, inp.wakeAt);
    assert keeps(up);
    AdvertisedKeeps(n, keeps, good, from, up, inp.advert, inp.src);
  }

  lemma ScopedKeeps(n: Node, keeps: Property, good: Goodness, from: nat, st: State, p: packet, advertiser: cstring,
          sender: cstring, inp: Inputs)
    requires EnqueueKeeps(n, keeps, good, from) && RelayGood(n, good, p)
    requires keeps(st) && WellFormed(p) && Shareable(n, p) && InputsFrom(inp, from)
    ensures keeps(Scoped(n, st, p, advertiser, sender, inp).0)
  {
  }

  lemma PublicGroupKeeps(n: Node, keeps: Property, good: Goodness, from: nat, st: State, p: packet, inp: Inputs)
    requires RecordKeepsBy(n, keeps, good) && EnqueueKeeps(n, keeps, good, from) && WakeKeeps(n, keeps, from)
    requires keeps(st) && WellFormed(p) && Shareable(n, p) && InputsFrom(inp, from)
    requires InputsGood(inp, good) && RelayGood(n, good, p)
    ensures keeps(PublicGroup(n, st, p, inp).0)
  {
    var text := OpenedBy(n, p);
    if text.Opaque? || |text.plain| < 5 {
      ScopedKeeps(n, keeps, good, from, st, p, [], [], inp);
    } else {
      var sender := Channel.Sender(text.plain);
      var up := Woken(n, st, p, sender, inp.src, inp.wakeAt, inp.advert);
      WokenKeeps(n, keeps, good, from, st, p, sender, inp);
      var served := Served(n, up, inp.service.reply, inp.src);
      if inp.service.reply.ReplyWith? {
        OriginatedKeeps(n, keeps, good, from, up, inp.service.reply.own, REPLY_PRIORITY, inp.src);
      }
      ScopedKeeps(n, keeps, good, from, up, p, [], sender, inp);
      ScopedKeeps(n, keeps, good, from, served, p, [], sender, inp);
    }
  }

  lemma AdmittedKeeps(n: Node, keeps: Property, good: Goodness, from: nat, st: State, p: packet, advertiser: cstring,
          inp: Inputs)
    requires RecordKeepsBy(n, keeps, good) && EnqueueKeeps(n, keeps, good, from) && WakeKeeps(n, keeps, from)
    requires keeps(st) && WellFormed(p) && InputsFrom(inp, from) && InputsGood(inp, good) && RelayGood(n, good, p)
    requires PayloadType(p) == ADVERT ==> Signed(n.verify, p)
    ensures keeps(Admitted(n, st, p, advertiser, inp).0)
  {
    var d := Decide(n.suite, n.cfg.public, p);
    ForwardsIff(n.suite, n.cfg.public, p);
    if PayloadType(p) != TRACE {
      if d.OkGrpPublic? {
        PublicGroupKeeps(n, keeps, good, from, st, p, inp);
      } else if d.OkPublic? || d.OkRegion? {
        ScopedKeeps(n, keeps, good, from, st, p, advertiser, [], inp);
      }
    }
  }

  lemma HeededKeeps(n: Node, keeps: Property, good: Goodness, from: nat, st: State, p: packet, inp: Inputs)
    requires StepsKeepBy(n, keeps, good, from)
    requires keeps(st) && InputsFrom(inp, from) && InputsGood(inp, good) && |p.payload| >= DATA_OFFSET
    ensures keeps(Heeded(n, st, p, inp))
  {
    var name := AdvertName(p);
    var learned := Learned(n, st.repeaters, Advertiser(p), name);
    var known := WithTables(st, Updated(st.neighbours, p, inp.wallClock), learned);
    WokenKeeps(n, keeps, good, from, known, p, name, inp);
  }

  /** The state once the hash of a new frame is recorded. */
  function Begun(n: Node, st: State, raw: seq<byte>): State {
    match Parsed(raw)
    case Err(_) => st
    case Ok(p) => if HashOf(n, p) in st.seen then st else Recorded(n, st, p)
  }

  /** Receiving keeps every property that recording, queuing good packets, learning and waking keep. */
  lemma ReceivedKeeps(n: Node, keeps: Property, good: Goodness, from: nat, st: State, raw: seq<byte>, inp: Inputs)
    requires StepsKeepBy(n, keeps, good, from)
    requires keeps(Begun(n, st, raw)) && InputsFrom(inp, from) && InputsGood(inp, good)
    requires var r := Parsed(raw); r.Ok? ==> RelayGood(n, good, r.packet)
    ensures keeps(Received(n, st, raw, inp).0)
  {
    if Parsed(raw).Ok? {
      var p := Parsed(raw).packet;
      ParsedIsWire(raw);
      var known := Recorded(n, st, p);
      if HashOf(n, p) in st.seen {
        return;
      }
      if PayloadType(p) != ADVERT {
        AdmittedKeeps(n, keeps, good, from, known, p, [], inp);
      } else if Signed(n.verify, p) {
        HeededKeeps(n, keeps, good, from, known, p, inp);
        AdmittedKeeps(n, keeps, good, from, Heeded(n, known, p, inp), p, AdvertName(p), inp);
      }
    }
  }

  lemma StepKeepsBy(n: Node, keeps: Property, good: Goodness, from: nat, st: State, ev: Event)
    requires StepsKeepBy(n, keeps, good, from)
    requires EventFrom(ev, from) && EventGood(ev, good) && !ev.Transmit?
    requires keeps(if ev.Receive? then Begun(n, st, ev.raw) else st)
    requires ev.Receive? ==> var r := Parsed(ev.raw); r.Ok? ==> RelayGood(n, good, r.packet)
    ensures keeps(Step(n, st, ev))
  {
    match ev
    case Receive(raw, inp) => ReceivedKeeps(n, keeps, good, from, st, raw, inp);
    case Originate(own, priority) => OriginatedKeeps(n, keeps, good, from, st, own, priority, Rf);
    case Advertise(advert) => AdvertisedKeeps(n, keeps, good, from, st, advert, Rf);
  }

  /** Own packets that fit the wire, and public ones. */
  function Good(n: Node): Goodness {
    (p: packet, own: bool) => GoodPacket(n, p, own)
  }

  /** Rewriting the path keeps a packet public. */
  lemma RelayStaysShareable(n: Node, p: packet)
    ensures RelayGood(n, Good(n), p)
  {
    if WellFormed(p) && Shareable(n, p) && Route(p, n.id).Relay? {
      RelayKeeps(p, n.id);
      DecideIgnoresPath(n.suite, n.cfg.public, p, Route(p, n.id).packet);
    }
  }

  /** Kept when a hash is recorded. */
  ghost predicate RecordKeeps(n: Node, keeps: Property) {
    forall st: State, p: packet {:trigger Recorded(n, st, p)} :: keeps(st) ==> keeps(Recorded(n, st, p))
  }

  ghost predicate StepsKeep(n: Node, keeps: Property, from: nat) {
    RecordKeeps(n, keeps) && EnqueueKeeps(n, keeps, Good(n), from) && LearnKeeps(keeps) && WakeKeeps(n, keeps, from)
  }

  /** Every step but a transmission keeps what recording, queuing good packets, learning and waking keep. */
  lemma StepKeeps(n: Node, keeps: Property, from: nat, st: State, ev: Event)
    requires StepsKeep(n, keeps, from)
    requires keeps(st) && EventFrom(ev, from) && !ev.Transmit?
    ensures keeps(Step(n, st, ev))
  {
    if ev.Receive? && Parsed(ev.raw).Ok? {
      RelayStaysShareable(n, Parsed(ev.raw).packet);
      assert keeps(Recorded(n, st, Parsed(ev.raw).packet));
    }
    StepKeepsBy(n, keeps, Good(n), from, st, ev);
  }

  // ---------------------------------------------------------------- only public traffic is relayed

  predicate GoodEntries(n: Node, txq: Queue.slots) {
    forall i :: 0 <= i < Queue.SLOTS && txq[i].Used? ==> GoodPacket(n, txq[i].entry.pkt, txq[i].entry.own)
  }

  predicate GoodOffers(n: Node, offers: seq<Offering>) {
    forall i :: 0 <= i < |offers| ==> GoodPacket(n, offers[i].pkt, offers[i].own)
  }

  /** Everything queued and everything offered fits the wire, and is the node's own or public. */
  predicate GoodState(n: Node, st: State) {
    GoodEntries(n, st.txq) && GoodOffers(n, st.offers)
  }

  lemma EnqueuedGood(n: Node, st: State, p: packet, o: Order, src: Source)
    requires GoodState(n, st) && GoodPacket(n, p, o.own)
    ensures GoodState(n, Enqueued(n, st, p, o, src))
  {
    var next := Enqueued(n, st, p, o, src);
    forall i | 0 <= i < Queue.SLOTS && next.txq[i].Used?
      ensures GoodPacket(n, next.txq[i].entry.pkt, next.txq[i].entry.own)
    {
      assert next.txq[i] == st.txq[i] || next.txq[i] == Queue.Used(EntryFor(st, p, o));
    }
  }

  lemma TransmittedGood(n: Node, st: State, r: Radio)
    requires GoodState(n, st)
    ensures GoodState(n, Transmitted(n, st, r).0)
  {
  }

  /** In every reachable state each relayed entry is a signed advert or a group packet shown public. */
  lemma {:induction false} RelaysOnlyPublic(n: Node, run: seq<Event>)
    requires GoodRun(run)
    ensures GoodState(n, Ran(n, run))
    decreases |run|
  {
    if |run| > 0 {
      var before, ev := Ran(n, run[..|run| - 1]), run[|run| - 1];
      RelaysOnlyPublic(n, run[..|run| - 1]);
      if ev.Transmit? {
        TransmittedGood(n, before, ev.radio);
      } else {
        var keeps: Property := st => GoodState(n, st);
        forall st: State, p: packet, o: Order, src: Source | keeps(st) && GoodPacket(n, p, o.own)
          ensures keeps(Enqueued(n, st, p, o, src))
        {
          EnqueuedGood(n, st, p, o, src);
        }
        StepKeeps(n, keeps, 0, before, ev);
      }
    }
  }

  // ---------------------------------------------------------------- no entry is lost or sent twice

  /** The numbers from a up to b, each once. */
  function Numbers(a: nat, b: nat): (m: multiset<nat>)
    requires a <= b
    ensures forall i :: m[i] == if a <= i < b then 1 else 0
    decreases b - a
  {
    if a == b then multiset{} else Numbers(a, b - 1) + multiset{b - 1}
  }

  function TurnOf(n: Node, st: State, ev: Event): Turn {
    if ev.Transmit? then Transmitted(n, st, ev.radio).1 else Idle
  }

  /** How the entries of a run that left the queue left it, by number. */
  datatype Ledger = Ledger(sent: multiset<nat>, failed: multiset<nat>, flushed: multiset<nat>)

  function Entered(l: Ledger, st: State, o: Turn): Ledger {
    match o
    case Sent(e) => l.(sent := l.sent + multiset{e.serial})
    case Failed(e) => l.(failed := l.failed + multiset{e.serial})
    case Flushed => l.(flushed := l.flushed + Queue.Queued(st.txq))
    case _ => l
  }

  function LedgerOf(n: Node, run: seq<Event>): Ledger
    decreases |run|
  {
    if |run| == 0 then Ledger(multiset{}, multiset{}, multiset{})
    else
      var before := Ran(n, run[..|run| - 1]);
      Entered(LedgerOf(n, run[..|run| - 1]), before, TurnOf(n, before, run[|run| - 1]))
  }

  function Total(l: Ledger): multiset<nat> {
    l.sent + l.failed + l.flushed
  }

  predicate Balanced(st: State, gone: multiset<nat>) {
    Queue.Queued(st.txq) + gone == Numbers(0, st.serial)
  }

  lemma EnqueuedBalances(n: Node, st: State, p: packet, o: Order, src: Source, gone: multiset<nat>)
    requires Balanced(st, gone)
    ensures Balanced(Enqueued(n, st, p, o, src), gone)
  {
    Queue.AddQueued(st.txq, EntryFor(st, p, o));
  }

  /** What leaves the queue enters the ledger. */
  lemma Moved(l: Ledger, next: Ledger, queued: multiset<nat>, left: multiset<nat>, out: multiset<nat>)
    requires queued == left + out
    requires || next == l.(sent := l.sent + out)
             || next == l.(failed := l.failed + out)
             || next == l.(flushed := l.flushed + out)
    ensures left + Total(next) == queued + Total(l)
  {
  }

  /** The entry served moves from the queue to the ledger. */
  lemma ServedMoves(st: State, i: nat, l: Ledger, sent: bool)
    requires i < Queue.SLOTS && st.txq[i].Used?
    ensures var e := st.txq[i].entry;
            Queue.Queued(st.txq[i := Queue.Free]) + Total(Entered(l, st, if sent then Sent(e) else Failed(e)))
            == Queue.Queued(st.txq) + Total(l)
  {
    var e := st.txq[i].entry;
    Queue.RemoveQueued(st.txq, i);
    Moved(l, Entered(l, st, if sent then Sent(e) else Failed(e)), Queue.Queued(st.txq),
          Queue.Queued(st.txq[i := Queue.Free]), multiset{e.serial});
  }

  lemma ServedDueBalances(n: Node, st: State, r: Radio, l: Ledger)
    ensures var (next, turn) := ServedDue(n, st, r);
            && next.serial == st.serial
            && Queue.Queued(next.txq) + Total(Entered(l, st, turn)) == Queue.Queued(st.txq) + Total(l)
  {
    var i := Queue.Pick(st.txq, r.now);
    if i >= 0 {
      if n.cfg.listenFirst && r.busy {
        Queue.PostponeQueued(st.txq, i, r.now + r.backoff);
      } else {
        ServedMoves(st, i, l, r.sent);
      }
    }
  }

  lemma TransmittedBalances(n: Node, st: State, r: Radio, l: Ledger)
    requires Balanced(st, Total(l))
    ensures Balanced(Transmitted(n, st, r).0, Total(Entered(l, st, Transmitted(n, st, r).1)))
  {
    if RfSilent(n, st, r.now) {
      Queue.EmptyQueued(Queue.Empty());
      Moved(l, Entered(l, st, Flushed), Queue.Queued(st.txq), multiset{}, Queue.Queued(st.txq));
    } else {
      ServedDueBalances(n, st, r, l);
    }
  }

  /** Every entry ever queued is in exactly one place: sent, failed, flushed by silence, or queued. */
  lemma {:induction false} QueueConserves(n: Node, run: seq<Event>)
    requires GoodRun(run)
    ensures Queue.Queued(Ran(n, run).txq) + Total(LedgerOf(n, run)) == Numbers(0, Ran(n, run).serial)
    decreases |run|
  {
    if |run| == 0 {
      Queue.EmptyQueued(Queue.Empty());
    } else {
      var before, ev := Ran(n, run[..|run| - 1]), run[|run| - 1];
      var l := LedgerOf(n, run[..|run| - 1]);
      QueueConserves(n, run[..|run| - 1]);
      if ev.Transmit? {
        TransmittedBalances(n, before, ev.radio, l);
      } else {
        var keeps: Property := st => Balanced(st, Total(l));
        forall st: State, p: packet, o: Order, src: Source | keeps(st)
          ensures keeps(Enqueued(n, st, p, o, src))
        {
          EnqueuedBalances(n, st, p, o, src, Total(l));
        }
        StepKeeps(n, keeps, 0, before, ev);
      }
    }
  }
}
