/**
 One node: what it does with a frame, what it queues and what it transmits.

 What each operation makes of a node's state is a function here; the program in `MeshProgram` changes that
 state in place, and its methods are proved to do what the functions say.
 */
module Mesh {

  import opened Bytes
  import opened Packet
  import opened Routes
  import opened Crypto
  import opened Content
  import opened Names
  import opened Neighbours
  import Channel
  import Queue
  import Seen

  // ---------------------------------------------------------------- configuration

  datatype Config = Config(
    hotspot: bool,
    /** seconds on the air after a companion is heard; 0 is always */
    awake: nat,
    forward: bool,
    listenFirst: bool,
    name: cstring,
    home: seq<cstring>,
    affinity: seq<cstring>,
    blacklist: seq<cstring>,
    /** name and key blocks from the hub, in force when `policy` is set */
    policy: bool,
    policyNames: seq<cstring>,
    policyKeys: seq<key>,
    public: Public,
    txPower: int,
    powerHigh: int,
    powerLow: int,
    /** whether a backbone is attached */
    backbone: bool)

  /** What does not change while a node runs. */
  datatype Node = Node(cfg: Config, id: key, suite: Suite, verify: Verifier)

  predicate IsHome(cfg: Config, name: cstring) { Listed(cfg.home, name) }

  predicate IsAffinity(cfg: Config, name: cstring) { Listed(cfg.affinity, name) }

  predicate Blacklisted(cfg: Config, name: cstring) {
    && |name| > 0
    && ((exists i :: 0 <= i < |cfg.blacklist| && SameName(cfg.blacklist[i], name))
        || (cfg.policy && exists i :: 0 <= i < |cfg.policyNames| && SameName(cfg.policyNames[i], name)))
  }

  predicate KeyBlocked(cfg: Config, pub: key) {
    cfg.policy && pub in cfg.policyKeys
  }

  // ---------------------------------------------------------------- state

  /** What was handed to the backbone to offer to the hub. */
  datatype Offering = Offering(pkt: packet, own: bool)

  datatype State = State(
    seen: Seen.window,
    txq: Queue.slots,
    neighbours: table,
    /** first key bytes of the affinity repeaters heard */
    repeaters: seq<byte>,
    awakeUntil: nat,
    silent: bool,
    /** entries queued so far, and what was offered */
    serial: nat,
    offers: seq<Offering>)

  function Initial(): State {
    State(Seen.Fresh(), Queue.Empty(), NoNeighbours(), [], 0, false, 0, [])
  }

  datatype Source = Rf | Backbone

  datatype Result = Forwarded | Duplicate | Refused | Local | Malformed

  function HashOf(n: Node, p: packet): Seen.hash {
    n.suite.digest(HashInput(p))[..8]
  }

  /** With the program's primitives this is the dedup hash of the packet. */
  lemma HashOfIs(n: Node, p: packet)
    requires n.suite == Real()
    ensures HashOf(n, p) == DedupHash(p)
  {
  }

  function Recorded(n: Node, st: State, p: packet): State {
    st.(seen := Seen.Offer(st.seen, HashOf(n, p)))
  }

  // ---------------------------------------------------------------- silence and queuing

  /** A hotspot transmits nothing until a companion is heard, nor `awake` seconds after the last one. */
  predicate RfSilent(n: Node, st: State, now: nat) {
    n.cfg.hotspot && n.cfg.awake != 0 && now >= st.awakeUntil
  }

  function OwnPower(n: Node): int {
    if n.cfg.hotspot then n.cfg.powerHigh else n.cfg.txPower
  }

  /** How a packet is queued, and when: `now` is the clock as the queue reads it. */
  datatype Order = Order(priority: nat, delay: nat, power: int, own: bool, now: nat)

  predicate CanQueue(n: Node, st: State, now: nat) {
    !RfSilent(n, st, now) && Queue.HasRoom(st.txq)
  }

  function EntryFor(st: State, p: packet, o: Order): Queue.Entry {
    Queue.Entry(p, o.now + o.delay, o.priority, o.power, o.own, st.serial)
  }

  /** Refused in silence and when the queue is full; everything else is offered, but hub frames. */
  function Enqueued(n: Node, st: State, p: packet, o: Order, src: Source): State {
    if !CanQueue(n, st, o.now) then st
    else
      st.(txq := Queue.Add(st.txq, EntryFor(st, p, o)), serial := st.serial + 1,
          offers := if n.cfg.backbone && src.Rf? then st.offers + [Offering(p, o.own)] else st.offers)
  }

  /** A packet of this node's: recorded so that its echo is a duplicate, then queued. */
  datatype Own = Own(pkt: packet, delay: nat, now: nat)

  const ADVERT_PRIORITY: nat := 0
  const REPLY_PRIORITY: nat := 1

  function Originated(n: Node, st: State, own: Own, priority: nat, src: Source): State {
    Enqueued(n, Recorded(n, st, own.pkt), own.pkt, Order(priority, own.delay, OwnPower(n), true, own.now), src)
  }

  // ---------------------------------------------------------------- waking a hotspot

  /** One of the operator's own devices, and not a repeater, room or sensor. */
  predicate IsCompanion(n: Node, st: State, who: cstring) {
    && |who| > 0 && IsHome(n.cfg, who)
    && !(|who| >= 3 && Folded(who[..3]) == [111, 110, 48])
    && !IsAffinity(n.cfg, who) && !SameName(who, n.cfg.name)
    && !HeardOtherwise(st.neighbours, who)
  }

  /** Whether a frame from `who` keeps a hotspot on the air: heard on RF, directly, from a companion. */
  predicate Wakes(n: Node, st: State, p: packet, who: cstring, src: Source) {
    n.cfg.hotspot && n.cfg.awake != 0 && src.Rf? && Count(p) == 0 && IsCompanion(n, st, who)
  }

  /** The self-advert a waking hotspot sends: unbuilt without a secret key. */
  datatype SelfAdvert = Unbuilt | Built(own: Own, checked: nat)

  function Advertised(n: Node, st: State, a: SelfAdvert, src: Source): State {
    if a.Unbuilt? || RfSilent(n, st, a.checked) then st else Originated(n, st, a.own, ADVERT_PRIORITY, src)
  }

  /** On the air for `awake` seconds from now. */
  function Up(n: Node, st: State, now: nat): State {
    st.(awakeUntil := now + n.cfg.awake * 1000, silent := if RfSilent(n, st, now) then false else st.silent)
  }

  /** Out of silence the node identifies itself first. */
  function KeptUp(n: Node, st: State, src: Source, now: nat, a: SelfAdvert): State {
    if RfSilent(n, st, now) then Advertised(n, Up(n, st, now), a, src) else Up(n, st, now)
  }

  function Woken(n: Node, st: State, p: packet, who: cstring, src: Source, now: nat, a: SelfAdvert): State {
    if Wakes(n, st, p, who, src) then KeptUp(n, st, src, now, a) else st
  }

  // ---------------------------------------------------------------- hotspot scope

  /** A hop of the path is a known affinity repeater, by the first byte of its hash. */
  predicate PathHasAffinity(st: State, p: packet)
    requires ValidPathLen(p.pathLen)
  {
    exists h :: 0 <= h < Count(p) && h * Size(p) < 64 && p.path[h * Size(p)] in st.repeaters
  }

  datatype Scope = Within(power: int) | Outside

  function HotspotScope(n: Node, st: State, p: packet, advertiser: cstring, sender: cstring, src: Source): Scope
    requires ValidPathLen(p.pathLen)
  {
    var kind := PayloadType(p);
    var low, high := n.cfg.powerLow, n.cfg.powerHigh;
    if src.Backbone? then
      if kind != ADVERT || IsAffinity(n.cfg, advertiser) then Within(low) else Outside
    else if kind == ADVERT then
      if IsAffinity(n.cfg, advertiser) then Within(low)
      else if IsHome(n.cfg, advertiser) then Within(high)
      else Outside
    else if PathHasAffinity(st, p) then Within(low)
    else if kind == GRP_TXT && IsAffinity(n.cfg, sender) then Within(low)
    else if kind == GRP_TXT && IsHome(n.cfg, sender) then Within(high)
    else Outside
  }

  /** The frame comes from the mesh: the hub, or an affinity repeater, brought it or speaks. */
  predicate FromMesh(n: Node, st: State, p: packet, advertiser: cstring, sender: cstring, src: Source)
    requires ValidPathLen(p.pathLen)
  {
    if PayloadType(p) == ADVERT then IsAffinity(n.cfg, advertiser)
    else src.Backbone? || PathHasAffinity(st, p) || (PayloadType(p) == GRP_TXT && IsAffinity(n.cfg, sender))
  }

  /** One of the operator's devices speaks. */
  predicate FromDevice(n: Node, p: packet, advertiser: cstring, sender: cstring) {
    || (PayloadType(p) == ADVERT && IsHome(n.cfg, advertiser))
    || (PayloadType(p) == GRP_TXT && IsHome(n.cfg, sender))
  }

  /**
   A hotspot passes on what comes from the mesh, at low power, and what its operator's devices say on RF,
   at high power; nothing else, and nothing of the hub's goes up.
   */
  lemma ScopeIff(n: Node, st: State, p: packet, advertiser: cstring, sender: cstring, src: Source)
    requires ValidPathLen(p.pathLen)
    ensures var mesh := FromMesh(n, st, p, advertiser, sender, src);
            var up := !mesh && src.Rf? && FromDevice(n, p, advertiser, sender);
            && (mesh ==> HotspotScope(n, st, p, advertiser, sender, src) == Within(n.cfg.powerLow))
            && (up ==> HotspotScope(n, st, p, advertiser, sender, src) == Within(n.cfg.powerHigh))
            && (!mesh && !up <==> HotspotScope(n, st, p, advertiser, sender, src) == Outside)
  {
  }

  function ScopeOf(n: Node, st: State, p: packet, advertiser: cstring, sender: cstring, src: Source): Scope
    requires ValidPathLen(p.pathLen)
  {
    if n.cfg.hotspot then HotspotScope(n, st, p, advertiser, sender, src) else Within(n.cfg.txPower)
  }

  // ---------------------------------------------------------------- receiving

  /** What a local service makes of a public message: a reply, and whether it answers the message. */
  datatype Service = Service(reply: Reply, answered: bool)

  datatype Reply = NoReply | ReplyWith(own: Own)

  /** What is not the node's: where a frame came from, the clocks, the random delays, the services. */
  datatype Inputs = Inputs(
    src: Source,
    wallClock: nat,
    wakeAt: nat,
    advert: SelfAdvert,
    service: Service,
    relayAt: nat,
    backoff: nat)

  function Relayed(n: Node, st: State, p: packet, power: int, inp: Inputs): (State, Result)
    requires ValidPathLen(p.pathLen)
  {
    match Route(p, n.id)
    case Relay(q, priority) =>
      var o := Order(priority, if IsFlood(p) then inp.backoff else 0, power, false, inp.relayAt);
      (Enqueued(n, st, q, o, inp.src), if CanQueue(n, st, inp.relayAt) then Forwarded else Local)
    case Full => (st, Local)
    case NotOurs => (st, Local)
  }

  function Scoped(n: Node, st: State, p: packet, advertiser: cstring, sender: cstring, inp: Inputs): (State, Result)
    requires ValidPathLen(p.pathLen)
  {
    match ScopeOf(n, st, p, advertiser, sender, inp.src)
    case Within(power) => Relayed(n, st, p, power, inp)
    case Outside => (st, Refused)
  }

  function Served(n: Node, st: State, reply: Reply, src: Source): State {
    if reply.NoReply? then st else Originated(n, st, reply.own, REPLY_PRIORITY, src)
  }

  /** The first channel on which the packet verifies. */
  function MatchFrom(n: Node, p: packet, i: nat): (r: int)
    requires |p.payload| >= MIN_GROUP && i <= |n.cfg.public.channels|
    ensures -1 <= r < |n.cfg.public.channels|
    decreases |n.cfg.public.channels| - i
  {
    if i == |n.cfg.public.channels| then -1
    else if Verifies(n.suite, n.cfg.public.channels[i], p) then i
    else MatchFrom(n, p, i + 1)
  }

  datatype Opened = Text(plain: seq<byte>) | Opaque

  /** The plaintext of a public text message, when it decrypts to at least its fixed part. */
  function OpenedBy(n: Node, p: packet): Opened {
    if PayloadType(p) != GRP_TXT || |p.payload| < MIN_GROUP then Opaque
    else
      var i := MatchFrom(n, p, 0);
      if i < 0 then Opaque
      else
        match Channel.Decrypted(n.suite, n.cfg.public.channels[i], p, MAX_PAYLOAD)
        case Plaintext(b) => if |b| < 5 then Opaque else Text(b)
        case Undecodable => Opaque
  }

  function PublicGroup(n: Node, st: State, p: packet, inp: Inputs): (State, Result)
    requires ValidPathLen(p.pathLen)
  {
    match OpenedBy(n, p)
    case Opaque => Scoped(n, st, p, [], [], inp)
    case Text(plain) =>
      if |plain| < 5 then Scoped(n, st, p, [], [], inp)
      else
        var sender := Channel.Sender(plain);
        if Blacklisted(n.cfg, sender) then (st, Refused)
        else
          var up := Woken(n, st, p, sender, inp.src, inp.wakeAt, inp.advert);
          if inp.src.Backbone? then Scoped(n, up, p, [], sender, inp)
          else
            var served := Served(n, up, inp.service.reply, inp.src);
            if inp.service.answered then (served, Local) else Scoped(n, served, p, [], sender, inp)
  }

  function Admitted(n: Node, st: State, p: packet, advertiser: cstring, inp: Inputs): (State, Result)
    requires ValidPathLen(p.pathLen)
  {
    if PayloadType(p) == TRACE || !n.cfg.forward then (st, Local)
    else
      match Decide(n.suite, n.cfg.public, p)
      case OkGrpPublic => PublicGroup(n, st, p, inp)
      case OkPublic => Scoped(n, st, p, advertiser, [], inp)
      case OkRegion => Scoped(n, st, p, advertiser, [], inp)
      case _ => (st, Refused)
  }

  function Learned(n: Node, repeaters: seq<byte>, pub: key, name: cstring): seq<byte> {
    if !n.cfg.hotspot || !IsAffinity(n.cfg, name) || pub[0] in repeaters || |repeaters| >= 16 then repeaters
    else repeaters + [pub[0]]
  }

  /** An advert heard on RF: the tables, and the hotspot's companion. */
  function Heeded(n: Node, st: State, p: packet, inp: Inputs): State
    requires |p.payload| >= DATA_OFFSET
  {
    if inp.src.Backbone? then st
    else
      var name := AdvertName(p);
      var known := st.(neighbours := Updated(st.neighbours, p, inp.wallClock),
                       repeaters := Learned(n, st.repeaters, Advertiser(p), name));
      if AdvertKind(p, 0) == CHAT then Woken(n, known, p, name, inp.src, inp.wakeAt, inp.advert) else known
  }

  function Accepted(n: Node, st: State, p: packet, inp: Inputs): (State, Result)
    requires ValidPathLen(p.pathLen)
  {
    if PayloadType(p) != ADVERT then Admitted(n, st, p, [], inp)
    else if !Signed(n.verify, p) then (st, Refused)
    else if Blacklisted(n.cfg, AdvertName(p)) || KeyBlocked(n.cfg, Advertiser(p)) then (st, Refused)
    else Admitted(n, Heeded(n, st, p, inp), p, AdvertName(p), inp)
  }

  function Received(n: Node, st: State, raw: seq<byte>, inp: Inputs): (State, Result) {
    match Parsed(raw)
    case Err(_) => (st, Malformed)
    case Ok(p) =>
      ParsedIsWire(raw);
      if HashOf(n, p) in st.seen then (st, Duplicate)
      else Accepted(n, Recorded(n, st, p), p, inp)
  }

  // ---------------------------------------------------------------- transmitting

  /** The clock of the main loop, and what the radio says. */
  datatype Radio = Radio(now: nat, busy: bool, backoff: nat, sent: bool)

  datatype Turn = Idle | Postponed | Sent(entry: Queue.Entry) | Failed(entry: Queue.Entry) | Flushed

  function ServedDue(n: Node, st: State, r: Radio): (State, Turn) {
    var i := Queue.Pick(st.txq, r.now);
    if i < 0 then (st, Idle)
    else
      var e := st.txq[i].entry;
      if n.cfg.listenFirst && r.busy then
        (st.(txq := st.txq[i := Queue.Used(e.(due := r.now + r.backoff))]), Postponed)
      else (st.(txq := st.txq[i := Queue.Free]), if r.sent then Sent(e) else Failed(e))
  }

  /** One turn of the transmit service. */
  function Transmitted(n: Node, st: State, r: Radio): (State, Turn) {
    if RfSilent(n, st, r.now) then (st.(silent := true, txq := Queue.Empty()), Flushed) else ServedDue(n, st, r)
  }
}
