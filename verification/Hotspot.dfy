/**
 Hotspot silence over whole runs: who puts a hotspot on the air, for how long, and what a silence leaves in the
 queue.
 */
module Hotspot {

  import opened Bytes
  import opened Packet
  import opened Routes
  import opened Content
  import opened Names
  import opened Neighbours
  import opened Mesh
  import opened Runs
  import Channel
  import Queue

  // ---------------------------------------------------------------- who wakes a hotspot

  /** The packet names its sender: a signed companion advert, or a public message it decrypts. */
  predicate Says(n: Node, p: packet, who: cstring) {
    || (Signed(n.verify, p) && AdvertKind(p, 0) == CHAT && who == AdvertName(p))
    || (OpenedBy(n, p).Text? && |OpenedBy(n, p).plain| >= 5 && who == Channel.Sender(OpenedBy(n, p).plain))
  }

  /** The table when the sender of `p` is judged: an advert has just been entered. */
  function TableAt(n: Node, st: State, p: packet, inp: Inputs): table {
    if Signed(n.verify, p) then Updated(st.neighbours, p, inp.wallClock) else st.neighbours
  }

  /**
   A frame heard on RF, directly, from one of the operator's devices that is no repeater, is not known
   to be anything but a companion, and is not blacklisted.
   */
  predicate CompanionHeard(n: Node, st: State, raw: seq<byte>, inp: Inputs, who: cstring) {
    && inp.src.Rf? && Parsed(raw).Ok?
    && var p := Parsed(raw).packet;
       && Count(p) == 0 && Says(n, p, who) && !Blacklisted(n.cfg, who)
       && IsCompanion(n, st.(neighbours := TableAt(n, st, p, inp)), who)
  }

  /**
   Who counts as a companion: a name the operator lists as a home device, not a call that starts with ON0, not
   an affinity repeater, not this node, and in the table only as a companion.
   */
  predicate OwnDevice(cfg: Config, t: table, who: cstring) {
    && |who| > 0 && (exists i :: 0 <= i < |cfg.home| && Matches(cfg.home[i], who))
    && !(|who| >= 3 && who[0] in [79, 111] && who[1] in [78, 110] && who[2] == 48)
    && (forall i :: 0 <= i < |cfg.affinity| ==> !Matches(cfg.affinity[i], who))
    && !SameName(who, cfg.name)
    && forall i :: 0 <= i < TABLE && t[i].Heard? && SameName(t[i].name, who) ==> t[i].kind == CHAT
  }

  lemma CompanionIff(n: Node, st: State, who: cstring)
    ensures IsCompanion(n, st, who) <==> OwnDevice(n.cfg, st.neighbours, who)
  {
    if |who| >= 3 {
      var f := Folded(who[..3]);
      assert f[0] == Lower(who[0]) && f[1] == Lower(who[1]) && f[2] == Lower(who[2]);
      assert f == [111, 110, 48] <==> f[0] == 111 && f[1] == 110 && f[2] == 48;
    }
  }

  function Until(n: Node, inp: Inputs): nat {
    inp.wakeAt + n.cfg.awake * 1000
  }

  lemma CompanionByTable(n: Node, a: State, b: State, who: cstring)
    requires a.neighbours == b.neighbours
    ensures IsCompanion(n, a, who) == IsCompanion(n, b, who)
  {
  }

  lemma ScopedAwake(n: Node, st: State, p: packet, advertiser: cstring, sender: cstring, inp: Inputs)
    requires ValidPathLen(p.pathLen)
    ensures Scoped(n, st, p, advertiser, sender, inp).0.awakeUntil == st.awakeUntil
  {
  }

  lemma KeptUpAwake(n: Node, st: State, inp: Inputs)
    ensures KeptUp(n, st, inp.src, inp.wakeAt, inp.advert).awakeUntil == Until(n, inp)
  {
  }

  lemma WokenAwake(n: Node, st: State, p: packet, who: cstring, inp: Inputs)
    ensures Woken(n, st, p, who, inp.src, inp.wakeAt, inp.advert).awakeUntil
         == if Wakes(n, st, p, who, inp.src) then Until(n, inp) else st.awakeUntil
  {
    KeptUpAwake(n, st, inp);
  }

  lemma ServedAwake(n: Node, st: State, reply: Reply, src: Source)
    ensures Served(n, st, reply, src).awakeUntil == st.awakeUntil
  {
  }

  /** A public message changes how long the node stays up only when its sender wakes it. */
  lemma PublicGroupAwake(n: Node, st: State, p: packet, inp: Inputs)
    requires ValidPathLen(p.pathLen)
    ensures var next := PublicGroup(n, st, p, inp).0;
            next.awakeUntil == st.awakeUntil
            || (next.awakeUntil == Until(n, inp)
                && exists who: cstring :: Says(n, p, who) && !Blacklisted(n.cfg, who) && Wakes(n, st, p, who, inp.src))
  {
    var text := OpenedBy(n, p);
    if text.Opaque? || |text.plain| < 5 {
      ScopedAwake(n, st, p, [], [], inp);
    } else {
      var sender := Channel.Sender(text.plain);
      var up := Woken(n, st, p, sender, inp.src, inp.wakeAt, inp.advert);
      WokenAwake(n, st, p, sender, inp);
      var served := Served(n, up, inp.service.reply, inp.src);
      ServedAwake(n, up, inp.service.reply, inp.src);
      ScopedAwake(n, up, p, [], sender, inp);
      ScopedAwake(n, served, p, [], sender, inp);
      assert Says(n, p, sender);
    }
  }

  lemma AdmittedAwake(n: Node, st: State, p: packet, advertiser: cstring, inp: Inputs)
    requires ValidPathLen(p.pathLen)
    ensures var next := Admitted(n, st, p, advertiser, inp).0;
            next.awakeUntil == st.awakeUntil
            || (PayloadType(p) != ADVERT && next.awakeUntil == Until(n, inp)
                && exists who: cstring :: Says(n, p, who) && !Blacklisted(n.cfg, who) && Wakes(n, st, p, who, inp.src))
  {
    ForwardsIff(n.suite, n.cfg.public, p);
    PublicGroupAwake(n, st, p, inp);
    ScopedAwake(n, st, p, advertiser, [], inp);
  }

  lemma HeededAwake(n: Node, st: State, p: packet, inp: Inputs)
    requires Signed(n.verify, p) && !Blacklisted(n.cfg, AdvertName(p))
    ensures var next := Heeded(n, st, p, inp);
            var known := st.(neighbours := Updated(st.neighbours, p, inp.wallClock));
            next.awakeUntil == st.awakeUntil
            || (next.awakeUntil == Until(n, inp) && Says(n, p, AdvertName(p))
                && Wakes(n, known, p, AdvertName(p), inp.src))
  {
    var name := AdvertName(p);
    var learned := Learned(n, st.repeaters, Advertiser(p), name);
    var known := WithTables(st, Updated(st.neighbours, p, inp.wallClock), learned);
    WokenAwake(n, known, p, name, inp);
    CompanionByTable(n, known, st.(neighbours := Updated(st.neighbours, p, inp.wallClock)), name);
  }

  /**
   A hotspot hears one of those, as a frame that is new: an advert whose key is not blocked, or a message when
   the node forwards.
   */
  ghost predicate Waking(n: Node, st: State, raw: seq<byte>, inp: Inputs) {
    && n.cfg.hotspot && n.cfg.awake != 0 && (exists who: cstring :: CompanionHeard(n, st, raw, inp, who))
    && var p := Parsed(raw).packet;
       && HashOf(n, p) !in st.seen
       && if PayloadType(p) == ADVERT then |p.payload| >= DATA_OFFSET && !KeyBlocked(n.cfg, Advertiser(p))
          else n.cfg.forward
  }

  /** A text the node can read is on one of its channels. */
  lemma {:induction false} MatchVerifies(n: Node, p: packet, i: nat)
    requires |p.payload| >= MIN_GROUP && i <= |n.cfg.public.channels|
    ensures var m := MatchFrom(n, p, i); m >= 0 ==> Verifies(n.suite, n.cfg.public.channels[m], p)
    decreases |n.cfg.public.channels| - i
  {
    if i < |n.cfg.public.channels| {
      MatchVerifies(n, p, i + 1);
    }
  }

  lemma ReadableIsPublic(n: Node, p: packet)
    requires OpenedBy(n, p).Text?
    ensures PayloadType(p) == GRP_TXT && Decide(n.suite, n.cfg.public, p).OkGrpPublic?
  {
    MatchVerifies(n, p, 0);
    ForwardsIff(n.suite, n.cfg.public, p);
  }

  /** A companion's message moves the end of the time on the air. */
  lemma MessageWakes(n: Node, st: State, p: packet, inp: Inputs, who: cstring)
    requires ValidPathLen(p.pathLen) && n.cfg.forward && OpenedBy(n, p).Text? && |OpenedBy(n, p).plain| >= 5
    requires who == Channel.Sender(OpenedBy(n, p).plain) && !Blacklisted(n.cfg, who) && Wakes(n, st, p, who, inp.src)
    ensures Admitted(n, st, p, [], inp).0.awakeUntil == Until(n, inp)
  {
    ReadableIsPublic(n, p);
    var up := Woken(n, st, p, who, inp.src, inp.wakeAt, inp.advert);
    WokenAwake(n, st, p, who, inp);
    var served := Served(n, up, inp.service.reply, inp.src);
    ServedAwake(n, up, inp.service.reply, inp.src);
    ScopedAwake(n, served, p, [], who, inp);
    assert Admitted(n, st, p, [], inp) == PublicGroup(n, st, p, inp);
  }

  /** So does a companion's advert. */
  lemma AdvertWakes(n: Node, st: State, p: packet, inp: Inputs)
    requires WellFormed(p) && Signed(n.verify, p) && AdvertKind(p, 0) == CHAT && inp.src.Rf?
    requires Wakes(n, st.(neighbours := Updated(st.neighbours, p, inp.wallClock)), p, AdvertName(p), inp.src)
    ensures Admitted(n, Heeded(n, st, p, inp), p, AdvertName(p), inp).0.awakeUntil == Until(n, inp)
  {
    var name := AdvertName(p);
    var learned := Learned(n, st.repeaters, Advertiser(p), name);
    var known := WithTables(st, Updated(st.neighbours, p, inp.wallClock), learned);
    WokenAwake(n, known, p, name, inp);
    CompanionByTable(n, known, st.(neighbours := Updated(st.neighbours, p, inp.wallClock)), name);
    ForwardsIff(n.suite, n.cfg.public, p);
    ScopedAwake(n, Heeded(n, st, p, inp), p, name, [], inp);
  }

  lemma WakingWakes(n: Node, st: State, raw: seq<byte>, inp: Inputs)
    requires Waking(n, st, raw, inp)
    ensures Received(n, st, raw, inp).0.awakeUntil == Until(n, inp)
  {
    var p := Parsed(raw).packet;
    ParsedIsWire(raw);
    var who: cstring :| CompanionHeard(n, st, raw, inp, who);
    var known := Recorded(n, st, p);
    CompanionByTable(n, known.(neighbours := TableAt(n, st, p, inp)), st.(neighbours := TableAt(n, st, p, inp)), who);
    if PayloadType(p) == ADVERT {
      AdvertWakes(n, known, p, inp);
    } else {
      MessageWakes(n, known, p, inp, who);
    }
  }

  /** Nothing else does: when no companion is heard the end stays where it is. */
  lemma OthersDoNot(n: Node, st: State, raw: seq<byte>, inp: Inputs)
    requires !Waking(n, st, raw, inp)
    ensures Received(n, st, raw, inp).0.awakeUntil == st.awakeUntil
  {
    if Parsed(raw).Ok? {
      var p := Parsed(raw).packet;
      ParsedIsWire(raw);
      var known := Recorded(n, st, p);
      if HashOf(n, p) !in st.seen {
        if PayloadType(p) != ADVERT {
          SilentMessage(n, st, known, p, raw, inp);
        } else if Signed(n.verify, p) && !Blacklisted(n.cfg, AdvertName(p)) && !KeyBlocked(n.cfg, Advertiser(p)) {
          SilentAdvert(n, st, known, p, raw, inp);
        }
      }
    }
  }

  lemma SilentMessage(n: Node, st: State, known: State, p: packet, raw: seq<byte>, inp: Inputs)
    requires Parsed(raw) == Ok(p) && WellFormed(p) && known == Recorded(n, st, p) && PayloadType(p) != ADVERT
    requires HashOf(n, p) !in st.seen && !Waking(n, st, raw, inp)
    ensures Admitted(n, known, p, [], inp).0.awakeUntil == st.awakeUntil
  {
    AdmittedAwake(n, known, p, [], inp);
    forall who: cstring | Says(n, p, who) && !Blacklisted(n.cfg, who) && Wakes(n, known, p, who, inp.src)
      ensures CompanionHeard(n, st, raw, inp, who)
    {
      CompanionByTable(n, known, st.(neighbours := TableAt(n, st, p, inp)), who);
    }
  }

  lemma SilentAdvert(n: Node, st: State, known: State, p: packet, raw: seq<byte>, inp: Inputs)
    requires Parsed(raw) == Ok(p) && WellFormed(p) && known == Recorded(n, st, p) && Signed(n.verify, p)
    requires HashOf(n, p) !in st.seen && !Waking(n, st, raw, inp)
    requires !Blacklisted(n.cfg, AdvertName(p)) && !KeyBlocked(n.cfg, Advertiser(p))
    ensures Admitted(n, Heeded(n, known, p, inp), p, AdvertName(p), inp).0.awakeUntil == st.awakeUntil
  {
    var name := AdvertName(p);
    HeededAwake(n, known, p, inp);
    AdmittedAwake(n, Heeded(n, known, p, inp), p, name, inp);
    var table := known.(neighbours := Updated(st.neighbours, p, inp.wallClock));
    CompanionByTable(n, table, st.(neighbours := TableAt(n, st, p, inp)), name);
    if Wakes(n, table, p, name, inp.src) && Says(n, p, name) {
      assert CompanionHeard(n, st, raw, inp, name);
    }
  }

  /** Exactly those frames move the end of the time on the air, to `awake` seconds after they were read. */
  lemma WakesIff(n: Node, st: State, raw: seq<byte>, inp: Inputs)
    ensures Received(n, st, raw, inp).0.awakeUntil == if Waking(n, st, raw, inp) then Until(n, inp) else st.awakeUntil
  {
    if Waking(n, st, raw, inp) {
      WakingWakes(n, st, raw, inp);
    } else {
      OthersDoNot(n, st, raw, inp);
    }
  }

  /** Only a companion's frame moves it. */
  lemma OnlyCompanionsWake(n: Node, st: State, raw: seq<byte>, inp: Inputs)
    ensures var next := Received(n, st, raw, inp).0;
            next.awakeUntil == st.awakeUntil
            || (n.cfg.hotspot && n.cfg.awake != 0 && next.awakeUntil == Until(n, inp)
                && exists who: cstring :: CompanionHeard(n, st, raw, inp, who))
  {
    WakesIff(n, st, raw, inp);
  }

  ghost predicate FromCompanion(n: Node, st: State, ev: Event) {
    ev.Receive? && exists who: cstring :: CompanionHeard(n, st, ev.raw, ev.inp, who)
  }

  /** Event i of the run is a frame from a companion. */
  ghost predicate WokenAt(n: Node, run: seq<Event>, i: nat)
    requires i < |run|
  {
    FromCompanion(n, Ran(n, run[..i]), run[i])
  }

  lemma StepAwake(n: Node, st: State, ev: Event)
    ensures var until := Step(n, st, ev).awakeUntil;
            until == st.awakeUntil || (FromCompanion(n, st, ev) && ev.Receive? && until == Until(n, ev.inp))
  {
    if ev.Receive? {
      OnlyCompanionsWake(n, st, ev.raw, ev.inp);
    }
  }

  lemma WokenInPrefix(n: Node, run: seq<Event>, k: nat, i: nat)
    requires i < k <= |run|
    ensures WokenAt(n, run[..k], i) == WokenAt(n, run, i)
  {
    assert run[..k][..i] == run[..i];
  }

  /** The end of the time on the air was set by a companion's frame, if it was set at all. */
  lemma {:induction false} AwakeHasCause(n: Node, run: seq<Event>) returns (cause: int)
    ensures Ran(n, run).awakeUntil == 0 ==> cause == -1
    ensures Ran(n, run).awakeUntil != 0 ==> 0 <= cause < |run| && WokenAt(n, run, cause) && run[cause].Receive?
    ensures Ran(n, run).awakeUntil != 0 ==> Ran(n, run).awakeUntil == Until(n, run[cause].inp)
    decreases |run|
  {
    cause := -1;
    if |run| > 0 {
      var k := |run| - 1;
      cause := AwakeHasCause(n, run[..k]);
      StepAwake(n, Ran(n, run[..k]), run[k]);
      if Ran(n, run).awakeUntil != Ran(n, run[..k]).awakeUntil {
        cause := if Ran(n, run).awakeUntil == 0 then -1 else k;
      } else if cause >= 0 {
        WokenInPrefix(n, run, k, cause);
      }
    }
  }

  /** Whether the radio was asked to transmit. */
  predicate OnAir(t: Turn) { t.Sent? || t.Failed? }

  /**
   A hotspot transmits only within `awake` seconds of a companion's frame: at loop time t there is an
   earlier one, heard at w, with t < w + 1000 * awake.
   */
  lemma TransmitsOnlyAttended(n: Node, run: seq<Event>, k: nat) returns (i: nat)
    requires n.cfg.hotspot && n.cfg.awake != 0
    requires k < |run| && run[k].Transmit? && OnAir(Transmitted(n, Ran(n, run[..k]), run[k].radio).1)
    ensures i < k && WokenAt(n, run, i) && run[i].Receive?
    ensures run[k].radio.now < run[i].inp.wakeAt + n.cfg.awake * 1000
  {
    var cause := AwakeHasCause(n, run[..k]);
    assert Ran(n, run[..k]).awakeUntil > run[k].radio.now;
    i := cause;
    WokenInPrefix(n, run, k, i);
  }

  // ---------------------------------------------------------------- what an earlier period leaves behind

  /**
   A run of the main loop: clock[i] is the loop time when event i happens, read once at the top of an
   iteration. What an event reads of the clock itself is no earlier, and may be later than the loop time the
   transmit service is then given.
   */
  predicate Clocked(run: seq<Event>, clock: seq<nat>) {
    && |clock| == |run| + 1
    && forall i :: 0 <= i < |run| ==>
         && clock[i] <= clock[i + 1] && EventFrom(run[i], clock[i])
         && (run[i].Transmit? ==> run[i].radio.now <= clock[i + 1])
  }

  predicate IsEmpty(txq: Queue.slots) {
    forall i :: 0 <= i < Queue.SLOTS ==> txq[i].Free?
  }

  /** Once the service has noticed the silence, nothing is queued until a companion is heard. */
  predicate Quiet(n: Node, st: State, now: nat) {
    st.silent ==> RfSilent(n, st, now) && IsEmpty(st.txq)
  }

  lemma QuietSteps(n: Node, from: nat)
    ensures StepsKeep(n, st => Quiet(n, st, from), from)
  {
    var keeps: Property := st => Quiet(n, st, from);
    forall st: State, p: packet, o: Order, src: Source | keeps(st) && o.now >= from
      ensures keeps(Enqueued(n, st, p, o, src))
    {
    }
    forall st: State, now: nat | keeps(st) && now >= from
      ensures keeps(Up(n, st, now))
    {
    }
  }

  lemma {:induction false} SilenceIsQuiet(n: Node, run: seq<Event>, clock: seq<nat>)
    requires Clocked(run, clock)
    ensures Quiet(n, Ran(n, run), clock[|run|])
    decreases |run|
  {
    if |run| > 0 {
      var k := |run| - 1;
      var before := Ran(n, run[..k]);
      SilenceIsQuiet(n, run[..k], clock[..k + 1]);
      if !run[k].Transmit? {
        QuietSteps(n, clock[k]);
        StepKeeps(n, st => Quiet(n, st, clock[k]), clock[k], before, run[k]);
      }
    }
  }

  /** Every queued entry has a number of at least s. */
  predicate NumberedFrom(st: State, s: nat) {
    st.serial >= s && forall i :: 0 <= i < Queue.SLOTS && st.txq[i].Used? ==> st.txq[i].entry.serial >= s
  }

  lemma EnqueuedNumbers(n: Node, st: State, p: packet, o: Order, src: Source, s: nat)
    requires NumberedFrom(st, s)
    ensures NumberedFrom(Enqueued(n, st, p, o, src), s)
  {
  }

  lemma TransmittedNumbers(n: Node, st: State, r: Radio, s: nat)
    requires NumberedFrom(st, s)
    ensures NumberedFrom(Transmitted(n, st, r).0, s)
  {
  }

  lemma StepNumbers(n: Node, st: State, ev: Event, s: nat)
    requires EventFrom(ev, 0) && NumberedFrom(st, s)
    ensures NumberedFrom(Step(n, st, ev), s)
  {
    if ev.Transmit? {
      TransmittedNumbers(n, st, ev.radio, s);
    } else {
      var keeps: Property := st => NumberedFrom(st, s);
      forall st: State, p: packet, o: Order, src: Source | keeps(st)
        ensures keeps(Enqueued(n, st, p, o, src))
      {
        EnqueuedNumbers(n, st, p, o, src, s);
      }
      StepKeeps(n, keeps, 0, st, ev);
    }
  }

  lemma {:induction false} NumbersStay(n: Node, run: seq<Event>, k: nat, j: nat, s: nat)
    requires GoodRun(run) && k <= j <= |run| && NumberedFrom(Ran(n, run[..k]), s)
    ensures NumberedFrom(Ran(n, run[..j]), s)
    decreases j
  {
    if k < j {
      NumbersStay(n, run, k, j - 1, s);
      assert run[..j][..j - 1] == run[..j - 1];
      StepNumbers(n, Ran(n, run[..j - 1]), run[j - 1], s);
    }
  }

  lemma ClockedIsGood(run: seq<Event>, clock: seq<nat>)
    requires Clocked(run, clock)
    ensures GoodRun(run)
  {
    forall i | 0 <= i < |run|
      ensures EventFrom(run[i], 0)
    {
      assert EventFrom(run[i], clock[i]);
    }
  }

  /** Once the service has noticed a silence, nothing queued before it ever goes out. */
  lemma NothingStale(n: Node, run: seq<Event>, clock: seq<nat>, k: nat, j: nat)
    requires Clocked(run, clock) && k <= j < |run| && Ran(n, run[..k]).silent
    requires run[j].Transmit? && OnAir(Transmitted(n, Ran(n, run[..j]), run[j].radio).1)
    ensures Transmitted(n, Ran(n, run[..j]), run[j].radio).1.entry.serial >= Ran(n, run[..k]).serial
  {
    ClockedIsGood(run, clock);
    SilenceIsQuiet(n, run[..k], clock[..k + 1]);
    NumbersStay(n, run, k, j, Ran(n, run[..k]).serial);
  }
}
