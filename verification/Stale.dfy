/**
 What a hotspot queued in one period on the air and sends in a later one: exactly when that can happen, and a
 run in which it does.
 */
module Stale {

  import opened Bytes
  import opened Packet
  import opened Routes
  import opened Content
  import opened Neighbours
  import opened Mesh
  import opened Runs
  import opened Hotspot
  import Queue
  import Seen

  // ---------------------------------------------------------------- what a frame leaves queued

  predicate KeepsSlots(txq: Queue.slots, next: Queue.slots) {
    forall i :: 0 <= i < Queue.SLOTS && txq[i].Used? ==> next[i] == txq[i]
  }

  lemma ReceivingKeepsSlots(n: Node, st: State, raw: seq<byte>, inp: Inputs)
    requires InputsFrom(inp, 0)
    ensures KeepsSlots(st.txq, Received(n, st, raw, inp).0.txq)
  {
    var keeps: Property := (s: State) => KeepsSlots(st.txq, s.txq);
    forall s: State, p: packet, o: Order, src: Source | keeps(s)
      ensures keeps(Enqueued(n, s, p, o, src))
    {
    }
    StepKeeps(n, keeps, 0, st, Receive(raw, inp));
  }

  // ---------------------------------------------------------------- when an old entry goes out

  /** The turn, given a time before `until`, sends an entry numbered below s. */
  predicate OldTurn(n: Node, st: State, r: Radio, until: nat, s: nat) {
    r.now < until && var turn := Transmitted(n, st, r).1; OnAir(turn) && turn.entry.serial < s
  }

  /** Turn j, within the time on the air as event k left it, sends an entry queued before k. */
  predicate SendsOld(n: Node, run: seq<Event>, k: nat, j: nat)
    requires k < j < |run|
  {
    && run[j].Transmit?
    && OldTurn(n, Ran(n, run[..j]), run[j].radio, Ran(n, run[..k + 1]).awakeUntil, Ran(n, run[..k]).serial)
  }

  predicate GoesOut(n: Node, run: seq<Event>, k: nat) {
    exists j :: k < j < |run| && SendsOld(n, run, k, j)
  }

  /** Event k, a frame received in silence, puts the node on the air. */
  predicate WakesFromSilence(n: Node, run: seq<Event>, k: nat) {
    && k < |run| && run[k].Receive?
    && RfSilent(n, Ran(n, run[..k]), run[k].inp.wakeAt) && !RfSilent(n, Ran(n, run[..k + 1]), run[k].inp.wakeAt)
  }

  /** Some entry is due before `until`. */
  predicate DueBefore(txq: Queue.slots, until: nat) {
    exists i :: 0 <= i < Queue.SLOTS && txq[i].Used? && txq[i].entry.due < until
  }

  predicate NumberedBelow(st: State) {
    forall i :: 0 <= i < Queue.SLOTS && st.txq[i].Used? ==> st.txq[i].entry.serial < st.serial
  }

  lemma {:induction false} NumbersBelow(n: Node, run: seq<Event>)
    requires GoodRun(run)
    ensures NumberedBelow(Ran(n, run))
    decreases |run|
  {
    if |run| > 0 {
      var k := |run| - 1;
      var before := Ran(n, run[..k]);
      NumbersBelow(n, run[..k]);
      if !run[k].Transmit? {
        var keeps: Property := (st: State) => NumberedBelow(st);
        forall st: State, p: packet, o: Order, src: Source | keeps(st)
          ensures keeps(Enqueued(n, st, p, o, src))
        {
        }
        StepKeeps(n, keeps, 0, before, run[k]);
      }
    }
  }

  /** No entry numbered below s is due before `until`. */
  predicate OldLate(st: State, s: nat, until: nat) {
    && st.serial >= s
    && forall i :: 0 <= i < Queue.SLOTS && st.txq[i].Used? && st.txq[i].entry.serial < s ==>
         st.txq[i].entry.due >= until
  }

  lemma TurnKeepsLate(n: Node, st: State, r: Radio, s: nat, until: nat)
    requires OldLate(st, s, until) && r.now < until
    ensures var (next, turn) := Transmitted(n, st, r);
            OldLate(next, s, until) && (OnAir(turn) ==> turn.entry.serial >= s)
  {
    Queue.PickIsLeast(st.txq, r.now);
  }

  lemma StepKeepsLate(n: Node, st: State, ev: Event, s: nat, until: nat)
    requires EventFrom(ev, 0) && OldLate(st, s, until) && (ev.Transmit? ==> ev.radio.now < until)
    ensures OldLate(Step(n, st, ev), s, until)
  {
    if ev.Transmit? {
      TurnKeepsLate(n, st, ev.radio, s, until);
    } else {
      var keeps: Property := (x: State) => OldLate(x, s, until);
      forall x: State, p: packet, o: Order, src: Source | keeps(x)
        ensures keeps(Enqueued(n, x, p, o, src))
      {
      }
      StepKeeps(n, keeps, 0, st, ev);
    }
  }

  lemma {:induction false} TimesGrow(run: seq<Event>, clock: seq<nat>, i: nat, j: nat)
    requires Clocked(run, clock) && i <= j < |clock|
    ensures clock[i] <= clock[j]
    decreases j
  {
    if i < j {
      TimesGrow(run, clock, i, j - 1);
    }
  }

  lemma {:induction false} LateStays(n: Node, run: seq<Event>, clock: seq<nat>, k: nat, m: nat, j: nat,
          s: nat, until: nat)
    requires Clocked(run, clock) && k <= m <= j < |run| && run[j].Transmit? && run[j].radio.now < until
    requires OldLate(Ran(n, run[..k]), s, until)
    ensures OldLate(Ran(n, run[..m]), s, until)
    decreases m
  {
    if k < m {
      LateStays(n, run, clock, k, m - 1, j, s, until);
      assert run[..m][..m - 1] == run[..m - 1];
      TimesGrow(run, clock, m, j);
      assert EventFrom(run[m - 1], clock[m - 1]) && EventFrom(run[j], clock[j]);
      StepKeepsLate(n, Ran(n, run[..m - 1]), run[m - 1], s, until);
    }
  }

  /** Whatever happens after the wake, nothing old goes out in that time when nothing old is due in it. */
  lemma LateStaysIn(n: Node, run: seq<Event>, clock: seq<nat>, k: nat)
    requires Clocked(run, clock) && k < |run|
    requires !DueBefore(Ran(n, run[..k]).txq, Ran(n, run[..k + 1]).awakeUntil)
    ensures !GoesOut(n, run, k)
  {
    var st := Ran(n, run[..k]);
    var until := Ran(n, run[..k + 1]).awakeUntil;
    assert OldLate(st, st.serial, until);
    forall j | k < j < |run| && run[j].Transmit? && run[j].radio.now < until
      ensures !SendsOld(n, run, k, j)
    {
      LateStays(n, run, clock, k, j, j, st.serial, until);
      TurnKeepsLate(n, Ran(n, run[..j]), run[j].radio, st.serial, until);
    }
  }

  /** The same turn of the service m times over. */
  function Turns(r: Radio, m: nat): (t: seq<Event>)
    ensures |t| == m
  {
    seq(m, _ => Transmit(r))
  }

  function AfterTurns(n: Node, st: State, r: Radio, m: nat): State {
    if m == 0 then st else Transmitted(n, AfterTurns(n, st, r, m - 1), r).0
  }

  lemma {:induction false} RanTurns(n: Node, run: seq<Event>, r: Radio, m: nat)
    ensures Ran(n, run + Turns(r, m)) == AfterTurns(n, Ran(n, run), r, m)
    decreases m
  {
    if m == 0 {
      assert run + Turns(r, m) == run;
    } else {
      var all := run + Turns(r, m);
      RanTurns(n, run, r, m - 1);
      assert all[..|all| - 1] == run + Turns(r, m - 1) && all[|all| - 1] == Transmit(r);
    }
  }

  lemma {:induction false} FirstTurn(n: Node, st: State, r: Radio, m: nat)
    ensures AfterTurns(n, st, r, m + 1) == AfterTurns(n, Transmitted(n, st, r).0, r, m)
    decreases m
  {
    if m > 0 {
      FirstTurn(n, st, r, m - 1);
    }
  }

  /** A turn that may send. */
  predicate MaySend(n: Node, st: State, r: Radio) {
    !RfSilent(n, st, r.now) && !(n.cfg.listenFirst && r.busy) && r.sent
  }

  /** Turn by turn the due entries go out; an old one among them is reached. */
  lemma {:induction false} OldReached(n: Node, st: State, r: Radio, i: nat, s: nat) returns (m: nat)
    requires MaySend(n, st, r) && i < Queue.SLOTS && Queue.Due(st.txq, i, r.now) && st.txq[i].entry.serial < s
    ensures m < Queue.SLOTS - Queue.FreeSlots(st.txq)
    ensures var turn := Transmitted(n, AfterTurns(n, st, r, m), r).1; turn.Sent? && turn.entry.serial < s
    decreases Queue.SLOTS - Queue.FreeSlots(st.txq)
  {
    Queue.PickIsLeast(st.txq, r.now);
    var b := Queue.Pick(st.txq, r.now);
    Queue.FreeAfterRemove(st.txq, b);
    if st.txq[b].entry.serial < s {
      m := 0;
    } else {
      var next := Transmitted(n, st, r).0;
      assert next == st.(txq := st.txq[b := Queue.Free]);
      m := OldReached(n, next, r, i, s);
      FirstTurn(n, st, r, m);
      m := m + 1;
    }
  }

  /** Some continuation of the run, clocked by the loop, sends something old. */
  ghost predicate MayGoOut(n: Node, run: seq<Event>, clock: seq<nat>, k: nat) {
    exists more: seq<Event>, ticks: seq<nat> :: Clocked(run + more, clock + ticks) && GoesOut(n, run + more, k)
  }

  lemma TurnsClocked(run: seq<Event>, clock: seq<nat>, r: Radio, m: nat) returns (ticks: seq<nat>)
    requires |run| == |clock| && |run| > 0 && m > 0
    requires Clocked(run[..|run| - 1], clock) && EventFrom(run[|run| - 1], clock[|run| - 1])
    requires !run[|run| - 1].Transmit? && clock[|run| - 1] <= r.now
    ensures Clocked(run + Turns(r, m), clock + ticks)
  {
    ticks := seq(m + 1, i => r.now);
    var all, times := run + Turns(r, m), clock + ticks;
    var k := |run| - 1;
    forall i | 0 <= i < |all|
      ensures times[i] <= times[i + 1] && EventFrom(all[i], times[i])
      ensures all[i].Transmit? ==> all[i].radio.now <= times[i + 1]
    {
      if i < k {
        assert all[i] == run[..k][i] && times[i] == clock[i] && times[i + 1] == clock[i + 1];
      } else if i == k {
        assert all[i] == run[k] && times[i] == clock[k] && times[i + 1] == r.now;
      } else {
        assert all[i] == Transmit(r) && times[i] == r.now && times[i + 1] == r.now;
      }
    }
  }

  lemma RunTail(n: Node, run: seq<Event>, r: Radio, m: nat, j: nat)
    requires j < m
    ensures var all := run + Turns(r, m);
            && all[..|run|] == run && all[|run| + j] == Transmit(r)
            && Ran(n, all[..|run| + j]) == AfterTurns(n, Ran(n, run), r, j)
  {
    var all := run + Turns(r, m);
    assert all[..|run| + j] == run + Turns(r, j);
    RanTurns(n, run, r, j);
  }

  lemma AllGood(run: seq<Event>, clock: seq<nat>, k: nat)
    requires |run| == |clock| == k + 1 && Clocked(run[..k], clock) && EventFrom(run[k], clock[k])
    ensures GoodRun(run)
  {
    forall i | 0 <= i < |run|
      ensures EventFrom(run[i], 0)
    {
      assert i < k ==> run[i] == run[..k][i] && EventFrom(run[..k][i], clock[i]);
    }
  }

  /** A frame received leaves the entries queued before it where they were, with their lower numbers. */
  lemma OldKept(n: Node, run: seq<Event>, k: nat, i: nat)
    requires GoodRun(run) && |run| == k + 1 && run[k].Receive?
    requires i < Queue.SLOTS && Ran(n, run[..k]).txq[i].Used?
    ensures var before := Ran(n, run[..k]);
            Ran(n, run).txq[i] == before.txq[i] && before.txq[i].entry.serial < before.serial
  {
    NumbersBelow(n, run[..k]);
    ReceivingKeepsSlots(n, Ran(n, run[..k]), run[k].raw, run[k].inp);
  }

  /** What a run makes of a node, under a name that does not unfold. */
  ghost predicate IsRan(n: Node, ran: seq<Event> -> State) {
    forall run: seq<Event> {:trigger Ran(n, run)} :: ran(run) == Ran(n, run)
  }

  lemma RanOf(n: Node) returns (ran: seq<Event> -> State)
    ensures IsRan(n, ran)
  {
    ran := run => Ran(n, run);
  }

  /** A turn that sends something old, in a state given by name. */
  lemma OldIsSent(n: Node, all: seq<Event>, k: nat, j: nat, r: Radio, st: State, ran: seq<Event> -> State)
    requires IsRan(n, ran) && k < j < |all| && all[j] == Transmit(r) && ran(all[..j]) == st
    requires OldTurn(n, st, r, ran(all[..k + 1]).awakeUntil, ran(all[..k]).serial)
    ensures GoesOut(n, all, k)
  {
    assert SendsOld(n, all, k, j) by {
      assert ran(all[..j]) == Ran(n, all[..j]);
      assert ran(all[..k + 1]) == Ran(n, all[..k + 1]);
      assert ran(all[..k]) == Ran(n, all[..k]);
    }
  }

  lemma RanTail(n: Node, run: seq<Event>, r: Radio, m: nat, ran: seq<Event> -> State)
    requires IsRan(n, ran)
    ensures var all := run + Turns(r, m + 1);
            && all[..|run|] == run && all[|run| + m] == Transmit(r)
            && ran(all[..|run| + m]) == AfterTurns(n, ran(run), r, m)
  {
    RunTail(n, run, r, m + 1, m);
    assert ran(run) == Ran(n, run);
    var all := run + Turns(r, m + 1);
    assert ran(all[..|run| + m]) == Ran(n, all[..|run| + m]);
  }

  lemma TurnSendsOld(n: Node, run: seq<Event>, k: nat, r: Radio, m: nat, ran: seq<Event> -> State)
    requires IsRan(n, ran) && |run| == k + 1
    requires OldTurn(n, AfterTurns(n, ran(run), r, m), r, ran(run).awakeUntil, ran(run[..k]).serial)
    ensures GoesOut(n, run + Turns(r, m + 1), k)
  {
    var all, j := run + Turns(r, m + 1), k + 1 + m;
    RanTail(n, run, r, m, ran);
    assert all[..k] == run[..k];
    OldIsSent(n, all, k, j, r, AfterTurns(n, ran(run), r, m), ran);
  }

  /** The last turn of the time on the air, repeated, reaches an old entry that is due in it. */
  lemma DueGoesOut(n: Node, run: seq<Event>, clock: seq<nat>, k: nat, i: nat, st: State)
    requires |run| == |clock| == k + 1 && Clocked(run[..k], clock) && EventFrom(run[k], clock[k]) && run[k].Receive?
    requires GoodRun(run) && i < Queue.SLOTS && st == Ran(n, run) && clock[k] < st.awakeUntil
    requires var txq := Ran(n, run[..k]).txq; txq[i].Used? && txq[i].entry.due < st.awakeUntil
    ensures MayGoOut(n, run, clock, k)
  {
    OldKept(n, run, k, i);
    var r := Radio(st.awakeUntil - 1, false, 0, true);
    var m := OldReached(n, st, r, i, Ran(n, run[..k]).serial);
    var ran := RanOf(n);
    assert ran(run) == st && ran(run[..k]) == Ran(n, run[..k]);
    TurnSendsOld(n, run, k, r, m, ran);
    var ticks := TurnsClocked(run, clock, r, m + 1);
  }

  /**
   When something queued before a silence goes out after it. A companion is heard at k in silence and the node
   is on the air until U: the run can go on, in whatever way, so that something queued before k is sent
   before U, exactly when something in the queue at k is due before U.
   */
  lemma StaleIff(n: Node, run: seq<Event>, clock: seq<nat>, k: nat)
    requires |run| == |clock| == k + 1 && Clocked(run[..k], clock) && EventFrom(run[k], clock[k])
    requires WakesFromSilence(n, run, k)
    ensures MayGoOut(n, run, clock, k) <==> DueBefore(Ran(n, run[..k]).txq, Ran(n, run).awakeUntil)
  {
    var txq, until := Ran(n, run[..k]).txq, Ran(n, run).awakeUntil;
    if DueBefore(txq, until) {
      var i :| 0 <= i < Queue.SLOTS && txq[i].Used? && txq[i].entry.due < until;
      AllGood(run, clock, k);
      assert run[..k + 1] == run;
      DueGoesOut(n, run, clock, k, i, Ran(n, run));
    } else {
      forall more: seq<Event>, ticks: seq<nat> | Clocked(run + more, clock + ticks)
        ensures !GoesOut(n, run + more, k)
      {
        assert (run + more)[..k] == run[..k] && (run + more)[..k + 1] == run;
        LateStaysIn(n, run + more, clock + ticks, k);
      }
    }
  }

  /** The queue is empty at k, and nothing old goes out, when the service has noticed the silence. */
  lemma NoticedIsEmpty(n: Node, run: seq<Event>, clock: seq<nat>, k: nat)
    requires |run| == |clock| == k + 1 && Clocked(run[..k], clock) && EventFrom(run[k], clock[k])
    requires WakesFromSilence(n, run, k) && Ran(n, run[..k]).silent
    ensures IsEmpty(Ran(n, run[..k]).txq) && !MayGoOut(n, run, clock, k)
  {
    SilenceIsQuiet(n, run[..k], clock);
    StaleIff(n, run, clock, k);
  }

  // ---------------------------------------------------------------- companions

  /** An advert, heard directly, of a device that wakes any hotspot with this configuration. */
  predicate Companion(n: Node, p: packet) {
    && WellFormed(p) && Canonical(p) && Count(p) == 0 && Signed(n.verify, p) && AdvertKind(p, 0) == CHAT
    && !Blacklisted(n.cfg, AdvertName(p)) && !KeyBlocked(n.cfg, Advertiser(p))
    && IsCompanion(n, Initial(), AdvertName(p))
  }

  /** Nothing but companions was heard. */
  predicate OnlyCompanions(t: table) {
    forall i :: 0 <= i < TABLE && t[i].Heard? ==> t[i].kind == CHAT
  }

  lemma CompanionStays(n: Node, st: State, who: cstring)
    requires IsCompanion(n, Initial(), who) && OnlyCompanions(st.neighbours)
    ensures IsCompanion(n, st, who)
  {
  }

  lemma CompanionEntered(t: table, p: packet, now: nat)
    requires |p.payload| >= DATA_OFFSET && AdvertKind(p, 0) == CHAT && OnlyCompanions(t)
    ensures OnlyCompanions(Updated(t, p, now))
  {
  }

  /** Only the queue, and what is offered, changed; one slot fewer may be free. */
  predicate QueuedAtMostOne(st: State, next: State) {
    && next == st.(txq := next.txq, serial := next.serial, offers := next.offers)
    && Queue.FreeSlots(next.txq) + 1 >= Queue.FreeSlots(st.txq)
  }

  lemma EnqueuedOne(n: Node, st: State, p: packet, o: Order, src: Source)
    ensures QueuedAtMostOne(st, Enqueued(n, st, p, o, src))
  {
    Queue.AddTakesOne(st.txq, EntryFor(st, p, o));
  }

  lemma ScopedOne(n: Node, st: State, p: packet, advertiser: cstring, sender: cstring, inp: Inputs)
    requires ValidPathLen(p.pathLen)
    ensures QueuedAtMostOne(st, Scoped(n, st, p, advertiser, sender, inp).0)
  {
    var scope := ScopeOf(n, st, p, advertiser, sender, inp.src);
    var r := Route(p, n.id);
    if scope.Within? && r.Relay? {
      var o := Order(r.priority, if IsFlood(p) then inp.backoff else 0, scope.power, false, inp.relayAt);
      EnqueuedOne(n, st, r.packet, o, inp.src);
    }
  }

  lemma AdvertAdmitted(n: Node, st: State, p: packet, name: cstring, inp: Inputs)
    requires WellFormed(p) && PayloadType(p) == ADVERT
    ensures QueuedAtMostOne(st, Admitted(n, st, p, name, inp).0)
  {
    ForwardsIff(n.suite, n.cfg.public, p);
    ScopedOne(n, st, p, name, [], inp);
  }

  /** The hashes a waking node may record of its own. */
  predicate OwnDiffers(n: Node, a: SelfAdvert, h: Seen.hash) {
    a.Built? ==> HashOf(n, a.own.pkt) != h
  }

  lemma AdvertisedOne(n: Node, st: State, a: SelfAdvert, src: Source, h: Seen.hash)
    requires OwnDiffers(n, a, h) && h !in st.seen
    ensures var next := Advertised(n, st, a, src);
            QueuedAtMostOne(st.(seen := next.seen), next) && h !in next.seen
  {
    if a.Built? {
      var known := Recorded(n, st, a.own.pkt);
      EnqueuedOne(n, known, a.own.pkt, Order(ADVERT_PRIORITY, a.own.delay, OwnPower(n), true, a.own.now), src);
    }
  }

  /** On the air until `until`, the hash h not heard, only companions heard, and room in the queue. */
  predicate Attended(st: State, until: nat, h: Seen.hash, free: nat) {
    st.awakeUntil == until && h !in st.seen && OnlyCompanions(st.neighbours) && Queue.FreeSlots(st.txq) >= free
  }

  lemma KeptUpAttended(n: Node, st: State, inp: Inputs, h: Seen.hash, free: nat)
    requires OwnDiffers(n, inp.advert, h) && h !in st.seen && OnlyCompanions(st.neighbours)
    requires Queue.FreeSlots(st.txq) >= free + 1
    ensures Attended(KeptUp(n, st, inp.src, inp.wakeAt, inp.advert), Until(n, inp), h, free)
  {
    AdvertisedOne(n, Up(n, st, inp.wakeAt), inp.advert, inp.src, h);
  }

  lemma CompanionHeeded(n: Node, st: State, p: packet, inp: Inputs, h: Seen.hash, free: nat)
    requires n.cfg.hotspot && n.cfg.awake != 0 && Companion(n, p) && inp.src.Rf?
    requires OwnDiffers(n, inp.advert, h) && h !in st.seen && OnlyCompanions(st.neighbours)
    requires Queue.FreeSlots(st.txq) >= free + 1
    ensures Attended(Heeded(n, st, p, inp), Until(n, inp), h, free)
  {
    var name := AdvertName(p);
    var repeaters := Learned(n, st.repeaters, Advertiser(p), name);
    var known := WithTables(st, Updated(st.neighbours, p, inp.wallClock), repeaters);
    CompanionEntered(st.neighbours, p, inp.wallClock);
    CompanionStays(n, known, name);
    KeptUpAttended(n, known, inp, h, free);
  }

  /** A companion's advert puts a hotspot on the air. */
  lemma CompanionWakes(n: Node, st: State, p: packet, inp: Inputs, h: Seen.hash, free: nat)
    requires n.cfg.hotspot && n.cfg.awake != 0 && Companion(n, p) && inp.src.Rf? && HashOf(n, p) !in st.seen
    requires OwnDiffers(n, inp.advert, h) && h !in st.seen && HashOf(n, p) != h && OnlyCompanions(st.neighbours)
    requires Queue.FreeSlots(st.txq) >= free + 2
    ensures Attended(Received(n, st, Wire(p), inp).0, Until(n, inp), h, free)
  {
    WireParses(p);
    var known := Recorded(n, st, p);
    CompanionHeeded(n, known, p, inp, h, free + 1);
    AdvertAdmitted(n, Heeded(n, known, p, inp), p, AdvertName(p), inp);
  }

  // ---------------------------------------------------------------- a period on the air

  /** A turn on the air takes no slot, and changes nothing but the queue. */
  lemma TurnFrees(n: Node, st: State, r: Radio)
    requires !RfSilent(n, st, r.now)
    ensures var next := Transmitted(n, st, r).0;
            next == st.(txq := next.txq) && Queue.FreeSlots(next.txq) >= Queue.FreeSlots(st.txq)
  {
    var b := Queue.Pick(st.txq, r.now);
    var next := Transmitted(n, st, r).0;
    if b < 0 {
      assert next == st;
    } else if n.cfg.listenFirst && r.busy {
      var e := st.txq[b].entry.(due := r.now + r.backoff);
      assert next == st.(txq := st.txq[b := Queue.Used(e)]);
      Queue.FreeAfterReplace(st.txq, b, e);
    } else {
      assert next == st.(txq := st.txq[b := Queue.Free]);
      Queue.FreeAfterRemove(st.txq, b);
    }
  }

  lemma TurnAttended(n: Node, st: State, r: Radio, until: nat, h: Seen.hash, free: nat)
    requires Attended(st, until, h, free) && r.now < until
    ensures Attended(Transmitted(n, st, r).0, until, h, free)
  {
    TurnFrees(n, st, r);
  }

  /** A packet of the node's own takes a slot that was free. */
  lemma OriginatedAttended(n: Node, st: State, own: Own, priority: nat, until: nat, h: Seen.hash, free: nat)
    returns (i: nat)
    requires Attended(st, until, h, free + 1) && own.now < until && HashOf(n, own.pkt) != h
    ensures var next := Originated(n, st, own, priority, Rf);
            && Attended(next, until, h, free)
            && i < Queue.SLOTS && st.txq[i].Free? && next.txq[i].Used? && next.txq[i].entry.due == own.now + own.delay
            && next.txq == st.txq[i := next.txq[i]]
  {
    var known := Recorded(n, st, own.pkt);
    var o := Order(priority, own.delay, OwnPower(n), true, own.now);
    EnqueuedOne(n, known, own.pkt, o, Rf);
    Queue.AddTakesOne(known.txq, EntryFor(known, own.pkt, o));
    i :| 0 <= i < Queue.SLOTS && st.txq[i].Free? && Queue.Add(st.txq, EntryFor(known, own.pkt, o))
                                                   == st.txq[i := Queue.Used(EntryFor(known, own.pkt, o))];
  }

  /** Of two entries due, a turn leaves one. */
  lemma OneLeft(n: Node, st: State, r: Radio, i: nat, j: nat) returns (k: nat)
    requires MaySend(n, st, r) && i < Queue.SLOTS && j < Queue.SLOTS && i != j
    requires Queue.Due(st.txq, i, r.now) && Queue.Due(st.txq, j, r.now)
    ensures var (next, turn) := Transmitted(n, st, r);
            turn.Sent? && (k == i || k == j) && next.txq[k] == st.txq[k]
  {
    Queue.PickIsLeast(st.txq, r.now);
    k := if Queue.Pick(st.txq, r.now) == i then j else i;
  }

  /** What is numbered from s on is due after t. */
  predicate YoungLate(st: State, s: nat, t: nat) {
    forall i :: 0 <= i < Queue.SLOTS && st.txq[i].Used? && st.txq[i].entry.serial >= s ==> st.txq[i].entry.due > t
  }

  lemma ReceivedLate(n: Node, st: State, raw: seq<byte>, inp: Inputs, s: nat, t: nat)
    requires YoungLate(st, s, t) && InputsFrom(inp, t + 1)
    ensures YoungLate(Received(n, st, raw, inp).0, s, t)
  {
    var keeps: Property := (x: State) => YoungLate(x, s, t);
    forall x: State, p: packet, o: Order, src: Source | keeps(x) && o.now >= t + 1
      ensures keeps(Enqueued(n, x, p, o, src))
    {
    }
    StepKeeps(n, keeps, t + 1, st, Receive(raw, inp));
  }

  lemma WakesUntil(n: Node, st: State, p: packet, inp: Inputs)
    requires n.cfg.hotspot && n.cfg.awake != 0 && Companion(n, p) && inp.src.Rf? && HashOf(n, p) !in st.seen
    requires OnlyCompanions(st.neighbours)
    ensures Received(n, st, Wire(p), inp).0.awakeUntil == Until(n, inp)
  {
    WireParses(p);
    var known, name := Recorded(n, st, p), AdvertName(p);
    var repeaters := Learned(n, st.repeaters, Advertiser(p), name);
    var learned := WithTables(known, Updated(st.neighbours, p, inp.wallClock), repeaters);
    CompanionEntered(st.neighbours, p, inp.wallClock);
    CompanionStays(n, learned, name);
    WokenAwake(n, learned, p, name, inp);
    AdvertAdmitted(n, Heeded(n, known, p, inp), p, name, inp);
  }

  /**
   A companion heard in silence, before the service noticed it: the reception reads the clock after the loop
   did, so that the turn of the same iteration, given the loop time t, sends something old that is due.
   */
  lemma TurnAfterWake(n: Node, st: State, p: packet, inp: Inputs, r: Radio, i: nat)
    requires n.cfg.hotspot && n.cfg.awake != 0 && Companion(n, p) && inp.src.Rf? && HashOf(n, p) !in st.seen
    requires OnlyCompanions(st.neighbours) && NumberedBelow(st) && RfSilent(n, st, r.now) && InputsFrom(inp, r.now + 1)
    requires r.sent && !r.busy && i < Queue.SLOTS && st.txq[i].Used? && st.txq[i].entry.due <= r.now
    ensures var up := Received(n, st, Wire(p), inp).0;
            && RfSilent(n, st, inp.wakeAt) && !RfSilent(n, up, inp.wakeAt)
            && OldTurn(n, up, r, up.awakeUntil, st.serial)
  {
    var up := Received(n, st, Wire(p), inp).0;
    WakesUntil(n, st, p, inp);
    ReceivingKeepsSlots(n, st, Wire(p), inp);
    ReceivedLate(n, st, Wire(p), inp, st.serial, r.now);
    assert Queue.Due(up.txq, i, r.now);
    TurnSendsYoungest(n, up, r, i, st.serial);
  }

  lemma TurnSendsYoungest(n: Node, st: State, r: Radio, i: nat, s: nat)
    requires MaySend(n, st, r) && YoungLate(st, s, r.now) && i < Queue.SLOTS && Queue.Due(st.txq, i, r.now)
    ensures var turn := Transmitted(n, st, r).1; turn.Sent? && turn.entry.serial < s
  {
    Queue.PickIsLeast(st.txq, r.now);
  }

  // ---------------------------------------------------------------- a run in which an old entry goes out

  /** One event more. */
  lemma RanNext(n: Node, ran: seq<Event> -> State, run: seq<Event>, clock: seq<nat>, ev: Event, tick: nat)
    requires IsRan(n, ran) && Clocked(run, clock) && EventFrom(ev, clock[|run|]) && clock[|run|] <= tick
    requires ev.Transmit? ==> ev.radio.now <= tick
    ensures Clocked(run + [ev], clock + [tick]) && ran(run + [ev]) == Step(n, ran(run), ev)
  {
    var all := run + [ev];
    assert all[..|run|] == run;
    assert ran(all) == Ran(n, all) && ran(run) == Ran(n, run);
    forall i | 0 <= i < |all|
      ensures var times := clock + [tick];
              && times[i] <= times[i + 1] && EventFrom(all[i], times[i])
              && (all[i].Transmit? ==> all[i].radio.now <= times[i + 1])
    {
      assert i < |run| ==> all[i] == run[i];
    }
  }

  /** The turns of as many iterations. */
  function TurnsOf(rs: seq<Radio>): (t: seq<Event>)
    ensures |t| == |rs|
  {
    seq(|rs|, i requires 0 <= i < |rs| => Transmit(rs[i]))
  }

  function TimesOf(rs: seq<Radio>): (t: seq<nat>)
    ensures |t| == |rs|
  {
    seq(|rs|, i requires 0 <= i < |rs| => rs[i].now)
  }

  predicate InOrder(rs: seq<Radio>, from: nat, to: nat) {
    && (forall i :: 0 <= i < |rs| ==> from <= rs[i].now < to)
    && forall i, j :: 0 <= i < j < |rs| ==> rs[i].now <= rs[j].now
  }

  /** Turns within the time on the air leave the node attended. */
  lemma {:induction false} TurnsAttended(n: Node, ran: seq<Event> -> State, run: seq<Event>, clock: seq<nat>,
          rs: seq<Radio>, until: nat, h: Seen.hash, free: nat)
    requires IsRan(n, ran) && Clocked(run, clock) && InOrder(rs, clock[|run|], until)
    requires Attended(ran(run), until, h, free)
    ensures Clocked(run + TurnsOf(rs), clock + TimesOf(rs)) && Attended(ran(run + TurnsOf(rs)), until, h, free)
    decreases |rs|
  {
    if |rs| == 0 {
      assert run + TurnsOf(rs) == run && clock + TimesOf(rs) == clock;
    } else {
      var last := |rs| - 1;
      var front, r := rs[..last], rs[last];
      TurnsAttended(n, ran, run, clock, front, until, h, free);
      var soFar, times := run + TurnsOf(front), clock + TimesOf(front);
      assert run + TurnsOf(rs) == soFar + [Transmit(r)] && clock + TimesOf(rs) == times + [r.now];
      RanNext(n, ran, soFar, times, Transmit(r), r.now);
      TurnAttended(n, ran(soFar), r, until, h, free);
    }
  }

  /** As the main loop has it: the turn after a reception is given the loop time of that iteration. */
  predicate ServedEach(run: seq<Event>, clock: seq<nat>)
    requires |clock| == |run| + 1
  {
    forall i :: 0 <= i < |run| && run[i].Receive? ==>
      i + 1 < |run| && run[i + 1].Transmit? && run[i + 1].radio.now == clock[i]
  }

  /**
   A companion's advert `a`; the turns of the iterations after it; two packets of the node's own, as the
   services that follow a turn send them; a turn in the last millisecond on the air, whose transmission
   keeps the radio until the loop time of `turn`; and in that iteration another companion's advert `b`.
   */
  datatype Story = Story(a: packet, heardA: Inputs, turns: seq<Radio>, one: Own, two: Own, priority: nat,
                         last: Radio, b: packet, heardB: Inputs, turn: Radio)

  predicate SendsBefore(own: Own, from: nat, until: nat) {
    WellFormed(own.pkt) && from <= own.now && own.now + own.delay < until
  }

  /** The adverts are new, and none of the node's own packets has the hash of the second. */
  predicate Unheard(n: Node, x: Story) {
    var h := HashOf(n, x.b);
    && HashOf(n, x.a) != Seen.ZERO && h != Seen.ZERO && HashOf(n, x.a) != h
    && HashOf(n, x.one.pkt) != h && HashOf(n, x.two.pkt) != h && OwnDiffers(n, x.heardA.advert, h)
  }

  predicate Happens(n: Node, x: Story) {
    var until := Until(n, x.heardA);
    && n.cfg.hotspot && n.cfg.awake != 0 && Companion(n, x.a) && Companion(n, x.b) && Unheard(n, x)
    && x.heardA.src.Rf? && x.heardB.src.Rf?
    && |x.turns| > 0 && InputsFrom(x.heardA, x.turns[0].now) && InOrder(x.turns, x.turns[0].now, until)
    && var now := x.turns[|x.turns| - 1].now;
       && SendsBefore(x.one, now, until) && SendsBefore(x.two, now, until)
       && x.last == Radio(until - 1, false, x.last.backoff, true)
       && x.turn == Radio(x.turn.now, false, x.turn.backoff, true)
       && x.turn.now >= until && InputsFrom(x.heardB, x.turn.now + 1)
  }

  predicate Sendable(x: Story) {
    WellFormed(x.a) && WellFormed(x.b)
  }

  function HeardRun(x: Story): seq<Event>
    requires Sendable(x)
  {
    [Receive(Wire(x.a), x.heardA)]
  }

  /** Up to the two packets of the node's own. */
  function Opening(x: Story): seq<Event>
    requires Sendable(x)
  {
    HeardRun(x) + TurnsOf(x.turns) + [Originate(x.one, x.priority)] + [Originate(x.two, x.priority)]
  }

  /** The loop times of those events, and of the turn that follows. */
  function OpeningTimes(x: Story, until: nat): seq<nat>
    requires |x.turns| > 0
  {
    var start, now := x.turns[0].now, x.turns[|x.turns| - 1].now;
    [start, start] + TimesOf(x.turns) + [now] + [until]
  }

  lemma HeardFrom(n: Node, ran: seq<Event> -> State, x: Story, st: State, start: nat)
    requires IsRan(n, ran) && Happens(n, x) && st == ran([]) && start == x.turns[0].now
    requires HashOf(n, x.a) !in st.seen && HashOf(n, x.b) !in st.seen && OnlyCompanions(st.neighbours)
    requires Queue.FreeSlots(st.txq) == Queue.SLOTS
    ensures Clocked(HeardRun(x), [start, start])
    ensures Attended(ran(HeardRun(x)), Until(n, x.heardA), HashOf(n, x.b), Queue.SLOTS - 2)
  {
    RanReceived(n, ran, [], [start], Wire(x.a), x.heardA, start);
    assert [] + HeardRun(x) == HeardRun(x) && [start] + [start] == [start, start];
    CompanionWakes(n, st, x.a, x.heardA, HashOf(n, x.b), Queue.SLOTS - 2);
  }

  lemma NothingHeard(h: Seen.hash)
    requires h != Seen.ZERO
    ensures h !in Initial().seen && OnlyCompanions(Initial().neighbours)
    ensures Queue.FreeSlots(Initial().txq) == Queue.SLOTS
  {
    EmptyIsFree(0);
  }

  lemma FirstHeard(n: Node, ran: seq<Event> -> State, x: Story, start: nat)
    requires IsRan(n, ran) && Happens(n, x) && start == x.turns[0].now
    ensures Clocked(HeardRun(x), [start, start])
    ensures Attended(ran(HeardRun(x)), Until(n, x.heardA), HashOf(n, x.b), Queue.SLOTS - 2)
  {
    assert ran([]) == Ran(n, []);
    NothingHeard(HashOf(n, x.a));
    NothingHeard(HashOf(n, x.b));
    HeardFrom(n, ran, x, Initial(), start);
  }

  lemma {:induction false} EmptyIsFree(i: nat)
    requires i <= Queue.SLOTS
    ensures Queue.FreeFrom(Queue.Empty(), i) == Queue.SLOTS - i
    decreases Queue.SLOTS - i
  {
    if i < Queue.SLOTS {
      EmptyIsFree(i + 1);
    }
  }

  /** One packet of the node's own more. */
  lemma OwnNext(n: Node, ran: seq<Event> -> State, run: seq<Event>, clock: seq<nat>, own: Own, priority: nat,
          tick: nat, until: nat, h: Seen.hash, free: nat) returns (i: nat)
    requires IsRan(n, ran) && Clocked(run, clock) && SendsBefore(own, clock[|run|], until) && clock[|run|] <= tick
    requires Attended(ran(run), until, h, free + 1) && HashOf(n, own.pkt) != h
    ensures var all, next := run + [Originate(own, priority)], ran(run + [Originate(own, priority)]);
            && Clocked(all, clock + [tick]) && Attended(next, until, h, free)
            && i < Queue.SLOTS && ran(run).txq[i].Free? && next.txq[i].Used? && next.txq[i].entry.due < until
            && next.txq == ran(run).txq[i := next.txq[i]]
  {
    RanNext(n, ran, run, clock, Originate(own, priority), tick);
    i := OriginatedAttended(n, ran(run), own, priority, until, h, free);
  }

  /** Two packets of the node's own, one after the other, are two entries due. */
  lemma TwoOwn(n: Node, ran: seq<Event> -> State, run: seq<Event>, clock: seq<nat>, one: Own, two: Own, priority: nat,
          now: nat, until: nat, h: Seen.hash) returns (i: nat, j: nat)
    requires IsRan(n, ran) && Clocked(run, clock) && clock[|run|] == now < until
    requires SendsBefore(one, now, until) && SendsBefore(two, now, until)
    requires Attended(ran(run), until, h, 2) && HashOf(n, one.pkt) != h && HashOf(n, two.pkt) != h
    ensures var all := run + [Originate(one, priority)] + [Originate(two, priority)];
            var st := ran(all);
            && Clocked(all, clock + [now] + [until - 1]) && Attended(st, until, h, 0)
            && i < Queue.SLOTS && j < Queue.SLOTS && i != j
            && Queue.Due(st.txq, i, until - 1) && Queue.Due(st.txq, j, until - 1)
  {
    i := OwnNext(n, ran, run, clock, one, priority, now, until, h, 1);
    var next := run + [Originate(one, priority)];
    j := OwnNext(n, ran, next, clock + [now], two, priority, until - 1, until, h, 0);
    assert ran(next + [Originate(two, priority)]).txq[i] == ran(next).txq[i];
  }

  lemma OpeningFrom(n: Node, ran: seq<Event> -> State, x: Story, first: seq<Event>, start: nat, now: nat, until: nat,
          h: Seen.hash, all: seq<Event>, times: seq<nat>) returns (i: nat, j: nat)
    requires all == first + TurnsOf(x.turns) + [Originate(x.one, x.priority)] + [Originate(x.two, x.priority)]
    requires times == [start, start] + TimesOf(x.turns) + [now] + [until - 1]
    requires IsRan(n, ran) && Clocked(first, [start, start]) && InOrder(x.turns, start, until) && |x.turns| > 0
    requires Attended(ran(first), until, h, 2) && now == x.turns[|x.turns| - 1].now
    requires SendsBefore(x.one, now, until) && SendsBefore(x.two, now, until)
    requires HashOf(n, x.one.pkt) != h && HashOf(n, x.two.pkt) != h
    ensures var st := ran(all);
            && Clocked(all, times) && Attended(st, until, h, 0)
            && i < Queue.SLOTS && j < Queue.SLOTS && i != j
            && Queue.Due(st.txq, i, until - 1) && Queue.Due(st.txq, j, until - 1)
  {
    TurnsAttended(n, ran, first, [start, start], x.turns, until, h, 2);
    var run, clock := first + TurnsOf(x.turns), [start, start] + TimesOf(x.turns);
    assert clock[|run|] == now;
    i, j := TwoOwn(n, ran, run, clock, x.one, x.two, x.priority, now, until, h);
  }

  /** After the opening the node is on the air, has not heard `b`, and has two entries due. */
  lemma OpeningLeaves(n: Node, ran: seq<Event> -> State, x: Story, until: nat, h: Seen.hash) returns (i: nat, j: nat)
    requires IsRan(n, ran) && Happens(n, x) && until == Until(n, x.heardA) && h == HashOf(n, x.b)
    ensures var st := ran(Opening(x));
            && Clocked(Opening(x), OpeningTimes(x, until - 1)) && Attended(st, until, h, 0)
            && i < Queue.SLOTS && j < Queue.SLOTS && i != j
            && Queue.Due(st.txq, i, until - 1) && Queue.Due(st.txq, j, until - 1)
  {
    var start, now := x.turns[0].now, x.turns[|x.turns| - 1].now;
    FirstHeard(n, ran, x, start);
    i, j := OpeningFrom(n, ran, x, HeardRun(x), start, now, until, h, Opening(x), OpeningTimes(x, until - 1));
  }

  /** Up to the transmission across the end of the period. */
  function Blocked(x: Story): seq<Event>
    requires Sendable(x)
  {
    Opening(x) + [Transmit(x.last)]
  }

  /** The last turn on the air leaves one of two entries due. */
  lemma LastTurn(n: Node, ran: seq<Event> -> State, run: seq<Event>, clock: seq<nat>, r: Radio, tick: nat, until: nat,
          h: Seen.hash, left: nat, right: nat) returns (i: nat)
    requires IsRan(n, ran) && Clocked(run, clock) && clock[|run|] <= r.now <= tick && r.now < until
    requires Attended(ran(run), until, h, 0) && r.sent && !r.busy
    requires left < Queue.SLOTS && right < Queue.SLOTS && left != right
    requires Queue.Due(ran(run).txq, left, r.now) && Queue.Due(ran(run).txq, right, r.now)
    ensures var all := run + [Transmit(r)];
            && Clocked(all, clock + [tick]) && Attended(ran(all), until, h, 0)
            && i < Queue.SLOTS && Queue.Due(ran(all).txq, i, r.now) && Transmitted(n, ran(run), r).1.Sent?
  {
    i := OneLeft(n, ran(run), r, left, right);
    TurnAttended(n, ran(run), r, until, h, 0);
    RanNext(n, ran, run, clock, Transmit(r), tick);
  }

  function BlockedTimes(x: Story, until: nat): seq<nat>
    requires |x.turns| > 0
  {
    OpeningTimes(x, until) + [x.turn.now]
  }

  lemma BlockedLeaves(n: Node, ran: seq<Event> -> State, x: Story, until: nat, h: Seen.hash) returns (i: nat)
    requires IsRan(n, ran) && Happens(n, x) && until == Until(n, x.heardA) && h == HashOf(n, x.b)
    ensures var st := ran(Blocked(x));
            && Clocked(Blocked(x), BlockedTimes(x, until - 1)) && Attended(st, until, h, 0)
            && NumberedBelow(st) && i < Queue.SLOTS && Queue.Due(st.txq, i, until - 1)
  {
    var left, right := OpeningLeaves(n, ran, x, until, h);
    var clock := OpeningTimes(x, until - 1);
    i := LastTurn(n, ran, Opening(x), clock, x.last, x.turn.now, until, h, left, right);
    ClockedIsGood(Blocked(x), BlockedTimes(x, until - 1));
    BelowBy(n, ran, Blocked(x));
  }

  lemma BelowBy(n: Node, ran: seq<Event> -> State, run: seq<Event>)
    requires IsRan(n, ran) && GoodRun(run)
    ensures NumberedBelow(ran(run))
  {
    NumbersBelow(n, run);
    assert ran(run) == Ran(n, run);
  }

  /** One reception more. */
  lemma RanReceived(n: Node, ran: seq<Event> -> State, run: seq<Event>, clock: seq<nat>, raw: seq<byte>, inp: Inputs,
          tick: nat)
    requires IsRan(n, ran) && Clocked(run, clock) && InputsFrom(inp, clock[|run|]) && clock[|run|] <= tick
    ensures Clocked(run + [Receive(raw, inp)], clock + [tick])
    ensures ran(run + [Receive(raw, inp)]) == Received(n, ran(run), raw, inp).0
  {
    RanNext(n, ran, run, clock, Receive(raw, inp), tick);
  }

  lemma LaterInputs(inp: Inputs, t: nat)
    requires InputsFrom(inp, t + 1)
    ensures InputsFrom(inp, t)
  {
  }

  /** A companion heard, and the turn of that iteration. */
  lemma WakeNext(n: Node, ran: seq<Event> -> State, run: seq<Event>, clock: seq<nat>, p: packet, inp: Inputs, r: Radio,
          until: nat, i: nat)
    requires IsRan(n, ran) && Clocked(run, clock) && clock[|run|] == r.now && until <= r.now
    requires n.cfg.hotspot && n.cfg.awake != 0 && Companion(n, p) && inp.src.Rf? && InputsFrom(inp, r.now + 1)
    requires Attended(ran(run), until, HashOf(n, p), 0) && NumberedBelow(ran(run)) && r.sent && !r.busy
    requires i < Queue.SLOTS && Queue.Due(ran(run).txq, i, r.now)
    ensures var heard := run + [Receive(Wire(p), inp)];
            var st, up := ran(run), ran(heard);
            && Clocked(heard + [Transmit(r)], clock + [r.now] + [r.now])
            && RfSilent(n, st, inp.wakeAt) && !RfSilent(n, up, inp.wakeAt)
            && OldTurn(n, up, r, up.awakeUntil, st.serial)
  {
    LaterInputs(inp, r.now);
    RanReceived(n, ran, run, clock, Wire(p), inp, r.now);
    TurnAfterWake(n, ran(run), p, inp, r, i);
    TurnClocked(run + [Receive(Wire(p), inp)], clock + [r.now], r);
  }

  /** Between these runs the node came up from silence, and `r` then sends something old. */
  ghost predicate WakesTo(n: Node, ran: seq<Event> -> State, before: seq<Event>, after: seq<Event>, wakeAt: nat,
          r: Radio)
  {
    && RfSilent(n, ran(before), wakeAt) && !RfSilent(n, ran(after), wakeAt)
    && OldTurn(n, ran(after), r, ran(after).awakeUntil, ran(before).serial)
  }

  lemma SecondFrom(n: Node, ran: seq<Event> -> State, x: Story, run: seq<Event>, clock: seq<nat>, until: nat, i: nat)
    requires IsRan(n, ran) && Happens(n, x) && until == Until(n, x.heardA)
    requires Clocked(run, clock) && clock[|run|] == x.turn.now
    requires Attended(ran(run), until, HashOf(n, x.b), 0) && NumberedBelow(ran(run))
    requires i < Queue.SLOTS && Queue.Due(ran(run).txq, i, until - 1)
    ensures WakesTo(n, ran, run, run + [Receive(Wire(x.b), x.heardB)], x.heardB.wakeAt, x.turn)
    ensures Clocked(run + [Receive(Wire(x.b), x.heardB)] + [Transmit(x.turn)], clock + [x.turn.now] + [x.turn.now])
  {
    WakeNext(n, ran, run, clock, x.b, x.heardB, x.turn, until, i);
  }

  lemma SecondHeard(n: Node, ran: seq<Event> -> State, x: Story, until: nat, heard: seq<Event>)
    requires IsRan(n, ran) && Happens(n, x) && until == Until(n, x.heardA)
    requires heard == Blocked(x) + [Receive(Wire(x.b), x.heardB)]
    ensures Clocked(heard + [Transmit(x.turn)], BlockedTimes(x, until - 1) + [x.turn.now] + [x.turn.now])
    ensures WakesTo(n, ran, Blocked(x), heard, x.heardB.wakeAt, x.turn)
  {
    var i := BlockedLeaves(n, ran, x, until, HashOf(n, x.b));
    SecondFrom(n, ran, x, Blocked(x), BlockedTimes(x, until - 1), until, i);
  }

  lemma TurnClocked(run: seq<Event>, clock: seq<nat>, r: Radio)
    requires Clocked(run, clock) && clock[|run|] == r.now
    ensures Clocked(run + [Transmit(r)], clock + [r.now])
  {
    var all, times := run + [Transmit(r)], clock + [r.now];
    forall i | 0 <= i < |all|
      ensures times[i] <= times[i + 1] && EventFrom(all[i], times[i])
      ensures all[i].Transmit? ==> all[i].radio.now <= times[i + 1]
    {
      assert i < |run| ==> all[i] == run[i];
    }
  }

  /** The first frame, and the turns after it. */
  lemma BlockedEvents(x: Story)
    requires Sendable(x) && |x.turns| > 0
    ensures var run := Blocked(x);
            && |run| == |x.turns| + 4 && run[0] == Receive(Wire(x.a), x.heardA) && run[1] == Transmit(x.turns[0])
            && forall i :: 0 < i < |run| ==> !run[i].Receive?
    ensures forall until :: |BlockedTimes(x, until)| == |Blocked(x)| + 1 && BlockedTimes(x, until)[0] == x.turns[0].now
    ensures forall until :: BlockedTimes(x, until)[|Blocked(x)|] == x.turn.now
  {
    var run := Blocked(x);
    forall i | 0 < i < |run|
      ensures !run[i].Receive?
    {
      if i <= |x.turns| {
        assert run[i] == Transmit(x.turns[i - 1]);
      }
    }
  }

  lemma WholeServed(n: Node, x: Story, until: nat, run: seq<Event>, clock: seq<nat>)
    requires Sendable(x) && |x.turns| > 0
    requires run == Blocked(x) + [Receive(Wire(x.b), x.heardB)] + [Transmit(x.turn)]
    requires clock == BlockedTimes(x, until) + [x.turn.now] + [x.turn.now]
    ensures |clock| == |run| + 1 && ServedEach(run, clock)
  {
    BlockedEvents(x);
  }

  lemma StoryEnds(n: Node, ran: seq<Event> -> State, x: Story, until: nat, blocked: seq<Event>, run: seq<Event>,
          clock: seq<nat>)
    requires IsRan(n, ran) && Happens(n, x) && until == Until(n, x.heardA) && blocked == Blocked(x)
    requires run == blocked + [Receive(Wire(x.b), x.heardB)] + [Transmit(x.turn)]
    requires clock == BlockedTimes(x, until - 1) + [x.turn.now] + [x.turn.now]
    ensures Clocked(run, clock) && WakesFromSilence(n, run, |blocked|) && GoesOut(n, run, |blocked|)
  {
    var heard := blocked + [Receive(Wire(x.b), x.heardB)];
    SecondHeard(n, ran, x, until, heard);
    OldGoesOut(n, ran, blocked, Wire(x.b), x.heardB, x.turn);
  }

  lemma OldGoesOut(n: Node, ran: seq<Event> -> State, before: seq<Event>, raw: seq<byte>, inp: Inputs, r: Radio)
    requires IsRan(n, ran) && WakesTo(n, ran, before, before + [Receive(raw, inp)], inp.wakeAt, r)
    ensures var run := before + [Receive(raw, inp)] + [Transmit(r)];
            WakesFromSilence(n, run, |before|) && GoesOut(n, run, |before|)
  {
    var run, k := before + [Receive(raw, inp)] + [Transmit(r)], |before|;
    assert run[..k] == before && run[..k + 1] == before + [Receive(raw, inp)];
    assert ran(run[..k]) == Ran(n, run[..k]) && ran(run[..k + 1]) == Ran(n, run[..k + 1]);
    assert SendsOld(n, run, k, k + 1);
  }

  /**
   An old entry goes out, in a run of the main loop with a turn after every reception, for every hotspot, any
   two companion adverts it has not heard, and any turns in between.
   */
  lemma StaleGoesOut(n: Node, x: Story, until: nat, blocked: seq<Event>, run: seq<Event>, clock: seq<nat>)
    requires Happens(n, x) && until == Until(n, x.heardA) && blocked == Blocked(x)
    requires run == blocked + [Receive(Wire(x.b), x.heardB)] + [Transmit(x.turn)]
    requires clock == BlockedTimes(x, until - 1) + [x.turn.now] + [x.turn.now]
    ensures Clocked(run, clock) && ServedEach(run, clock)
    ensures WakesFromSilence(n, run, |blocked|) && GoesOut(n, run, |blocked|)
  {
    WholeServed(n, x, until - 1, run, clock);
    var ran := RanOf(n);
    StoryEnds(n, ran, x, until, blocked, run, clock);
  }

  function HeardAt(now: nat): Inputs {
    Inputs(Rf, 0, now, Unbuilt, Service(NoReply, false), now, 0)
  }

  /** Such a run there is for any two companion adverts and any two packets of the node's own. */
  lemma StoryExists(n: Node, a: packet, b: packet, one: packet, two: packet) returns (x: Story)
    requires n.cfg.hotspot && n.cfg.awake != 0 && Companion(n, a) && Companion(n, b)
    requires WellFormed(one) && WellFormed(two) && HashOf(n, one) != HashOf(n, b) && HashOf(n, two) != HashOf(n, b)
    requires HashOf(n, a) != Seen.ZERO && HashOf(n, b) != Seen.ZERO && HashOf(n, a) != HashOf(n, b)
    ensures Happens(n, x) && x.a == a && x.b == b && x.one.pkt == one && x.two.pkt == two
  {
    var until := n.cfg.awake * 1000;
    x := Story(a, HeardAt(0), [Radio(0, false, 0, true)], Own(one, 0, 0), Own(two, 0, 0), REPLY_PRIORITY,
               Radio(until - 1, false, 0, true), b, HeardAt(until + 1), Radio(until, false, 0, true));
  }
}
