/**
 A network of nodes: frames are heard by anyone, in any order, any number of times or never. While at
 most 160 packet hashes are in play every flood ends, whatever the topology, because no node relays a
 hash twice.
 */
module Network {

  import opened Bytes
  import opened Packet
  import opened Routes
  import opened Crypto
  import opened Mesh
  import opened Runs
  import Queue
  import Seen

  type hashes = set<Seen.hash>

  // ---------------------------------------------------------------- one node, with hashes from a set

  predicate InPlay(n: Node, p: packet, inPlay: hashes) {
    WellFormed(p) && HashOf(n, p) in inPlay
  }

  /** Whatever this node holds to send is in play. */
  predicate Stocked(n: Node, st: State, inPlay: hashes) {
    && (forall i :: 0 <= i < Queue.SLOTS && st.txq[i].Used? ==> InPlay(n, st.txq[i].entry.pkt, inPlay))
    && (forall i :: 0 <= i < |st.offers| ==> InPlay(n, st.offers[i].pkt, inPlay))
  }

  /** The window comes from offering `hs`, all in play, and `relayed` were recorded by it. */
  ghost predicate Explains(w: Seen.window, hs: seq<Seen.hash>, relayed: multiset<Seen.hash>, inPlay: hashes) {
    && w == Seen.After(Seen.Fresh(), hs) && (forall h :: h in hs ==> h in inPlay)
    && relayed <= multiset(Seen.Recorded(Seen.Fresh(), hs))
  }

  ghost predicate SeenWithin(w: Seen.window, relayed: multiset<Seen.hash>, inPlay: hashes) {
    exists hs: seq<Seen.hash> :: Explains(w, hs, relayed, inPlay)
  }

  ghost predicate NodeFine(n: Node, st: State, relayed: multiset<Seen.hash>, inPlay: hashes) {
    Stocked(n, st, inPlay) && SeenWithin(st.seen, relayed, inPlay)
  }

  lemma ExplainsMore(w: Seen.window, hs: seq<Seen.hash>, h: Seen.hash, relayed: multiset<Seen.hash>, inPlay: hashes)
    requires Explains(w, hs, relayed, inPlay) && h in inPlay
    ensures Explains(Seen.Offer(w, h), hs + [h], relayed + if h in w then multiset{} else multiset{h}, inPlay)
  {
    var more := hs + [h];
    var r := Seen.Recorded(Seen.Fresh(), hs);
    assert more[..|hs|] == hs;
    assert Seen.Recorded(Seen.Fresh(), more) == r + if h in w then [] else [h];
  }

  lemma OfferWithin(w: Seen.window, h: Seen.hash, relayed: multiset<Seen.hash>, inPlay: hashes)
    requires SeenWithin(w, relayed, inPlay) && h in inPlay
    ensures SeenWithin(Seen.Offer(w, h), relayed, inPlay)
    ensures h !in w ==> SeenWithin(Seen.Offer(w, h), relayed + multiset{h}, inPlay)
  {
    var hs: seq<Seen.hash> :| Explains(w, hs, relayed, inPlay);
    ExplainsMore(w, hs, h, relayed, inPlay);
    assert Explains(Seen.Offer(w, h), hs + [h], relayed, inPlay);
  }

  lemma EnqueuedStocked(n: Node, st: State, p: packet, o: Order, src: Source, inPlay: hashes)
    requires Stocked(n, st, inPlay) && InPlay(n, p, inPlay)
    ensures Stocked(n, Enqueued(n, st, p, o, src), inPlay)
  {
    var next := Enqueued(n, st, p, o, src);
    forall i | 0 <= i < Queue.SLOTS && next.txq[i].Used?
      ensures InPlay(n, next.txq[i].entry.pkt, inPlay)
    {
      assert next.txq[i] == st.txq[i] || next.txq[i] == Queue.Used(EntryFor(st, p, o));
    }
  }

  function PlayGood(n: Node, inPlay: hashes): Goodness {
    (p: packet, own: bool) => InPlay(n, p, inPlay)
  }

  lemma RelayInPlay(n: Node, p: packet, inPlay: hashes)
    requires InPlay(n, p, inPlay)
    ensures RelayGood(n, PlayGood(n, inPlay), p)
  {
    if WellFormed(p) && Shareable(n, p) && Route(p, n.id).Relay? {
      RelayKeeps(p, n.id);
      assert HashInput(Route(p, n.id).packet) == HashInput(p);
    }
  }

  lemma FineSteps(n: Node, relayed: multiset<Seen.hash>, inPlay: hashes)
    ensures StepsKeepBy(n, st => NodeFine(n, st, relayed, inPlay), PlayGood(n, inPlay), 0)
  {
    var keeps: Property := st => NodeFine(n, st, relayed, inPlay);
    forall st: State, p: packet | keeps(st) && PlayGood(n, inPlay)(p, true)
      ensures keeps(Recorded(n, st, p))
    {
      OfferWithin(st.seen, HashOf(n, p), relayed, inPlay);
    }
    forall st: State, p: packet, o: Order, src: Source | keeps(st) && PlayGood(n, inPlay)(p, o.own)
      ensures keeps(Enqueued(n, st, p, o, src))
    {
      EnqueuedStocked(n, st, p, o, src, inPlay);
    }
  }

  /** What a step relays: the hash of the frame received, when it was queued. */
  function RelayedBy(n: Node, st: State, ev: Event): multiset<Seen.hash> {
    if ev.Receive? && Parsed(ev.raw).Ok? && Received(n, st, ev.raw, ev.inp).1.Forwarded?
    then multiset{HashOf(n, Parsed(ev.raw).packet)} else multiset{}
  }

  /** The event brings in only what is in play. */
  predicate EventInPlay(n: Node, ev: Event, inPlay: hashes) {
    && EventFrom(ev, 0) && EventGood(ev, PlayGood(n, inPlay))
    && (ev.Receive? && Parsed(ev.raw).Ok? ==> HashOf(n, Parsed(ev.raw).packet) in inPlay)
  }

  /** A frame is relayed only when its hash was new. */
  lemma ForwardedIsNew(n: Node, st: State, raw: seq<byte>, inp: Inputs)
    requires Received(n, st, raw, inp).1.Forwarded?
    ensures Parsed(raw).Ok? && HashOf(n, Parsed(raw).packet) !in st.seen
  {
  }

  lemma BegunFine(n: Node, st: State, ev: Event, relayed: multiset<Seen.hash>, inPlay: hashes)
    requires NodeFine(n, st, relayed, inPlay) && EventInPlay(n, ev, inPlay) && ev.Receive?
    ensures NodeFine(n, Begun(n, st, ev.raw), relayed + RelayedBy(n, st, ev), inPlay)
  {
    var r := Parsed(ev.raw);
    var more := RelayedBy(n, st, ev);
    if r.Ok? {
      OfferWithin(st.seen, HashOf(n, r.packet), relayed, inPlay);
    }
    if more == multiset{} {
      assert relayed + more == relayed;
    } else {
      ForwardedIsNew(n, st, ev.raw, ev.inp);
    }
  }

  lemma ReceiveFine(n: Node, st: State, ev: Event, more: multiset<Seen.hash>, inPlay: hashes)
    requires ev.Receive? && EventInPlay(n, ev, inPlay) && NodeFine(n, Begun(n, st, ev.raw), more, inPlay)
    ensures NodeFine(n, Step(n, st, ev), more, inPlay)
  {
    FineSteps(n, more, inPlay);
    if Parsed(ev.raw).Ok? {
      ParsedIsWire(ev.raw);
      RelayInPlay(n, Parsed(ev.raw).packet, inPlay);
    }
    StepKeepsBy(n, s => NodeFine(n, s, more, inPlay), PlayGood(n, inPlay), 0, st, ev);
  }

  lemma OtherFine(n: Node, st: State, ev: Event, relayed: multiset<Seen.hash>, inPlay: hashes)
    requires NodeFine(n, st, relayed, inPlay) && EventInPlay(n, ev, inPlay) && !ev.Receive?
    ensures NodeFine(n, Step(n, st, ev), relayed, inPlay)
  {
    if !ev.Transmit? {
      FineSteps(n, relayed, inPlay);
      StepKeepsBy(n, s => NodeFine(n, s, relayed, inPlay), PlayGood(n, inPlay), 0, st, ev);
    }
  }

  lemma StepFine(n: Node, st: State, ev: Event, relayed: multiset<Seen.hash>, inPlay: hashes)
    requires NodeFine(n, st, relayed, inPlay) && EventInPlay(n, ev, inPlay)
    ensures NodeFine(n, Step(n, st, ev), relayed + RelayedBy(n, st, ev), inPlay)
  {
    if ev.Receive? {
      BegunFine(n, st, ev, relayed, inPlay);
      ReceiveFine(n, st, ev, relayed + RelayedBy(n, st, ev), inPlay);
    } else {
      OtherFine(n, st, ev, relayed, inPlay);
      assert relayed + RelayedBy(n, st, ev) == relayed;
    }
  }

  /** With at most 160 hashes in play a node has relayed each at most once. */
  lemma RelayedOnce(n: Node, st: State, relayed: multiset<Seen.hash>, inPlay: hashes)
    requires NodeFine(n, st, relayed, inPlay) && |inPlay| <= Seen.SIZE
    ensures (forall h :: relayed[h] <= 1) && |relayed| <= |inPlay|
  {
    var w := Seen.Fresh();
    var hs: seq<Seen.hash> :| Explains(st.seen, hs, relayed, inPlay);
    Seen.RecordedOnce(w, hs, inPlay);
    var r := Seen.Recorded(w, hs);
    DistinctBag(r);
    SubBag(relayed, multiset(r));
  }

  lemma {:induction false} DistinctBag<T>(r: seq<T>)
    requires forall i, j :: 0 <= i < j < |r| ==> r[i] != r[j]
    ensures forall x :: multiset(r)[x] <= 1
    decreases |r|
  {
    if |r| > 0 {
      var last := |r| - 1;
      DistinctBag(r[..last]);
      assert r == r[..last] + [r[last]];
      assert r[last] !in r[..last];
    }
  }

  lemma SubBag<T>(a: multiset<T>, b: multiset<T>)
    requires a <= b
    ensures |a| <= |b|
  {
    assert b == a + (b - a);
  }

  // ---------------------------------------------------------------- the network

  /**
   The nodes' states, the frames that can be heard, and what each node has relayed. A frame stays in `air`
   once it is there: it may be heard late, repeatedly, out of order or by nobody.
   */
  datatype Net = Net(states: seq<State>, air: set<seq<byte>>, relayed: seq<multiset<Seen.hash>>)

  /** A station outside the network sends a frame, or something happens at node i. */
  datatype Action = Inject(frame: seq<byte>) | At(i: nat, ev: Event)

  function Start(nodes: seq<Node>): Net {
    Net(seq(|nodes|, _ => Initial()), {}, seq(|nodes|, _ => multiset{}))
  }

  predicate Shaped(nodes: seq<Node>, net: Net) {
    |net.states| == |net.relayed| == |nodes|
  }

  /** What a step puts where others can hear it: the packet transmitted, and what is offered to the hub. */
  function Emitted(n: Node, st: State, ev: Event): set<seq<byte>> {
    var next := Step(n, st, ev);
    var onAir := if ev.Transmit? then
        var turn := Transmitted(n, st, ev.radio).1;
        if (turn.Sent? || turn.Failed?) && ValidPathLen(turn.entry.pkt.pathLen) then {Wire(turn.entry.pkt)} else {}
      else {};
    onAir + set o | o in next.offers && ValidPathLen(o.pkt.pathLen) :: Wire(o.pkt)
  }

  function Next(nodes: seq<Node>, net: Net, a: Action): Net
    requires Shaped(nodes, net)
  {
    match a
    case Inject(frame) => net.(air := net.air + {frame})
    case At(i, ev) =>
      if i >= |nodes| then net
      else
        Net(net.states[i := Step(nodes[i], net.states[i], ev)],
            net.air + Emitted(nodes[i], net.states[i], ev),
            net.relayed[i := net.relayed[i] + RelayedBy(nodes[i], net.states[i], ev)])
  }

  /** What is heard is on the air, and what comes from outside or is a node's own is in play. */
  predicate Allowed(nodes: seq<Node>, net: Net, a: Action, inPlay: hashes)
    requires Shaped(nodes, net)
  {
    match a
    case Inject(frame) =>
      forall i :: 0 <= i < |nodes| && Parsed(frame).Ok? ==> HashOf(nodes[i], Parsed(frame).packet) in inPlay
    case At(i, ev) =>
      i < |nodes| ==>
        EventFrom(ev, 0) && EventGood(ev, PlayGood(nodes[i], inPlay)) && (ev.Receive? ==> ev.raw in net.air)
  }

  function After(nodes: seq<Node>, run: seq<Action>): (net: Net)
    ensures Shaped(nodes, net)
    decreases |run|
  {
    if |run| == 0 then Start(nodes) else Next(nodes, After(nodes, run[..|run| - 1]), run[|run| - 1])
  }

  predicate AllAllowed(nodes: seq<Node>, run: seq<Action>, inPlay: hashes) {
    forall k :: 0 <= k < |run| ==> Allowed(nodes, After(nodes, run[..k]), run[k], inPlay)
  }

  /** The nodes hash alike. */
  ghost predicate HashAlike(nodes: seq<Node>) {
    forall i, j :: 0 <= i < |nodes| && 0 <= j < |nodes| ==> nodes[i].suite == nodes[j].suite
  }

  predicate FrameInPlay(nodes: seq<Node>, frame: seq<byte>, inPlay: hashes) {
    Parsed(frame).Ok? ==> forall i :: 0 <= i < |nodes| ==> HashOf(nodes[i], Parsed(frame).packet) in inPlay
  }

  ghost predicate NetFine(nodes: seq<Node>, net: Net, inPlay: hashes) {
    && Shaped(nodes, net)
    && (forall f :: f in net.air ==> FrameInPlay(nodes, f, inPlay))
    && (forall i :: 0 <= i < |nodes| ==> NodeFine(nodes[i], net.states[i], net.relayed[i], inPlay))
  }

  lemma WireInPlay(nodes: seq<Node>, i: nat, p: packet, inPlay: hashes)
    requires HashAlike(nodes) && i < |nodes| && InPlay(nodes[i], p, inPlay)
    ensures FrameInPlay(nodes, Wire(p), inPlay)
  {
    WireArrives(p);
    assert HashInput(Canon(p)) == HashInput(p);
    forall j | 0 <= j < |nodes|
      ensures HashOf(nodes[j], Canon(p)) in inPlay
    {
      assert nodes[i].suite == nodes[j].suite;
    }
  }

  lemma EmittedInPlay(nodes: seq<Node>, i: nat, st: State, ev: Event, inPlay: hashes)
    requires HashAlike(nodes) && i < |nodes|
    requires Stocked(nodes[i], st, inPlay) && Stocked(nodes[i], Step(nodes[i], st, ev), inPlay)
    ensures forall f :: f in Emitted(nodes[i], st, ev) ==> FrameInPlay(nodes, f, inPlay)
  {
    var n := nodes[i];
    var next := Step(n, st, ev);
    forall f | f in Emitted(n, st, ev)
      ensures FrameInPlay(nodes, f, inPlay)
    {
      if m :| 0 <= m < |next.offers| && f == Wire(next.offers[m].pkt) {
        WireInPlay(nodes, i, next.offers[m].pkt, inPlay);
      } else {
        var turn := Transmitted(n, st, ev.radio).1;
        WireInPlay(nodes, i, turn.entry.pkt, inPlay);
      }
    }
  }

  lemma NextFine(nodes: seq<Node>, net: Net, a: Action, inPlay: hashes)
    requires HashAlike(nodes) && NetFine(nodes, net, inPlay) && Allowed(nodes, net, a, inPlay)
    ensures NetFine(nodes, Next(nodes, net, a), inPlay)
  {
    if a.At? && a.i < |nodes| {
      var n, st := nodes[a.i], net.states[a.i];
      assert EventInPlay(n, a.ev, inPlay) by {
        if a.ev.Receive? {
          assert FrameInPlay(nodes, a.ev.raw, inPlay);
        }
      }
      StepFine(n, st, a.ev, net.relayed[a.i], inPlay);
      EmittedInPlay(nodes, a.i, st, a.ev, inPlay);
    }
  }

  lemma StartFine(nodes: seq<Node>, inPlay: hashes)
    ensures NetFine(nodes, Start(nodes), inPlay)
  {
    assert Explains(Seen.Fresh(), [], multiset{}, inPlay);
  }

  lemma {:induction false} RunFine(nodes: seq<Node>, run: seq<Action>, inPlay: hashes)
    requires HashAlike(nodes) && AllAllowed(nodes, run, inPlay)
    ensures NetFine(nodes, After(nodes, run), inPlay)
    decreases |run|
  {
    if |run| == 0 {
      StartFine(nodes, inPlay);
    } else {
      var k := |run| - 1;
      forall m | 0 <= m < k
        ensures Allowed(nodes, After(nodes, run[..k][..m]), run[..k][m], inPlay)
      {
        assert run[..k][..m] == run[..m];
      }
      RunFine(nodes, run[..k], inPlay);
      NextFine(nodes, After(nodes, run[..k]), run[k], inPlay);
    }
  }

  function Total(relayed: seq<multiset<Seen.hash>>): nat
    decreases |relayed|
  {
    if |relayed| == 0 then 0 else Total(relayed[..|relayed| - 1]) + |relayed[|relayed| - 1]|
  }

  lemma {:induction false} TotalBound(relayed: seq<multiset<Seen.hash>>, bound: nat)
    requires forall i :: 0 <= i < |relayed| ==> |relayed[i]| <= bound
    ensures Total(relayed) <= bound * |relayed|
    decreases |relayed|
  {
    if |relayed| > 0 {
      var k := |relayed| - 1;
      TotalBound(relayed[..k], bound);
      assert bound * |relayed| == bound * k + bound;
    }
  }

  /**
   Floods end: in every run with at most 160 hashes in play, each node relays each hash at most once, and
   N nodes make at most 160 N relays.
   */
  lemma FloodsEnd(nodes: seq<Node>, run: seq<Action>, inPlay: hashes)
    requires HashAlike(nodes) && |inPlay| <= 160 && AllAllowed(nodes, run, inPlay)
    ensures var net := After(nodes, run);
            && (forall i, h :: 0 <= i < |nodes| ==> net.relayed[i][h] <= 1)
            && Total(net.relayed) <= 160 * |nodes|
  {
    RunFine(nodes, run, inPlay);
    var net := After(nodes, run);
    forall i | 0 <= i < |nodes|
      ensures (forall h :: net.relayed[i][h] <= 1) && |net.relayed[i]| <= 160
    {
      RelayedOnce(nodes[i], net.states[i], net.relayed[i], inPlay);
    }
    TotalBound(net.relayed, 160);
  }

  /** Frames sent in from outside with one of these hashes, as the program computes it. */
  predicate InjectsOnly(run: seq<Action>, inPlay: hashes) {
    forall k :: 0 <= k < |run| && run[k].Inject? && Parsed(run[k].frame).Ok? ==>
      DedupHash(Parsed(run[k].frame).packet) in inPlay
  }

  /**
   With the program's own hash: every frame from outside hashes into the set of at most 160 by SHA-256, and
   floods end.
   */
  lemma FloodsEndHere(nodes: seq<Node>, run: seq<Action>, inPlay: hashes)
    requires |nodes| > 0 && forall i :: 0 <= i < |nodes| ==> nodes[i].suite == Real()
    requires |inPlay| <= 160 && AllAllowed(nodes, run, inPlay)
    ensures InjectsOnly(run, inPlay)
    ensures var net := After(nodes, run);
            && (forall i, h :: 0 <= i < |nodes| ==> net.relayed[i][h] <= 1)
            && Total(net.relayed) <= 160 * |nodes|
  {
    forall k | 0 <= k < |run| && run[k].Inject? && Parsed(run[k].frame).Ok?
      ensures DedupHash(Parsed(run[k].frame).packet) in inPlay
    {
      assert Allowed(nodes, After(nodes, run[..k]), run[k], inPlay);
      HashOfIs(nodes[0], Parsed(run[k].frame).packet);
    }
    FloodsEnd(nodes, run, inPlay);
  }
}
