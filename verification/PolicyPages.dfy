/**
 Collecting the pages of a policy: pages arrive in any order, some more than once, some never, some of an
 older version late. At every moment one complete version is in force.
 */
module PolicyPages {

  import opened Bytes
  import opened Bitwise
  import opened Numerals
  import opened Policy
  import opened Replay
  import Packet

  const MAX_PAGES: nat := 16

  // ---------------------------------------------------------------- messages

  /** A well-formed page, and the sequence number of the datagram it came in. */
  datatype Message = Message(number: nat, version: nat, page: nat, pages: nat, entries: text)

  predicate GoodMessage(m: Message) {
    && m.number > 0 && m.version > 0 && 1 <= m.page <= m.pages <= MAX_PAGES && WellFormed(m.entries)
  }

  datatype Parsed = Page(m: Message) | Bad

  /** Version, page, number of pages, entries. */
  function Parse(number: nat, body: text): Parsed {
    if |body| < 6 then Bad
    else
      var m := Message(number, Packet.Word32(body[..4]), body[4], body[5], body[6..]);
      if m.version == 0 || m.pages == 0 || m.pages > MAX_PAGES || m.page == 0 || m.page > m.pages
         || !WellFormed(m.entries)
      then Bad else Page(m)
  }

  /** The body the hub sends for a page: the version, little end first, the page, their number, the entries. */
  function Body(version: nat, page: byte, pages: byte, entries: text): text
    requires version < 0x1_0000_0000
  {
    Packet.Le32(version) + [page, pages] + entries
  }

  /** A version from 1 up in 32 bits, a page of at most 16, entries that end within it. */
  predicate Sendable(version: nat, page: nat, pages: nat, entries: text) {
    0 < version < 0x1_0000_0000 && 1 <= page <= pages <= 16 && WellFormed(entries)
  }

  /** A body parses to a page exactly when it is the body sent for that page. */
  lemma ParsesIff(number: nat, body: text, m: Message)
    ensures Parse(number, body) == Page(m)
       <==> (m.number == number && Sendable(m.version, m.page, m.pages, m.entries)
             && body == Body(m.version, m.page, m.pages, m.entries))
  {
    if Sendable(m.version, m.page, m.pages, m.entries) && body == Body(m.version, m.page, m.pages, m.entries) {
      Packet.Word32Le32(m.version);
      assert body[..4] == Packet.Le32(m.version) && body[4] as int == m.page && body[5] as int == m.pages;
      assert body[6..] == m.entries;
    }
    if Parse(number, body) == Page(m) {
      Packet.Le32Word32(body[..4]);
      assert body == body[..4] + [body[4], body[5]] + body[6..];
    }
  }

  // ---------------------------------------------------------------- the collector

  /**
   `pages` is 0 when nothing is being collected; flag i of `have` says that page i + 1 is held; `applied`
   is the lowest number of the set applied last in this session, 0 before the first.
   */
  datatype Collector = Collector(
    pol: Policy, pages: nat, have: nat, lowest: nat, highest: nat, applied: nat, inForce: Policy)

  predicate Stale(c: Collector, m: Message) {
    c.applied != 0 && m.number < c.applied
  }

  predicate OtherSet(c: Collector, m: Message) {
    c.pages != 0 && (m.version != c.pol.version || m.pages != c.pages)
  }

  predicate Refused(c: Collector, m: Message) {
    Stale(c, m) || (OtherSet(c, m) && m.number <= c.highest)
  }

  /** The set the page belongs to: the one being collected, or a new one. */
  function Begun(c: Collector, m: Message): Collector {
    if c.pages == 0 || OtherSet(c, m)
    then c.(pol := Fresh(m.version), pages := m.pages, have := 0, lowest := m.number, highest := m.number)
    else c
  }

  function Added(c: Collector, m: Message): Collector
    requires GoodMessage(m)
  {
    c.(pol := AddAll(c.pol, Items(m.entries)), have := WithBit(c.have, m.page - 1),
       lowest := if m.number < c.lowest then m.number else c.lowest,
       highest := if m.number > c.highest then m.number else c.highest)
  }

  predicate IsFull(c: Collector) {
    c.have == Pow2(c.pages) - 1
  }

  /** The collected set comes into force, unless its version is in force already. */
  function Applied(c: Collector): Collector {
    c.(applied := c.lowest, pages := 0, inForce := if c.pol.version != c.inForce.version then c.pol else c.inForce)
  }

  function On(c: Collector, m: Message): Collector
    requires GoodMessage(m)
  {
    if Refused(c, m) then c
    else
      var b := Begun(c, m);
      if Bit(b.have, m.page - 1) then b
      else
        var a := Added(b, m);
        if IsFull(a) then Applied(a) else a
  }

  /** A new session collects afresh; what is in force stays. */
  function Start(c: Collector): Collector {
    c.(pages := 0, applied := 0)
  }

  // ---------------------------------------------------------------- the hub

  /** The pages of each version. */
  type Hub = nat -> seq<text>

  predicate FromHub(h: Hub, m: Message) {
    GoodMessage(m) && m.pages == |h(m.version)| && m.entries == h(m.version)[m.page - 1]
  }

  /** When versions were made: a later version is sent with higher numbers only. */
  type Era = nat -> nat

  ghost predicate Distinct(era: Era) {
    forall v, w {:trigger era(v), era(w)} :: era(v) == era(w) ==> v == w
  }

  predicate LaterHigher(era: Era, a: Message, b: Message) {
    era(a.version) < era(b.version) ==> a.number < b.number
  }

  /** What one session delivers: any of the hub's pages, in any order, any number of times. */
  predicate Deliverable(h: Hub, era: Era, run: seq<Message>) {
    && (forall i :: 0 <= i < |run| ==> FromHub(h, run[i]))
    && forall i, j :: 0 <= i < |run| && 0 <= j < |run| ==> LaterHigher(era, run[i], run[j])
  }

  // ---------------------------------------------------------------- complete sets

  /** Pages of this version, all well formed. */
  predicate Readable(pages: seq<text>, order: seq<nat>) {
    forall i :: 0 <= i < |order| ==> order[i] < |pages| && WellFormed(pages[order[i]])
  }

  /** The entries of some pages of a version, in the order given. */
  function EntriesOf(pages: seq<text>, order: seq<nat>): seq<Item>
    requires Readable(pages, order)
    decreases |order|
  {
    if |order| == 0 then []
    else EntriesOf(pages, order[..|order| - 1]) + Items(pages[order[|order| - 1]])
  }

  /** Each page at most once. */
  predicate PageOrder(pages: seq<text>, order: seq<nat>) {
    && Readable(pages, order)
    && forall i, j :: 0 <= i < j < |order| ==> order[i] != order[j]
  }

  predicate Assembled(h: Hub, p: Policy, order: seq<nat>) {
    PageOrder(h(p.version), order) && p == AddAll(Fresh(p.version), EntriesOf(h(p.version), order))
  }

  /** The set of one version: every page of it, each once, in some order. */
  ghost predicate Complete(h: Hub, p: Policy) {
    exists order: seq<nat> :: |order| == |h(p.version)| && Assembled(h, p, order)
  }

  lemma AssembledNext(h: Hub, p: Policy, order: seq<nat>, page: nat)
    requires Assembled(h, p, order) && page !in order && page < |h(p.version)| && WellFormed(h(p.version)[page])
    ensures var q := AddAll(p, Items(h(p.version)[page])); q.version == p.version && Assembled(h, q, order + [page])
  {
    var pages := h(p.version);
    var more := order + [page];
    assert more[..|order|] == order;
    AddAllConcat(Fresh(p.version), EntriesOf(pages, order), Items(pages[page]));
    AddAllVersion(p, Items(pages[page]));
  }

  // ---------------------------------------------------------------- what holds throughout a session

  /** What is collected are the pages flagged, of a version of the hub's, not all of them yet. */
  ghost predicate Collecting(h: Hub, c: Collector, order: seq<nat>) {
    && c.pages == |h(c.pol.version)| && c.pol.version > 0 && Assembled(h, c.pol, order) && c.have < Pow2(c.pages)
    && Flags(c.have, c.pages, order)
  }

  /** The flags set are those of the pages in `order`. */
  ghost predicate Flags(have: nat, pages: nat, order: seq<nat>) {
    forall i: nat {:trigger Bit(have, i)} :: i < pages ==> (Bit(have, i) <==> i in order)
  }

  ghost predicate CollectionGood(h: Hub, c: Collector) {
    c.pages != 0 ==> exists order: seq<nat> :: Collecting(h, c, order)
  }

  /** A message of this version and number was delivered. */
  predicate Heard(run: seq<Message>, version: nat, number: nat) {
    exists i :: 0 <= i < |run| && run[i].version == version && run[i].number == number
  }

  ghost predicate NumbersGood(run: seq<Message>, era: Era, c: Collector) {
    && (c.pages != 0 ==> Heard(run, c.pol.version, c.lowest) && Heard(run, c.pol.version, c.highest))
    && (c.applied != 0 ==> Heard(run, c.inForce.version, c.applied))
    && (c.applied != 0 && c.pages != 0 ==> era(c.inForce.version) <= era(c.pol.version))
  }

  /**
   The message adds nothing: its version is in force or older, or older than the one collected, or its page
   is held.
   */
  predicate Accounted(era: Era, c: Collector, m: Message) {
    || (c.applied != 0 && era(m.version) <= era(c.inForce.version))
    || (c.pages != 0 && era(m.version) < era(c.pol.version))
    || (c.pages != 0 && m.version == c.pol.version && 1 <= m.page && Bit(c.have, m.page - 1))
  }

  predicate AllAccounted(run: seq<Message>, era: Era, c: Collector) {
    forall i :: 0 <= i < |run| ==> Accounted(era, c, run[i])
  }

  ghost predicate Invariant(h: Hub, era: Era, run: seq<Message>, c: Collector) {
    CollectionGood(h, c) && NumbersGood(run, era, c) && AllAccounted(run, era, c) && (c.pages != 0 ==> !IsFull(c))
    && (c.inForce.version != 0 ==> Complete(h, c.inForce))
  }

  lemma HeardMore(run: seq<Message>, m: Message, version: nat, number: nat)
    requires Heard(run, version, number)
    ensures Heard(run + [m], version, number)
  {
    var i :| 0 <= i < |run| && run[i].version == version && run[i].number == number;
    assert (run + [m])[i] == run[i];
  }

  lemma HeardLast(run: seq<Message>, m: Message)
    ensures Heard(run + [m], m.version, m.number)
  {
    assert (run + [m])[|run|] == m;
  }

  /** A page from the hub with a lower number than one heard of version v is not of a later version. */
  lemma LowerIsOlder(h: Hub, era: Era, run: seq<Message>, m: Message, v: nat, number: nat)
    requires Deliverable(h, era, run + [m]) && Heard(run, v, number)
    ensures m.number <= number ==> era(m.version) <= era(v)
    ensures m.number >= number ==> era(v) <= era(m.version)
  {
    var i :| 0 <= i < |run| && run[i].version == v && run[i].number == number;
    var all := run + [m];
    assert LaterHigher(era, all[i], all[|run|]) && LaterHigher(era, all[|run|], all[i]);
  }

  /** A refused page adds nothing. */
  lemma RefusedKeeps(h: Hub, era: Era, run: seq<Message>, m: Message, c: Collector)
    requires Distinct(era) && Deliverable(h, era, run + [m]) && Invariant(h, era, run, c) && Refused(c, m)
    ensures Invariant(h, era, run + [m], c)
  {
    var all := run + [m];
    assert all[|run|] == m;
    if c.pages != 0 {
      HeardMore(run, m, c.pol.version, c.lowest);
      HeardMore(run, m, c.pol.version, c.highest);
    }
    if c.applied != 0 {
      HeardMore(run, m, c.inForce.version, c.applied);
    }
    assert Accounted(era, c, m) by {
      if Stale(c, m) {
        LowerIsOlder(h, era, run, m, c.inForce.version, c.applied);
      } else {
        LowerIsOlder(h, era, run, m, c.pol.version, c.highest);
        assert era(m.version) == era(c.pol.version) ==> m.version == c.pol.version;
      }
    }
    forall i | 0 <= i < |all|
      ensures Accounted(era, c, all[i])
    {
      assert i < |run| ==> all[i] == run[i];
    }
  }

  /** Between starting a set and adding the page: as in the invariant, but the page is not accounted for yet. */
  ghost predicate Ready(h: Hub, era: Era, run: seq<Message>, c: Collector, m: Message) {
    && c.pages != 0 && c.pol.version == m.version && c.pages == m.pages
    && CollectionGood(h, c) && AllAccounted(run, era, c) && (c.inForce.version != 0 ==> Complete(h, c.inForce))
    && NumbersGood(run + [m], era, c)
  }

  lemma FreshCollection(h: Hub, c: Collector, m: Message)
    requires FromHub(h, m) && c.pol == Fresh(m.version) && c.pages == m.pages && c.have == 0
    ensures Collecting(h, c, [])
  {
    forall i: nat | i < c.pages
      ensures !Bit(c.have, i)
    {
      BitOfZero(i);
    }
  }

  /** A page that is not refused belongs to a version at least as new as the one in force. */
  lemma NotOlder(h: Hub, era: Era, run: seq<Message>, m: Message, c: Collector)
    requires Deliverable(h, era, run + [m]) && NumbersGood(run, era, c) && !Stale(c, m)
    ensures c.applied != 0 ==> era(c.inForce.version) <= era(m.version)
  {
    if c.applied != 0 {
      LowerIsOlder(h, era, run, m, c.inForce.version, c.applied);
    }
  }

  lemma BegunReady(h: Hub, era: Era, run: seq<Message>, m: Message, c: Collector)
    requires Distinct(era) && Deliverable(h, era, run + [m]) && Invariant(h, era, run, c) && !Refused(c, m)
    ensures Ready(h, era, run, Begun(c, m), m)
  {
    var b := Begun(c, m);
    assert (run + [m])[|run|] == m;
    NotOlder(h, era, run, m, c);
    HeardLast(run, m);
    if c.applied != 0 {
      HeardMore(run, m, c.inForce.version, c.applied);
    }
    if c.pages == 0 || OtherSet(c, m) {
      FreshCollection(h, b, m);
      if c.pages != 0 {
        LowerIsOlder(h, era, run, m, c.pol.version, c.highest);
        assert era(c.pol.version) == era(m.version) ==> c.pol.version == m.version;
        var order: seq<nat> :| Collecting(h, c, order);
      }
      forall i | 0 <= i < |run|
        ensures Accounted(era, b, run[i])
      {
        assert Accounted(era, c, run[i]);
      }
    } else {
      HeardMore(run, m, c.pol.version, c.lowest);
      HeardMore(run, m, c.pol.version, c.highest);
    }
  }

  lemma FlagAdded(have: nat, pages: nat, page: nat, order: seq<nat>)
    requires Flags(have, pages, order)
    ensures Flags(WithBit(have, page), pages, order + [page])
  {
    forall i: nat | i < pages
      ensures Bit(WithBit(have, page), i) <==> i in order + [page]
    {
      BitSet(have, page, i);
    }
  }

  lemma NotInOrder(have: nat, pages: nat, order: seq<nat>, page: nat)
    requires Flags(have, pages, order) && page < pages && !Bit(have, page)
    ensures page !in order
  {
  }

  lemma AddedCollecting(h: Hub, c: Collector, m: Message, order: seq<nat>)
    requires FromHub(h, m) && Collecting(h, c, order) && c.pol.version == m.version && !Bit(c.have, m.page - 1)
    ensures Collecting(h, Added(c, m), order + [m.page - 1])
  {
    var a, page := Added(c, m), m.page - 1;
    assert Flags(a.have, a.pages, order + [page]) by {
      FlagAdded(c.have, c.pages, page, order);
    }
    assert a.have < Pow2(a.pages) by {
      BitSetRange(c.have, page, c.pages);
    }
    assert page !in order by {
      NotInOrder(c.have, c.pages, order, page);
    }
    AssembledNext(h, c.pol, order, page);
  }

  lemma AddedAccounted(h: Hub, era: Era, run: seq<Message>, m: Message, c: Collector)
    requires GoodMessage(m) && c.pages != 0 && c.pol.version == m.version && AllAccounted(run, era, c)
    ensures AllAccounted(run + [m], era, Added(c, m))
  {
    var a := Added(c, m);
    AddAllVersion(c.pol, Items(m.entries));
    forall i | 0 <= i < |run + [m]|
      ensures Accounted(era, a, (run + [m])[i])
    {
      var x := (run + [m])[i];
      BitSet(c.have, m.page - 1, if x.page >= 1 then x.page - 1 else 0);
      if i < |run| {
        assert Accounted(era, c, run[i]);
      }
    }
  }

  lemma AddedNumbers(era: Era, run: seq<Message>, m: Message, c: Collector)
    requires GoodMessage(m) && c.pages != 0 && c.pol.version == m.version && NumbersGood(run + [m], era, c)
    ensures NumbersGood(run + [m], era, Added(c, m))
  {
    AddAllVersion(c.pol, Items(m.entries));
    HeardLast(run, m);
  }

  lemma AddedGood(h: Hub, era: Era, run: seq<Message>, m: Message, c: Collector)
    requires FromHub(h, m) && Ready(h, era, run, c, m) && !Bit(c.have, m.page - 1)
    ensures var a := Added(c, m);
            CollectionGood(h, a) && NumbersGood(run + [m], era, a) && AllAccounted(run + [m], era, a)
  {
    var order: seq<nat> :| Collecting(h, c, order);
    AddedCollecting(h, c, m, order);
    AddedNumbers(era, run, m, c);
    AddedAccounted(h, era, run, m, c);
  }

  lemma {:induction false} DistinctFits(order: seq<nat>, s: set<nat>)
    requires forall i, j :: 0 <= i < j < |order| ==> order[i] != order[j]
    requires forall x :: x in order ==> x in s
    ensures |order| <= |s| && (|order| == |s| ==> forall x :: x in s ==> x in order)
    decreases |order|
  {
    if |order| > 0 {
      var last := |order| - 1;
      var front := order[..last];
      assert order[last] !in front;
      assert order[last] in s;
      DistinctFits(front, s - {order[last]});
      assert order == front + [order[last]];
    } else if |s| == 0 {
      assert s == {};
    }
  }

  lemma {:induction false} CoverSize(order: seq<nat>, s: set<nat>)
    requires forall x :: x in s ==> x in order
    ensures |s| <= |order|
    decreases |order|
  {
    if |order| > 0 {
      var last := |order| - 1;
      forall x | x in s - {order[last]}
        ensures x in order[..last]
      {
      }
      CoverSize(order[..last], s - {order[last]});
    } else {
      assert s == {};
    }
  }

  function Below(n: nat): (s: set<nat>)
    ensures |s| == n && forall x: nat :: x in s <==> x < n
    decreases n
  {
    if n == 0 then {} else Below(n - 1) + {n - 1}
  }

  /** Different numbers below n: n of them exactly when every number below n is among them. */
  lemma DistinctBelow(order: seq<nat>, n: nat)
    requires forall i :: 0 <= i < |order| ==> order[i] < n
    requires forall i, j :: 0 <= i < j < |order| ==> order[i] != order[j]
    ensures |order| <= n && (|order| == n <==> forall x :: 0 <= x < n ==> x in order)
  {
    DistinctFits(order, Below(n));
    if forall x :: 0 <= x < n ==> x in order {
      CoverSize(order, Below(n));
    }
  }

  /** A set all of whose pages are flagged is complete. */
  lemma FullIsComplete(h: Hub, c: Collector)
    requires c.pages != 0 && CollectionGood(h, c) && IsFull(c)
    ensures Complete(h, c.pol) && c.pol.version > 0
  {
    var order: seq<nat> :| Collecting(h, c, order);
    forall x | 0 <= x < c.pages
      ensures x in order
    {
      OnesBit(c.pages, x);
    }
    DistinctBelow(order, c.pages);
  }

  /** Bringing a full set into force keeps the invariant. */
  lemma AppliedKeeps(h: Hub, era: Era, all: seq<Message>, c: Collector)
    requires c.pages != 0 && IsFull(c) && CollectionGood(h, c) && NumbersGood(all, era, c) && AllAccounted(all, era, c)
    requires (forall i :: 0 <= i < |all| ==> all[i].number > 0) && (c.inForce.version != 0 ==> Complete(h, c.inForce))
    ensures Invariant(h, era, all, Applied(c))
  {
    FullIsComplete(h, c);
    var a := Applied(c);
    forall i | 0 <= i < |all|
      ensures Accounted(era, a, all[i])
    {
      assert Accounted(era, c, all[i]);
    }
  }

  /** Every page keeps the invariant. */
  lemma OnKeeps(h: Hub, era: Era, run: seq<Message>, m: Message, c: Collector)
    requires Distinct(era) && Deliverable(h, era, run + [m]) && Invariant(h, era, run, c) && FromHub(h, m)
    ensures Invariant(h, era, run + [m], On(c, m))
  {
    if Refused(c, m) {
      RefusedKeeps(h, era, run, m, c);
    } else {
      BegunReady(h, era, run, m, c);
      var b := Begun(c, m);
      if Bit(b.have, m.page - 1) {
        HeldKeeps(h, era, run, m, c, b);
      } else {
        AddedGood(h, era, run, m, b);
        var a := Added(b, m);
        if IsFull(a) {
          forall i | 0 <= i < |run + [m]|
            ensures (run + [m])[i].number > 0
          {
            assert FromHub(h, (run + [m])[i]);
          }
          AppliedKeeps(h, era, run + [m], a);
        }
      }
    }
  }

  lemma HeldKeeps(h: Hub, era: Era, run: seq<Message>, m: Message, c: Collector, b: Collector)
    requires Invariant(h, era, run, c) && b == Begun(c, m) && Ready(h, era, run, b, m) && FromHub(h, m)
    requires Bit(b.have, m.page - 1)
    ensures Invariant(h, era, run + [m], b)
  {
    BitOfZero(m.page - 1);
    assert b == c;
    forall i | 0 <= i < |run + [m]|
      ensures Accounted(era, b, (run + [m])[i])
    {
      if i < |run| {
        assert (run + [m])[i] == run[i];
      }
    }
  }

  // ---------------------------------------------------------------- sessions

  /** The collector after the pages of a session that began with `c`. */
  function After(c: Collector, run: seq<Message>): Collector
    requires forall i :: 0 <= i < |run| ==> GoodMessage(run[i])
    decreases |run|
  {
    if |run| == 0 then Start(c) else On(After(c, run[..|run| - 1]), run[|run| - 1])
  }

  /** What an earlier session left in force was complete. */
  ghost predicate GoodStart(h: Hub, c: Collector) {
    c.inForce.version != 0 ==> Complete(h, c.inForce)
  }

  lemma {:induction false} InvariantHolds(h: Hub, era: Era, c: Collector, run: seq<Message>)
    requires Distinct(era) && Deliverable(h, era, run) && GoodStart(h, c)
    ensures forall i :: 0 <= i < |run| ==> GoodMessage(run[i])
    ensures Invariant(h, era, run, After(c, run))
    decreases |run|
  {
    forall i | 0 <= i < |run|
      ensures GoodMessage(run[i])
    {
      assert FromHub(h, run[i]);
    }
    if |run| > 0 {
      var k := |run| - 1;
      assert run == run[..k] + [run[k]];
      forall i, j | 0 <= i < k && 0 <= j < k
        ensures LaterHigher(era, run[..k][i], run[..k][j])
      {
        assert LaterHigher(era, run[i], run[j]);
      }
      InvariantHolds(h, era, c, run[..k]);
      OnKeeps(h, era, run[..k], run[k], After(c, run[..k]));
    }
  }

  /** At every moment what is in force is one complete version. */
  lemma OneCompleteVersion(h: Hub, era: Era, c: Collector, run: seq<Message>)
    requires Distinct(era) && Deliverable(h, era, run) && GoodStart(h, c)
    ensures forall i :: 0 <= i < |run| ==> GoodMessage(run[i])
    ensures var p := After(c, run).inForce; p.version != 0 ==> Complete(h, p)
  {
    InvariantHolds(h, era, c, run);
  }

  lemma CompletesForward(h: Hub, era: Era, run: seq<Message>, m: Message, c: Collector)
    requires FromHub(h, m) && Ready(h, era, run, c, m) && !Bit(c.have, m.page - 1)
    requires c.applied != 0 ==> m.number >= c.applied && c.lowest >= c.applied
    ensures var a := Added(c, m);
            c.applied != 0 ==>
              Applied(a).applied >= c.applied && era(Applied(a).inForce.version) >= era(c.inForce.version)
  {
    AddAllVersion(c.pol, Items(m.entries));
  }

  /** Every number collected is at least that of the set in force. */
  predicate NumbersAfter(c: Collector) {
    c.applied != 0 && c.pages != 0 ==> c.lowest >= c.applied
  }

  lemma {:induction false} NumbersStayAfter(c: Collector, run: seq<Message>)
    requires forall i :: 0 <= i < |run| ==> GoodMessage(run[i])
    ensures NumbersAfter(After(c, run))
    decreases |run|
  {
    if |run| > 0 {
      NumbersStayAfter(c, run[..|run| - 1]);
    }
  }

  /** Once a version has come into force in a session, a page only ever brings in a later one. */
  lemma NeverBackwards(h: Hub, era: Era, c: Collector, run: seq<Message>, m: Message)
    requires Distinct(era) && Deliverable(h, era, run + [m]) && GoodStart(h, c) && FromHub(h, m)
    requires Deliverable(h, era, run)
    ensures forall i :: 0 <= i < |run| ==> GoodMessage(run[i])
    ensures var before := After(c, run);
            before.applied != 0 ==> On(before, m).applied >= before.applied
                                    && era(On(before, m).inForce.version) >= era(before.inForce.version)
  {
    InvariantHolds(h, era, c, run);
    NumbersStayAfter(c, run);
    var before := After(c, run);
    if !Refused(before, m) {
      BegunReady(h, era, run, m, before);
      var b := Begun(before, m);
      if !Bit(b.have, m.page - 1) {
        CompletesForward(h, era, run, m, b);
      }
    }
  }

  /** A page of an older version than the one being collected changes nothing. */
  lemma OlderPageIgnored(h: Hub, era: Era, c: Collector, run: seq<Message>, m: Message)
    requires Distinct(era) && Deliverable(h, era, run + [m]) && GoodStart(h, c) && FromHub(h, m)
    requires Deliverable(h, era, run)
    ensures forall i :: 0 <= i < |run| ==> GoodMessage(run[i])
    ensures var before := After(c, run);
            before.pages != 0 && era(m.version) < era(before.pol.version) ==> On(before, m) == before
  {
    InvariantHolds(h, era, c, run);
    var before := After(c, run);
    if before.pages != 0 && era(m.version) < era(before.pol.version) {
      LowerIsOlder(h, era, run, m, before.pol.version, before.highest);
    }
  }

  /** The newest version delivered. */
  predicate Newest(era: Era, run: seq<Message>, v: nat) {
    forall i :: 0 <= i < |run| ==> era(run[i].version) <= era(v)
  }

  /** Page p + 1 of version v was delivered. */
  predicate PageHeard(run: seq<Message>, v: nat, p: nat) {
    exists i :: 0 <= i < |run| && run[i].version == v && run[i].page == p + 1
  }

  /**
   Convergence: once every page of the newest version has been delivered, in any order, among any losses,
   resends and older pages, that version is in force.
   */
  lemma Converges(h: Hub, era: Era, c: Collector, run: seq<Message>, v: nat)
    requires Distinct(era) && Deliverable(h, era, run) && GoodStart(h, c)
    requires Newest(era, run, v) && |h(v)| > 0 && forall p :: 0 <= p < |h(v)| ==> PageHeard(run, v, p)
    ensures forall i :: 0 <= i < |run| ==> GoodMessage(run[i])
    ensures After(c, run).inForce.version == v && After(c, run).applied != 0
  {
    InvariantHolds(h, era, c, run);
    var now := After(c, run);
    if now.applied != 0 && era(now.inForce.version) >= era(v) {
      InForceIsNewest(h, era, run, now, v);
    } else {
      NotYetFull(h, era, run, now, v);
    }
  }

  // ---------------------------------------------------------------- the same on the bodies delivered

  /** A POLICY datagram: its number and its body. */
  datatype Datagram = Datagram(number: nat, body: text)

  predicate Numbered(ds: seq<Datagram>) {
    forall i :: 0 <= i < |ds| ==> ds[i].number > 0
  }

  /** What a datagram makes of the collector; `takes` says that the node takes policies. */
  function Taken(c: Collector, takes: bool, d: Datagram): Collector
    requires d.number > 0
  {
    match Parse(d.number, d.body)
    case Page(m) => if takes then On(c, m) else c
    case Bad => c
  }

  function Delivered(c: Collector, ds: seq<Datagram>): Collector
    requires Numbered(ds)
    decreases |ds|
  {
    if |ds| == 0 then Start(c) else Taken(Delivered(c, ds[..|ds| - 1]), true, ds[|ds| - 1])
  }

  /** The pages among the bodies. */
  function PagesIn(ds: seq<Datagram>): (run: seq<Message>)
    requires Numbered(ds)
    ensures forall i :: 0 <= i < |run| ==> GoodMessage(run[i])
    decreases |ds|
  {
    if |ds| == 0 then []
    else
      var d := ds[|ds| - 1];
      PagesIn(ds[..|ds| - 1]) + match Parse(d.number, d.body) case Page(m) => [m] case Bad => []
  }

  /** Bodies that are no page change nothing. */
  lemma {:induction false} DeliveredIs(c: Collector, ds: seq<Datagram>)
    requires Numbered(ds)
    ensures Delivered(c, ds) == After(c, PagesIn(ds))
    decreases |ds|
  {
    if |ds| > 0 {
      var front, d := ds[..|ds| - 1], ds[|ds| - 1];
      DeliveredIs(c, front);
      if Parse(d.number, d.body).Page? {
        assert PagesIn(ds)[..|PagesIn(ds)| - 1] == PagesIn(front);
      } else {
        assert PagesIn(ds) == PagesIn(front);
      }
    }
  }

  lemma {:induction false} BodyIn(ds: seq<Datagram>, i: nat, m: Message)
    requires Numbered(ds) && i < |ds| && Parse(ds[i].number, ds[i].body) == Page(m)
    ensures m in PagesIn(ds)
    decreases |ds|
  {
    if i < |ds| - 1 {
      BodyIn(ds[..|ds| - 1], i, m);
    }
  }

  /** The body of page p + 1 of version v is among those delivered. */
  predicate BodyDelivered(h: Hub, ds: seq<Datagram>, v: nat, p: nat)
    requires v < 0x1_0000_0000 && p < |h(v)| <= 16
  {
    exists i :: 0 <= i < |ds| && ds[i].body == Body(v, p + 1, |h(v)|, h(v)[p])
  }

  lemma BodyHeard(h: Hub, ds: seq<Datagram>, v: nat, p: nat)
    requires Numbered(ds) && 0 < v < 0x1_0000_0000 && p < |h(v)| <= 16 && WellFormed(h(v)[p])
    requires BodyDelivered(h, ds, v, p)
    ensures PageHeard(PagesIn(ds), v, p)
  {
    var i :| 0 <= i < |ds| && ds[i].body == Body(v, p + 1, |h(v)|, h(v)[p]);
    var m := Message(ds[i].number, v, p + 1, |h(v)|, h(v)[p]);
    ParsesIff(ds[i].number, ds[i].body, m);
    BodyIn(ds, i, m);
  }

  /**
   Convergence of what is delivered to the collector: bodies, among them any that are malformed. When those that
   are pages are the hub's, and the bodies of all pages of the newest version are among them, that version
   is in force.
   */
  lemma BodiesConverge(h: Hub, era: Era, c: Collector, ds: seq<Datagram>, v: nat)
    requires Numbered(ds) && Distinct(era) && GoodStart(h, c)
    requires Deliverable(h, era, PagesIn(ds)) && Newest(era, PagesIn(ds), v)
    requires 0 < v < 0x1_0000_0000 && 0 < |h(v)| <= 16
    requires forall p :: 0 <= p < |h(v)| ==> WellFormed(h(v)[p]) && BodyDelivered(h, ds, v, p)
    ensures Delivered(c, ds).inForce.version == v && Delivered(c, ds).applied != 0
  {
    forall p | 0 <= p < |h(v)|
      ensures PageHeard(PagesIn(ds), v, p)
    {
      BodyHeard(h, ds, v, p);
    }
    Converges(h, era, c, PagesIn(ds), v);
    DeliveredIs(c, ds);
  }

  lemma InForceIsNewest(h: Hub, era: Era, run: seq<Message>, c: Collector, v: nat)
    requires Distinct(era) && Newest(era, run, v) && NumbersGood(run, era, c)
    requires c.applied != 0 && era(c.inForce.version) >= era(v)
    ensures c.inForce.version == v
  {
    var i :| 0 <= i < |run| && run[i].version == c.inForce.version && run[i].number == c.applied;
    assert era(run[i].version) <= era(v);
  }

  /** While it is not in force some page of the newest version is missing. */
  lemma NotYetFull(h: Hub, era: Era, run: seq<Message>, c: Collector, v: nat)
    requires Distinct(era) && Invariant(h, era, run, c) && Newest(era, run, v) && |h(v)| > 0
    requires forall p :: 0 <= p < |h(v)| ==> PageHeard(run, v, p)
    ensures c.applied != 0 && era(c.inForce.version) >= era(v)
  {
    if !(c.applied != 0 && era(c.inForce.version) >= era(v)) {
      assert PageHeard(run, v, 0);
      var i :| 0 <= i < |run| && run[i].version == v && run[i].page == 1;
      assert Accounted(era, c, run[i]);
      var k :| 0 <= k < |run| && run[k].version == c.pol.version && run[k].number == c.lowest;
      assert era(run[k].version) <= era(v);
      assert c.pol.version == v;
      var order: seq<nat> :| Collecting(h, c, order);
      forall p: nat | p < c.pages
        ensures Bit(c.have, p)
      {
        assert PageHeard(run, v, p);
        var j :| 0 <= j < |run| && run[j].version == v && run[j].page == p + 1;
        assert Accounted(era, c, run[j]);
      }
      OnlyOnes(c.have, c.pages);
    }
  }

  // ---------------------------------------------------------------- what a complete set holds

  function Upto(n: nat): (order: seq<nat>)
    ensures |order| == n && forall i :: 0 <= i < n ==> order[i] == i
    decreases n
  {
    if n == 0 then [] else Upto(n - 1) + [n - 1]
  }

  /** Every page, first to last. */
  predicate AllGood(pages: seq<text>) {
    forall i :: 0 <= i < |pages| ==> WellFormed(pages[i])
  }

  function AllEntries(pages: seq<text>): seq<Item>
    requires AllGood(pages)
  {
    EntriesOf(pages, Upto(|pages|))
  }

  lemma {:induction false} EntriesConcat(pages: seq<text>, a: seq<nat>, b: seq<nat>)
    requires Readable(pages, a) && Readable(pages, b) && Readable(pages, a + b)
    ensures EntriesOf(pages, a + b) == EntriesOf(pages, a) + EntriesOf(pages, b)
    decreases |b|
  {
    if |b| == 0 {
      assert a + b == a;
    } else {
      var last := |b| - 1;
      assert (a + b)[..|a| + last] == a + b[..last];
      EntriesConcat(pages, a, b[..last]);
      EntriesLast(pages, a + b);
      EntriesLast(pages, b);
    }
  }

  lemma EntriesLast(pages: seq<text>, order: seq<nat>)
    requires |order| > 0 && Readable(pages, order)
    ensures var n := |order| - 1;
            && Readable(pages, order[..n])
            && EntriesOf(pages, order) == EntriesOf(pages, order[..n]) + Items(pages[order[n]])
  {
  }

  lemma ReadableParts(pages: seq<text>, a: seq<nat>, x: nat, b: seq<nat>)
    requires PageOrder(pages, a + [x] + b)
    ensures Readable(pages, a) && Readable(pages, b) && Readable(pages, [x]) && Readable(pages, a + [x])
    ensures PageOrder(pages, a + b)
  {
    var all := a + [x] + b;
    assert forall i :: 0 <= i < |a| ==> a[i] == all[i];
    assert x == all[|a|];
    assert forall i :: 0 <= i < |b| ==> b[i] == all[|a| + 1 + i];
  }

  lemma Interchanged<T>(a: seq<T>, x: seq<T>, b: seq<T>)
    ensures multiset(a + x + b) == multiset(a + b) + multiset(x)
  {
  }

  lemma EntriesWithout(pages: seq<text>, a: seq<nat>, x: nat, b: seq<nat>)
    requires PageOrder(pages, a + [x] + b)
    ensures PageOrder(pages, a + b) && Readable(pages, [x])
    ensures multiset(EntriesOf(pages, a + [x] + b))
         == multiset(EntriesOf(pages, a + b)) + multiset(EntriesOf(pages, [x]))
  {
    ReadableParts(pages, a, x, b);
    EntriesConcat(pages, a + [x], b);
    EntriesConcat(pages, a, [x]);
    EntriesConcat(pages, a, b);
    Interchanged(EntriesOf(pages, a), EntriesOf(pages, [x]), EntriesOf(pages, b));
  }

  lemma LastPage(pages: seq<text>, n: nat)
    requires AllGood(pages) && 0 < n <= |pages|
    ensures EntriesOf(pages, Upto(n)) == EntriesOf(pages, Upto(n - 1)) + EntriesOf(pages, [n - 1])
  {
    EntriesConcat(pages, Upto(n - 1), [n - 1]);
  }

  lemma OthersBelow(a: seq<nat>, x: nat, b: seq<nat>)
    requires forall i :: 0 <= i < |a + [x] + b| ==> (a + [x] + b)[i] <= x
    requires forall i, j :: 0 <= i < j < |a + [x] + b| ==> (a + [x] + b)[i] != (a + [x] + b)[j]
    ensures forall i :: 0 <= i < |a + b| ==> (a + b)[i] < x
  {
    var all := a + [x] + b;
    forall i | 0 <= i < |a + b|
      ensures (a + b)[i] < x
    {
      assert all[|a|] == x;
      assert (a + b)[i] == all[if i < |a| then i else i + 1];
    }
  }

  /** The bag of entries of some pages, under a name that does not unfold. */
  ghost predicate IsBag(pages: seq<text>, bag: seq<nat> -> multiset<Item>) {
    forall order: seq<nat> {:trigger EntriesOf(pages, order)} ::
      Readable(pages, order) ==> bag(order) == multiset(EntriesOf(pages, order))
  }

  lemma BagWithout(pages: seq<text>, order: seq<nat>, k: nat, bag: seq<nat> -> multiset<Item>)
    requires IsBag(pages, bag) && PageOrder(pages, order) && k < |order|
    requires forall i :: 0 <= i < |order| ==> order[i] <= order[k]
    ensures var rest := order[..k] + order[k + 1..];
            && PageOrder(pages, rest) && bag(order) == bag(rest) + bag([order[k]])
            && forall i :: 0 <= i < |rest| ==> rest[i] < order[k]
  {
    var a, x, b := order[..k], order[k], order[k + 1..];
    assert order == a + [x] + b;
    assert forall i :: 0 <= i < |a + b| ==> (a + b)[i] < x by {
      OthersBelow(a, x, b);
    }
    EntriesWithout(pages, a, x, b);
    BagAround(pages, order, a + b, [x], bag);
  }

  lemma BagAround(pages: seq<text>, all: seq<nat>, rest: seq<nat>, one: seq<nat>, bag: seq<nat> -> multiset<Item>)
    requires IsBag(pages, bag) && Readable(pages, all) && Readable(pages, rest) && Readable(pages, one)
    requires multiset(EntriesOf(pages, all)) == multiset(EntriesOf(pages, rest)) + multiset(EntriesOf(pages, one))
    ensures bag(all) == bag(rest) + bag(one)
  {
  }

  lemma BagUpto(pages: seq<text>, n: nat, bag: seq<nat> -> multiset<Item>)
    requires IsBag(pages, bag) && AllGood(pages) && 0 < n <= |pages|
    ensures bag(Upto(n)) == bag(Upto(n - 1)) + bag([n - 1])
  {
    LastPage(pages, n);
    BagAround(pages, Upto(n), Upto(n - 1), [n - 1], bag);
  }

  lemma Largest(order: seq<nat>, n: nat) returns (k: nat)
    requires |order| == n > 0 && forall i :: 0 <= i < n ==> order[i] < n
    requires forall i, j :: 0 <= i < j < |order| ==> order[i] != order[j]
    ensures k < n && order[k] == n - 1
  {
    DistinctBelow(order, n);
    assert n - 1 in order;
    k :| k < |order| && order[k] == n - 1;
  }

  /** The entries of a permutation of the pages, whatever the permutation. */
  lemma {:induction false} AnyOrder(pages: seq<text>, order: seq<nat>, n: nat, bag: seq<nat> -> multiset<Item>)
    requires IsBag(pages, bag) && AllGood(pages) && PageOrder(pages, order) && |order| == n <= |pages|
    requires forall i :: 0 <= i < n ==> order[i] < n
    ensures bag(order) == bag(Upto(n))
    decreases n
  {
    if n == 0 {
      assert order == Upto(n);
    } else {
      var k := Largest(order, n);
      BagWithout(pages, order, k, bag);
      AnyOrder(pages, order[..k] + order[k + 1..], n - 1, bag);
      BagUpto(pages, n, bag);
    }
  }

  lemma SameBagOfEntries(pages: seq<text>, order: seq<nat>)
    requires AllGood(pages) && PageOrder(pages, order) && |order| == |pages|
    requires forall i :: 0 <= i < |order| ==> order[i] < |pages|
    ensures multiset(EntriesOf(pages, order)) == multiset(EntriesOf(pages, Upto(|pages|)))
  {
    var bag: seq<nat> -> multiset<Item> :=
      o => if Readable(pages, o) then multiset(EntriesOf(pages, o)) else multiset{};
    AnyOrder(pages, order, |pages|, bag);
    assert bag(order) == multiset(EntriesOf(pages, order));
    assert bag(Upto(|pages|)) == multiset(EntriesOf(pages, Upto(|pages|)));
  }

  lemma CountOne<T>(x: T, t: seq<T>, y: T)
    ensures multiset([x] + t)[y] == multiset(t)[y] + if x == y then 1 else 0
  {
  }

  lemma {:induction false} Counts(xs: seq<Item>, kind: byte, v: text)
    ensures multiset(Select(xs, kind))[v] == multiset(xs)[Entry(kind, v)]
    decreases |xs|
  {
    if |xs| > 0 {
      var x, rest := xs[0], xs[1..];
      Counts(rest, kind, v);
      assert xs == [x] + rest;
      CountOne(x, rest, Entry(kind, v));
      if x.Entry? && x.kind == kind {
        CountOne(x.value, Select(rest, kind), v);
      } else {
        assert Select(xs, kind) == Select(rest, kind);
      }
    }
  }

  lemma SameBag(a: seq<text>, b: seq<text>)
    requires forall v :: multiset(a)[v] == multiset(b)[v]
    ensures multiset(a) == multiset(b) && |a| == |b|
  {
    assert multiset(a) == multiset(b);
    assert |multiset(a)| == |a| && |multiset(b)| == |b|;
  }

  lemma SameEntries(xs: seq<Item>, ys: seq<Item>, kind: byte)
    requires multiset(xs) == multiset(ys)
    ensures multiset(Select(xs, kind)) == multiset(Select(ys, kind)) && |Select(xs, kind)| == |Select(ys, kind)|
  {
    var a, b := Select(xs, kind), Select(ys, kind);
    forall v: text
      ensures multiset(a)[v] == multiset(b)[v]
    {
      Counts(xs, kind, v);
      Counts(ys, kind, v);
    }
    SameBag(a, b);
  }

  lemma {:induction false} EntriesKnown(pages: seq<text>, order: seq<nat>)
    requires PageOrder(pages, order)
    ensures Known(EntriesOf(pages, order))
    decreases |order|
  {
    if |order| > 0 {
      EntriesKnown(pages, order[..|order| - 1]);
      ItemsKnown(pages[order[|order| - 1]]);
    }
  }

  /** The values of this kind in all the pages of a version. */
  function AllOf(pages: seq<text>, kind: byte): seq<text>
    requires AllGood(pages)
  {
    Select(AllEntries(pages), kind)
  }

  lemma KindHeld(pages: seq<text>, version: nat, xs: seq<Item>, kind: byte)
    requires AllGood(pages) && Known(xs) && multiset(xs) == multiset(AllEntries(pages)) && 1 <= kind <= 3
    ensures var list := ListOf(AddAll(Fresh(version), xs), kind);
            && OverOf(Fresh(version), xs, kind) == Over(AllOf(pages, kind), Limit(kind))
            && (multiset(list) == multiset(AllOf(pages, kind)) <==> Over(AllOf(pages, kind), Limit(kind)) == 0)
  {
    SameEntries(xs, AllEntries(pages), kind);
    AddAllIs(Fresh(version), xs, kind);
    assert [] + Select(xs, kind) == Select(xs, kind);
    var list := ListOf(AddAll(Fresh(version), xs), kind);
    assert multiset(list) == multiset(AllOf(pages, kind)) ==> |list| == |AllOf(pages, kind)| by {
      assert |multiset(list)| == |list| && |multiset(AllOf(pages, kind))| == |AllOf(pages, kind)|;
    }
  }

  /**
   How many entries of a complete set are skipped does not depend on the order its pages came in; it
   holds every entry of its version exactly when none is skipped.
   */
  lemma HoldsAllIff(h: Hub, p: Policy)
    requires Complete(h, p) && AllGood(h(p.version))
    ensures var pages := h(p.version);
            && p.skipped == Over(AllOf(pages, ROOM), 32) + Over(AllOf(pages, BLOCK_NAME), 256)
                            + Over(AllOf(pages, BLOCK_KEY), 256)
            && (p.skipped == 0 <==> multiset(p.rooms) == multiset(AllOf(pages, ROOM))
                                    && multiset(p.names) == multiset(AllOf(pages, BLOCK_NAME))
                                    && multiset(p.keys) == multiset(AllOf(pages, BLOCK_KEY)))
  {
    var pages := h(p.version);
    var order: seq<nat> :| |order| == |pages| && Assembled(h, p, order);
    var xs := EntriesOf(pages, order);
    SameBagOfEntries(pages, order);
    EntriesKnown(pages, order);
    KindHeld(pages, p.version, xs, ROOM);
    KindHeld(pages, p.version, xs, BLOCK_NAME);
    KindHeld(pages, p.version, xs, BLOCK_KEY);
    AddAllSkips(Fresh(p.version), xs);
  }

  // ---------------------------------------------------------------- over the limit the order decides

  /** A page with the room "#a" n times. */
  function RoomPage(n: nat): (e: text)
    ensures |e| == 4 * n
  {
    if n == 0 then [] else [ROOM, 2] + [35, 97] + RoomPage(n - 1)
  }

  function RoomTimes(n: nat): (r: seq<text>)
    ensures |r| == n && forall i :: 0 <= i < n ==> r[i] == [35, 97]
  {
    if n == 0 then [] else [[35, 97]] + RoomTimes(n - 1)
  }

  /** A page that begins with a room. */
  lemma RoomFirst(e: text, name: text, tail: text)
    requires RoomName(name) && e == [ROOM, |name|] + name + tail && WellFormed(tail)
    ensures WellFormed(e) && Items(e) == [Entry(ROOM, name)] + Items(tail)
    ensures Select(Items(e), ROOM) == [name] + Select(Items(tail), ROOM)
  {
    assert e[2..2 + |name|] == name && e[2 + |name|..] == tail;
    assert Items(e)[1..] == Items(tail);
  }

  lemma {:induction false} RoomPageHolds(n: nat)
    ensures WellFormed(RoomPage(n)) && Select(Items(RoomPage(n)), ROOM) == RoomTimes(n)
  {
    if n > 0 {
      RoomPageHolds(n - 1);
      RoomFirst(RoomPage(n), [35, 97], RoomPage(n - 1));
    }
  }

  /** The rooms of two pages, in the order the pages came in. */
  lemma RoomsOfTwo(version: nat, a: seq<Item>, b: seq<Item>)
    requires Known(a) && Known(b)
    ensures AddAll(Fresh(version), a + b).rooms == Cut(Select(a, ROOM) + Select(b, ROOM), MAX_ROOMS)
  {
    AddAllIs(Fresh(version), a + b, ROOM);
    SelectConcat(a, b, ROOM);
    assert [] + Select(a + b, ROOM) == Select(a + b, ROOM);
  }

  lemma {:induction false} SelectConcat(a: seq<Item>, b: seq<Item>, kind: byte)
    ensures Select(a + b, kind) == Select(a, kind) + Select(b, kind)
    decreases |a|
  {
    if |a| == 0 {
      assert a + b == b;
    } else {
      assert (a + b)[1..] == a[1..] + b;
      SelectConcat(a[1..], b, kind);
    }
  }

  /** The set collected from two pages of a version, in the order they came. */
  function SetOfTwo(v: nat, a: Message, b: Message): Policy
    requires GoodMessage(a) && GoodMessage(b)
  {
    AddAll(Fresh(v), Items(a.entries) + Items(b.entries))
  }

  lemma OneFlag(page: nat, other: nat)
    requires page < 2 && other < 2 && page != other
    ensures !Bit(WithBit(0, page), other) && WithBit(0, page) != Pow2(2) - 1
    ensures WithBit(WithBit(0, page), other) == Pow2(2) - 1
  {
    BitOfZero(page);
    BitOfZero(other);
    BitSet(0, page, other);
    OnesBit(2, other);
    var have := WithBit(0, page);
    assert Pow2(2) == 4;
    BitSetRange(0, page, 2);
    BitSetRange(have, other, 2);
    forall i: nat | i < 2
      ensures Bit(WithBit(have, other), i)
    {
      BitSet(0, page, i);
      BitSet(have, other, i);
    }
    OnlyOnes(WithBit(have, other), 2);
  }

  /** The two pages of a version. */
  predicate AreTwo(v: nat, a: Message, b: Message) {
    && GoodMessage(a) && GoodMessage(b) && a.version == v && b.version == v && a.pages == 2 && b.pages == 2
    && a.page != b.page
  }

  lemma FirstOfTwo(c: Collector, v: nat, a: Message, b: Message)
    requires AreTwo(v, a, b)
    ensures var one := On(Start(c), a);
            && one == Added(Begun(Start(c), a), a) && one.pol == AddAll(Fresh(v), Items(a.entries))
            && one.pages == 2 && one.have == WithBit(0, a.page - 1) && one.applied == 0 && one.inForce == c.inForce
  {
    BitOfZero(a.page - 1);
    OneFlag(a.page - 1, b.page - 1);
  }

  /** Delivered to a node with another version in force, they put their entries in force in that order. */
  lemma DeliveredTwo(c: Collector, v: nat, a: Message, b: Message)
    requires AreTwo(v, a, b) && c.inForce.version != v
    ensures After(c, [a, b]).inForce == SetOfTwo(v, a, b) && After(c, [a, b]).applied != 0
  {
    var one := On(Start(c), a);
    FirstOfTwo(c, v, a, b);
    OneFlag(a.page - 1, b.page - 1);
    AddAllVersion(Fresh(v), Items(a.entries));
    AddAllVersion(one.pol, Items(b.entries));
    AddAllConcat(Fresh(v), Items(a.entries), Items(b.entries));
    assert [a, b][..1] == [a] && [a][..0] == [];
    assert After(c, [a]) == one;
    assert After(c, [a, b]) == On(one, b);
    assert !Refused(one, b) && Begun(one, b) == one;
    assert IsFull(Added(one, b));
  }

  lemma RoomsDelivered(c: Collector, v: nat, a: Message, b: Message)
    requires AreTwo(v, a, b) && c.inForce.version != v
    ensures After(c, [a, b]).inForce.version == v
    ensures After(c, [a, b]).inForce.rooms
         == Cut(Select(Items(a.entries), ROOM) + Select(Items(b.entries), ROOM), MAX_ROOMS)
  {
    DeliveredTwo(c, v, a, b);
    ItemsKnown(a.entries);
    ItemsKnown(b.entries);
    RoomsOfTwo(v, Items(a.entries), Items(b.entries));
    AddAllVersion(Fresh(v), Items(a.entries) + Items(b.entries));
  }

  lemma CompleteFromTwo(h: Hub, c: Collector, v: nat, a: Message, b: Message)
    requires FromHub(h, a) && FromHub(h, b) && GoodStart(h, c) && AreTwo(v, a, b) && c.inForce.version != v
    ensures Complete(h, After(c, [a, b]).inForce)
  {
    var era: Era := w => w;
    DeliveredTwo(c, v, a, b);
    OneCompleteVersion(h, era, c, [a, b]);
    AddAllVersion(Fresh(v), Items(a.entries) + Items(b.entries));
  }

  /**
   Two pages, one with the room "#a" 32 times and one with "#b": which of them is delivered first decides
   whether the set then in force has "#b" in it.
   */
  lemma OrderDecides(h: Hub, c: Collector, v: nat, a: Message, b: Message, n: nat)
    requires FromHub(h, a) && FromHub(h, b) && GoodStart(h, c) && AreTwo(v, a, b) && c.inForce.version != v
    requires n == MAX_ROOMS && a.entries == RoomPage(n) && b.entries == [ROOM, 2] + [35, 98]
    ensures After(c, [a, b]).inForce.version == After(c, [b, a]).inForce.version == v
    ensures Complete(h, After(c, [a, b]).inForce) && Complete(h, After(c, [b, a]).inForce)
    ensures [35, 98] !in After(c, [a, b]).inForce.rooms && [35, 98] in After(c, [b, a]).inForce.rooms
  {
    CompleteFromTwo(h, c, v, a, b);
    CompleteFromTwo(h, c, v, b, a);
    RoomsByOrder(c, v, a, b, n);
  }

  lemma RoomsByOrder(c: Collector, v: nat, a: Message, b: Message, n: nat)
    requires AreTwo(v, a, b) && c.inForce.version != v
    requires n == MAX_ROOMS && a.entries == RoomPage(n) && b.entries == [ROOM, 2] + [35, 98]
    ensures After(c, [a, b]).inForce.version == After(c, [b, a]).inForce.version == v
    ensures [35, 98] !in After(c, [a, b]).inForce.rooms && [35, 98] in After(c, [b, a]).inForce.rooms
  {
    var rooms, x: text := RoomTimes(n), [35, 98];
    assert Select(Items(a.entries), ROOM) == rooms by {
      RoomPageHolds(n);
    }
    assert Select(Items(b.entries), ROOM) == [x] by {
      assert b.entries == b.entries + [];
      RoomFirst(b.entries, x, []);
      assert Select(Items([]), ROOM) == [];
    }
    BothOrders(c, v, a, b, rooms, x, n);
  }

  lemma BothOrders(c: Collector, v: nat, a: Message, b: Message, rooms: seq<text>, x: text, n: nat)
    requires AreTwo(v, a, b) && c.inForce.version != v && n == MAX_ROOMS && |rooms| == n
    requires (forall i :: 0 <= i < n ==> rooms[i] == [35, 97]) && x == [35, 98]
    requires Select(Items(a.entries), ROOM) == rooms && Select(Items(b.entries), ROOM) == [x]
    ensures After(c, [a, b]).inForce.version == After(c, [b, a]).inForce.version == v
    ensures x !in After(c, [a, b]).inForce.rooms && x in After(c, [b, a]).inForce.rooms
  {
    RoomsDelivered(c, v, a, b);
    RoomsDelivered(c, v, b, a);
    FirstCome(rooms, x, n);
  }

  lemma FirstCome(a: seq<text>, x: text, n: nat)
    requires |a| == n > 0 && (forall i :: 0 <= i < n ==> a[i] == [35, 97]) && x == [35, 98]
    ensures x !in Cut(a + [x], n) && x in Cut([x] + a, n)
  {
    assert (a + [x])[..n] == a && ([x] + a)[..n][0] == x;
    assert x[1] != [35, 97][1];
  }

  // ---------------------------------------------------------------- the program

  class PageCollector {
    const pol: Set
    var pages: nat
    var have: nat
    var lowest: nat
    var highest: nat
    var applied: nat
    var inForce: Policy
    var rejected: nat

    function Value(): Collector
      reads this, pol
    {
      Collector(pol.Value(), pages, have, lowest, highest, applied, inForce)
    }

    constructor (inForce: Policy)
      ensures fresh(pol) && Value() == Collector(Fresh(0), 0, 0, 0, 0, 0, inForce) && rejected == 0
    {
      pol := new Set(Fresh(0));
      pages, have, lowest, highest, applied, rejected := 0, 0, 0, 0, 0, 0;
      this.inForce := inForce;
    }

    /** A new session collects afresh. */
    method OnWelcome()
      modifies this`pages, this`applied
      ensures Value() == Start(old(Value()))
    {
      pages := 0;
      applied := 0;
    }

    method AddPage(m: Message)
      requires GoodMessage(m) && !Bit(have, m.page - 1)
      modifies this`have, this`lowest, this`highest, pol
      ensures Value() == Added(old(Value()), m)
    {
      pol.PolicyWalk(m.entries);
      have := WithBit(have, m.page - 1);
      if m.number < lowest {
        lowest := m.number;
      }
      if m.number > highest {
        highest := m.number;
      }
    }

    /** A POLICY datagram; `takes` says that the node takes policies. */
    method OnPolicy(takes: bool, number: nat, body: text)
      requires number > 0
      modifies this, pol
      ensures Value() == Taken(old(Value()), takes, Datagram(number, body))
      ensures rejected == old(rejected) + if takes && Parse(number, body).Bad? then 1 else 0
    {
      if !takes {
        return;
      }
      if |body| < 6 {
        rejected := rejected + 1;
        return;
      }
      var version := Packet.Word32(body[..4]);
      var page, total := body[4], body[5];
      var ok := CheckPage(body[6..]);
      if version == 0 || total == 0 || total > MAX_PAGES || page == 0 || page > total || !ok {
        rejected := rejected + 1;
        return;
      }
      Collect(Message(number, version, page, total, body[6..]));
    }

    /** A page of a set: kept with the pages held of that set, and the set taken when it is complete. */
    method Collect(m: Message)
      requires GoodMessage(m)
      modifies this`pages, this`have, this`lowest, this`highest, this`applied, this`inForce, pol
      ensures Value() == On(old(Value()), m)
    {
      if applied != 0 && m.number < applied {
        return;
      }
      if pages != 0 && (m.version != pol.version || m.pages != pages) {
        if m.number <= highest {
          return;
        }
        pages := 0;
      }
      if pages == 0 {
        pol.Clear(m.version);
        pages, have, lowest, highest := m.pages, 0, m.number, m.number;
      }
      assert Value() == Begun(old(Value()), m);
      Take(m);
    }

    /** Adds a page not held yet; a complete set comes into force. */
    method Take(m: Message)
      requires GoodMessage(m)
      modifies this`pages, this`have, this`lowest, this`highest, this`applied, this`inForce, pol
      ensures var b := old(Value());
              Value() == if Bit(b.have, m.page - 1) then b
                         else if IsFull(Added(b, m)) then Applied(Added(b, m)) else Added(b, m)
    {
      if Bit(have, m.page - 1) {
        return;
      }
      AddPage(m);
      if have != Pow2(pages) - 1 {
        return;
      }
      applied := lowest;
      pages := 0;
      if pol.version != inForce.version {
        inForce := pol.Value();
      }
    }
  }
}
