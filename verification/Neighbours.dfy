/**
 Adverts: what they say and whether they are signed, and the table of the nodes heard advertising.
 */
module Neighbours {

  import opened Bytes
  import opened Packet
  import opened Content
  import opened Routes
  import opened Names
  import Channel

  const TABLE: nat := 96

  const CHAT: nat := 1

  /** Bytes before the application data: key, timestamp, signature. */
  const DATA_OFFSET: nat := 100

  const MAX_ADVERT_DATA: nat := 32

  // ---------------------------------------------------------------- adverts

  type Verifier = (seq<byte>, seq<byte>, seq<byte>) -> bool

  function AppData(p: packet): seq<byte>
    requires |p.payload| >= DATA_OFFSET
  {
    p.payload[DATA_OFFSET..]
  }

  /** The signature covers the key, the timestamp and at most 32 bytes of application data. */
  predicate Signed(verify: Verifier, p: packet) {
    && PayloadType(p) == ADVERT && |p.payload| >= DATA_OFFSET
    && var app := AppData(p);
       var shown := if |app| > MAX_ADVERT_DATA then app[..MAX_ADVERT_DATA] else app;
       verify(p.payload[..32], p.payload[36..100], p.payload[..36] + shown)
  }

  function Advertiser(p: packet): key
    requires |p.payload| >= DATA_OFFSET
  {
    p.payload[..32]
  }

  /** Where the name starts: after a position and two optional fields. */
  function NameOffset(flags: byte): nat {
    1 + (if flags / 16 % 2 == 1 then 8 else 0) + (if flags / 32 % 2 == 1 then 2 else 0)
      + if flags / 64 % 2 == 1 then 2 else 0
  }

  /** The advertised name, at most 31 bytes of it. */
  function AdvertName(p: packet): cstring
    requires |p.payload| >= DATA_OFFSET
  {
    var app := AppData(p);
    if |app| == 0 || app[0] / 128 == 0 || NameOffset(app[0]) >= |app| then []
    else
      var name := app[NameOffset(app[0])..];
      Channel.Until0(if |name| > 31 then name[..31] else name)
  }

  /** The advertised type; an advert without application data leaves what was there. */
  function AdvertKind(p: packet, before: nat): nat
    requires |p.payload| >= DATA_OFFSET
  {
    var app := AppData(p);
    if |app| == 0 then before else app[0] % 16
  }

  // ---------------------------------------------------------------- the table

  datatype Neighbour = Unused | Heard(pub: key, name: cstring, kind: nat, lastSeen: nat)

  type table = t: seq<Neighbour> | |t| == TABLE witness NoNeighbours()

  function NoNeighbours(): (t: seq<Neighbour>)
    ensures |t| == TABLE
  {
    seq(TABLE, _ => Unused)
  }

  predicate IsEntry(t: table, i: nat, pub: key)
    requires i < TABLE
  {
    t[i].Heard? && t[i].pub == pub
  }

  /** The first entry for this key, or -1. */
  function EntryOf(t: table, pub: key, n: nat): (r: int)
    requires n <= TABLE
    ensures -1 <= r < n && (r >= 0 ==> IsEntry(t, r, pub))
    ensures forall i :: 0 <= i < (if r < 0 then n else r) ==> !IsEntry(t, i, pub)
  {
    if n == 0 then -1
    else
      var r := EntryOf(t, pub, n - 1);
      if r >= 0 then r else if IsEntry(t, n - 1, pub) then n - 1 else -1
  }

  /** The first unused entry, or -1. */
  function UnusedOf(t: table, n: nat): (r: int)
    requires n <= TABLE
    ensures -1 <= r < n && (r >= 0 ==> t[r].Unused?)
  {
    if n == 0 then -1
    else
      var r := UnusedOf(t, n - 1);
      if r >= 0 then r else if t[n - 1].Unused? then n - 1 else -1
  }

  const NEVER: nat := 0xFFFF_FFFF

  /** The entry heard longest ago among the first n, the first of equals, with its time. */
  function OldestOf(t: table, n: nat): (r: (nat, nat))
    requires n <= TABLE
    ensures r.0 < TABLE
  {
    if n == 0 then (0, NEVER)
    else
      var r := OldestOf(t, n - 1);
      if t[n - 1].Heard? && t[n - 1].lastSeen < r.1 then (n - 1, t[n - 1].lastSeen) else r
  }

  /** The table after hearing the advert `p` at `now`: its entry renewed, or a new one. */
  function Updated(t: table, p: packet, now: nat): table
    requires |p.payload| >= DATA_OFFSET
  {
    var pub := Advertiser(p);
    var i := EntryOf(t, pub, TABLE);
    if i >= 0 then t[i := Heard(pub, AdvertName(p), AdvertKind(p, t[i].kind), now)]
    else
      var free := UnusedOf(t, TABLE);
      var k: nat := if free >= 0 then free else OldestOf(t, TABLE).0;
      t[k := Heard(pub, AdvertName(p), AdvertKind(p, 0), now)]
  }

  /** A name heard advertising as something other than a companion. */
  predicate HeardOtherwise(t: table, name: cstring) {
    exists i :: 0 <= i < TABLE && t[i].Heard? && t[i].kind != CHAT && SameName(t[i].name, name)
  }

  method Update(a: array<Neighbour>, p: packet, now: nat)
    requires a.Length == TABLE && |p.payload| >= DATA_OFFSET
    modifies a
    ensures a[..] == Updated(old(a[..]), p, now)
  {
    ghost var t: table := a[..];
    var pub := Advertiser(p);
    var freeSlot, oldest, oldestTime := -1, 0, NEVER;
    for i := 0 to TABLE
      invariant a[..] == t && EntryOf(t, pub, i) == -1
      invariant freeSlot == UnusedOf(t, i) && (oldest, oldestTime) == OldestOf(t, i)
      invariant 0 <= oldest < TABLE
    {
      if a[i].Heard? && a[i].pub == pub {
        EntryStays(t, pub, i + 1, TABLE);
        a[i] := Heard(pub, AdvertName(p), AdvertKind(p, a[i].kind), now);
        return;
      }
      if a[i].Unused? && freeSlot < 0 {
        freeSlot := i;
      }
      if a[i].Heard? && a[i].lastSeen < oldestTime {
        oldestTime := a[i].lastSeen;
        oldest := i;
      }
    }
    var idx := if freeSlot >= 0 then freeSlot else oldest;
    a[idx] := Heard(pub, AdvertName(p), AdvertKind(p, 0), now);
  }

  lemma {:induction false} EntryStays(t: table, pub: key, n: nat, m: nat)
    requires n <= m <= TABLE && EntryOf(t, pub, n) >= 0
    ensures EntryOf(t, pub, m) == EntryOf(t, pub, n)
    decreases m
  {
    if n < m {
      EntryStays(t, pub, n, m - 1);
    }
  }

  /** A key has one entry, and the entry just renewed or made is this advert's. */
  lemma UpdatedHolds(t: table, p: packet, now: nat)
    requires |p.payload| >= DATA_OFFSET
    requires forall i, j :: 0 <= i < j < TABLE && t[i].Heard? && t[j].Heard? ==> t[i].pub != t[j].pub
    ensures var u := Updated(t, p, now);
            && (forall i, j :: 0 <= i < j < TABLE && u[i].Heard? && u[j].Heard? ==> u[i].pub != u[j].pub)
            && exists i :: 0 <= i < TABLE && u[i].Heard? && u[i].pub == Advertiser(p) && u[i].lastSeen == now
  {
    var pub := Advertiser(p);
    var e := EntryOf(t, pub, TABLE);
    var free := UnusedOf(t, TABLE);
    var k: nat := if e >= 0 then e else if free >= 0 then free else OldestOf(t, TABLE).0;
    var u := Updated(t, p, now);
    assert u[k].Heard? && u[k].pub == pub;
    forall i | 0 <= i < TABLE && i != k && t[i].Heard?
      ensures t[i].pub != pub && u[i] == t[i]
    {
      assert !IsEntry(t, i, pub);
    }
  }

  lemma {:induction false} OldestIs(t: table, n: nat)
    requires n <= TABLE && forall i :: 0 <= i < TABLE ==> t[i].Heard? && t[i].lastSeen <= NEVER
    ensures var r := OldestOf(t, n);
            && r.1 <= NEVER && (n > 0 ==> r.1 == t[r.0].lastSeen || (r == (0, NEVER)))
            && forall i :: 0 <= i < n ==> r.1 <= t[i].lastSeen
    decreases n
  {
    if n > 0 {
      OldestIs(t, n - 1);
    }
  }

  /**
   At most one entry gives way, and every other stays as it is. One of another node gives way only when the table
   is full and has no entry of this key, and then none was heard longer ago. Times are 32 bits.
   */
  lemma OldestGivesWay(t: table, p: packet, now: nat) returns (k: nat)
    requires |p.payload| >= DATA_OFFSET && forall i :: 0 <= i < TABLE && t[i].Heard? ==> t[i].lastSeen <= 0xFFFF_FFFF
    ensures k < TABLE && Updated(t, p, now) == t[k := Updated(t, p, now)[k]]
    ensures Updated(t, p, now)[k].Heard? && Updated(t, p, now)[k].pub == Advertiser(p)
    ensures Updated(t, p, now)[k].name == AdvertName(p) && Updated(t, p, now)[k].lastSeen == now
    ensures t[k].Heard? && t[k].pub != Advertiser(p) ==>
              forall i :: 0 <= i < TABLE ==>
                t[i].Heard? && t[i].pub != Advertiser(p) && t[k].lastSeen <= t[i].lastSeen
  {
    var e := EntryOf(t, Advertiser(p), TABLE);
    var free := UnusedOf(t, TABLE);
    if e >= 0 {
      k := e;
    } else if free >= 0 {
      k := free;
    } else {
      k := OldestOf(t, TABLE).0;
      NoneUnused(t, TABLE);
      OldestIs(t, TABLE);
      forall i | 0 <= i < TABLE
        ensures t[i].pub != Advertiser(p)
      {
        assert !IsEntry(t, i, Advertiser(p));
      }
    }
  }

  lemma {:induction false} NoneUnused(t: table, n: nat)
    requires n <= TABLE && UnusedOf(t, n) < 0
    ensures forall i :: 0 <= i < n ==> t[i].Heard?
    decreases n
  {
    if n > 0 {
      NoneUnused(t, n - 1);
    }
  }
}
