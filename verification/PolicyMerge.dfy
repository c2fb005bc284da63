/**
 Merging the hub's rooms and blocks over a node's own tables: the hub's earlier entries are taken out in
 place, and those of the new set added behind what is left.
 */
module PolicyMerge {

  import opened Bytes
  import opened Packet
  import opened Crypto
  import opened Content
  import opened Names
  import opened Numerals
  import opened Policy

  const MAX_TABLE: nat := 40
  const MAX_CHANNELS: nat := 48

  // ---------------------------------------------------------------- rooms and channels as values

  datatype Room = Room(name: cstring, key: seq<byte>, hub: bool)

  datatype Tables = Tables(rooms: seq<Room>, channels: seq<channel>)

  predicate Blank(b: byte) { b == 32 || b == 9 }

  function SkipBlanks(v: cstring): cstring
    decreases |v|
  {
    if |v| > 0 && Blank(v[0]) then SkipBlanks(v[1..]) else v
  }

  function DropEnd(v: cstring): cstring
    decreases |v|
  {
    if |v| > 0 && (Blank(v[|v| - 1]) || v[|v| - 1] == 13 || v[|v| - 1] == 10) then DropEnd(v[..|v| - 1]) else v
  }

  /** Without blanks around it; at most 63 bytes are looked at. */
  function Trimmed(v: cstring): cstring {
    var t := SkipBlanks(v);
    DropEnd(if |t| > 63 then t[..63] else t)
  }

  /** The name of a room with exactly the '#' it is hashed with, or nothing when it is no room name. */
  function Normal(v: cstring): cstring {
    var t := Trimmed(v);
    var name := if |t| > 0 && t[0] == 35 then t else [35] + t;
    if |t| == 0 || |name| < 2 || |name| >= NAME_LEN then [] else name
  }

  predicate AllBlank(v: cstring) {
    forall i :: 0 <= i < |v| ==> Blank(v[i])
  }

  lemma {:induction false} BlanksSkipped(front: cstring, rest: cstring)
    requires AllBlank(front) && (|rest| > 0 ==> !Blank(rest[0]))
    ensures SkipBlanks(front + rest) == rest
    decreases |front|
  {
    if |front| == 0 {
      assert front + rest == rest;
    } else {
      assert (front + rest)[1..] == front[1..] + rest;
      BlanksSkipped(front[1..], rest);
    }
  }

  predicate EndBlank(b: byte) { Blank(b) || b == 13 || b == 10 }

  lemma {:induction false} EndDropped(core: cstring, back: cstring)
    requires (forall i :: 0 <= i < |back| ==> EndBlank(back[i])) && (|core| > 0 ==> !EndBlank(core[|core| - 1]))
    ensures DropEnd(core + back) == core
    decreases |back|
  {
    if |back| == 0 {
      assert core + back == core;
    } else {
      assert (core + back)[..|core + back| - 1] == core + back[..|back| - 1];
      EndDropped(core, back[..|back| - 1]);
    }
  }

  /**
   The blanks around a name do not count, and it is stored with one '#' in front; but for a bare '#' and one that
   is too long. What stands behind the first blanks is at most 63 bytes.
   */
  lemma NormalIs(front: cstring, core: cstring, back: cstring)
    requires AllBlank(front) && (forall i :: 0 <= i < |back| ==> EndBlank(back[i])) && |core + back| <= 63
    requires |core| > 0 && !Blank(core[0]) && !EndBlank(core[|core| - 1])
    ensures Normal(front + core + back)
         == if core == [35] || |core| >= (if core[0] == 35 then 32 else 31) then []
            else if core[0] == 35 then core else [35] + core
  {
    assert front + core + back == front + (core + back);
    BlanksSkipped(front, core + back);
    EndDropped(core, back);
  }

  predicate HasRoom(rooms: seq<Room>, name: cstring) {
    exists i :: 0 <= i < |rooms| && rooms[i].name == name
  }

  predicate HasSecret(channels: seq<channel>, secret: seq<byte>)
    requires |secret| <= 32
  {
    exists i :: 0 <= i < |channels| && channels[i].secretLen == |secret| && channels[i].secret[..|secret|] == secret
  }

  function Padded(secret: seq<byte>): (r: seq<byte>)
    requires |secret| <= 32
    ensures |r| == 32
  {
    secret + Zeros(32 - |secret|)
  }

  function Short(name: cstring): cstring {
    if |name| > 31 then name[..31] else name
  }

  /** The channels with one more, unless its secret is there or the table is full. */
  function Registered(s: Suite, channels: seq<channel>, name: cstring, secret: seq<byte>, derived: bool,
          hub: bool): seq<channel>
    requires |secret| == 16 || |secret| == 32
  {
    if HasSecret(channels, secret) || |channels| >= MAX_CHANNELS then channels
    else channels + [Channel(Short(name), Padded(secret), |secret|, s.digest(secret)[0], derived, hub)]
  }

  /** A room, and the channel that goes by its name. */
  function AddRoom(s: Suite, t: Tables, v: cstring, hub: bool): Tables {
    var name := Normal(v);
    if name == [] || HasRoom(t.rooms, name) || |t.rooms| >= MAX_TABLE then t
    else
      var key := s.digest(name)[..16];
      Tables(t.rooms + [Room(name, key, hub)], Registered(s, t.channels, name, key, true, hub))
  }

  /** A room that is added brings the channel whose key is its own, unless that is there or the table is full. */
  lemma AddedListens(s: Suite, t: Tables, v: cstring, hub: bool)
    ensures var next, name := AddRoom(s, t, v, hub), Normal(v);
            var key := s.digest(name)[..16];
            if next.rooms == t.rooms then
              next == t && (name == [] || HasRoom(t.rooms, name) || |t.rooms| >= 40)
            else
              && next.rooms == t.rooms + [Room(name, key, hub)]
              && (HasSecret(next.channels, key) || |t.channels| >= 48)
              && (next.channels == t.channels
                  || next.channels == t.channels + [Channel(name, key + Zeros(16), 16, s.digest(key)[0], true, hub)])
  {
    var next, name := AddRoom(s, t, v, hub), Normal(v);
    var key := s.digest(name)[..16];
    if next.channels != t.channels {
      var c := next.channels[|t.channels|];
      assert c.secretLen == |key| && c.secret[..|key|] == key;
    }
  }

  // ---------------------------------------------------------------- merging

  /** The elements to keep, in order. */
  function Filter<T>(s: seq<T>, keep: T -> bool): (r: seq<T>)
    ensures |r| <= |s|
    decreases |s|
  {
    if |s| == 0 then []
    else
      var last := |s| - 1;
      if keep(s[last]) then Filter(s[..last], keep) + [s[last]] else Filter(s[..last], keep)
  }

  lemma FilterNext<T>(s: seq<T>, x: T, keep: T -> bool)
    ensures Filter(s + [x], keep) == if keep(x) then Filter(s, keep) + [x] else Filter(s, keep)
  {
    assert (s + [x])[..|s|] == s;
  }

  lemma {:induction false} FilterAgain<T>(s: seq<T>, keep: T -> bool)
    ensures Filter(Filter(s, keep), keep) == Filter(s, keep)
    decreases |s|
  {
    if |s| > 0 {
      var last := |s| - 1;
      FilterAgain(s[..last], keep);
      FilterNext(Filter(s[..last], keep), s[last], keep);
    }
  }

  predicate OwnRoom(r: Room) { !r.hub }

  predicate OwnChannel(c: channel) { !c.hub }

  function LocalRooms(rooms: seq<Room>): seq<Room> {
    Filter(rooms, OwnRoom)
  }

  function LocalChannels(channels: seq<channel>): seq<channel> {
    Filter(channels, OwnChannel)
  }

  /** What the node's own configuration put there. */
  function Local(t: Tables): Tables {
    Tables(LocalRooms(t.rooms), LocalChannels(t.channels))
  }

  /** The tables, how many of the hub's rooms are served, and how many are not. */
  datatype Merged = Merged(tables: Tables, served: nat, skipped: int)

  function AddNext(s: Suite, m: Merged, name: cstring): Merged {
    var next := AddRoom(s, m.tables, name, true);
    if HasRoom(m.tables.rooms, name) then m.(served := m.served + 1)
    else if |next.rooms| > |m.tables.rooms| then Merged(next, m.served + 1, m.skipped)
    else Merged(next, m.served, m.skipped + 1)
  }

  function AddHubRooms(s: Suite, m: Merged, names: seq<cstring>): Merged
    decreases |names|
  {
    if |names| == 0 then m else AddNext(s, AddHubRooms(s, m, names[..|names| - 1]), names[|names| - 1])
  }

  /** The hub's rooms over the node's own, when the node takes policies. */
  function Merge(s: Suite, takes: bool, t: Tables, rooms: seq<cstring>, skipped: int): Merged {
    var own := Merged(Local(t), 0, skipped);
    if takes then AddHubRooms(s, own, rooms) else own
  }

  /** A room of the hub's leaves the node's own as they were, and the tables within their limits. */
  lemma AddRoomLocal(s: Suite, t: Tables, v: cstring)
    ensures Local(AddRoom(s, t, v, true)) == Local(t)
    ensures t.rooms <= AddRoom(s, t, v, true).rooms && t.channels <= AddRoom(s, t, v, true).channels
    ensures |t.rooms| <= MAX_TABLE ==> |AddRoom(s, t, v, true).rooms| <= MAX_TABLE
    ensures |t.channels| <= MAX_CHANNELS ==> |AddRoom(s, t, v, true).channels| <= MAX_CHANNELS
  {
    var name := Normal(v);
    var key := s.digest(name)[..16];
    var next := AddRoom(s, t, v, true);
    if next != t {
      FilterNext(t.rooms, Room(name, key, true), OwnRoom);
      if |next.channels| > |t.channels| {
        FilterNext(t.channels, next.channels[|t.channels|], OwnChannel);
      }
    }
  }

  lemma {:induction false} AddHubRoomsLocal(s: Suite, m: Merged, names: seq<cstring>)
    ensures var r := AddHubRooms(s, m, names);
            && Local(r.tables) == Local(m.tables)
            && m.tables.rooms <= r.tables.rooms && m.tables.channels <= r.tables.channels
            && (|m.tables.rooms| <= MAX_TABLE ==> |r.tables.rooms| <= MAX_TABLE)
            && (|m.tables.channels| <= MAX_CHANNELS ==> |r.tables.channels| <= MAX_CHANNELS)
            && r.served + r.skipped == m.served + m.skipped + |names|
    decreases |names|
  {
    if |names| > 0 {
      var last := |names| - 1;
      AddHubRoomsLocal(s, m, names[..last]);
      AddRoomLocal(s, AddHubRooms(s, m, names[..last]).tables, names[last]);
    }
  }

  /** The node's own rooms and channels come first and survive, in order; the limits hold. */
  lemma MergeKeepsLocal(s: Suite, takes: bool, t: Tables, rooms: seq<cstring>, skipped: int)
    ensures var r := Merge(s, takes, t, rooms, skipped);
            && Local(r.tables) == Local(t)
            && Local(t).rooms <= r.tables.rooms && Local(t).channels <= r.tables.channels
            && (|t.rooms| <= MAX_TABLE ==> |r.tables.rooms| <= MAX_TABLE)
            && (|t.channels| <= MAX_CHANNELS ==> |r.tables.channels| <= MAX_CHANNELS)
  {
    FilterAgain(t.rooms, OwnRoom);
    FilterAgain(t.channels, OwnChannel);
    AddHubRoomsLocal(s, Merged(Local(t), 0, skipped), rooms);
  }

  /** A room name as the hub sends it is stored as it is. */
  lemma NormalOfRoom(v: cstring)
    requires RoomName(v)
    ensures Normal(v) == v
  {
    assert SkipBlanks(v) == v && DropEnd(v) == v;
  }

  predicate AllRooms(names: seq<cstring>) {
    forall i :: 0 <= i < |names| ==> RoomName(names[i])
  }

  /** How many of the first n of these names are served. */
  function ServedOf(rooms: seq<Room>, names: seq<cstring>, n: nat): nat
    requires n <= |names|
  {
    if n == 0 then 0 else ServedOf(rooms, names, n - 1) + if HasRoom(rooms, names[n - 1]) then 1 else 0
  }

  lemma {:induction false} ServedSame(a: seq<Room>, b: seq<Room>, names: seq<cstring>, n: nat)
    requires n <= |names| && forall i :: 0 <= i < n ==> HasRoom(a, names[i]) == HasRoom(b, names[i])
    ensures ServedOf(a, names, n) == ServedOf(b, names, n)
    decreases n
  {
    if n > 0 {
      ServedSame(a, b, names, n - 1);
    }
  }

  lemma {:induction false} ServedPrefix(rooms: seq<Room>, names: seq<cstring>, k: nat, n: nat)
    requires n <= k <= |names|
    ensures ServedOf(rooms, names[..k], n) == ServedOf(rooms, names, n)
    decreases n
  {
    if n > 0 {
      ServedPrefix(rooms, names, k, n - 1);
    }
  }

  /** The room of this name, its key the digest of the name, marked as the hub's. */
  predicate IsOffered(s: Suite, r: Room, names: seq<cstring>) {
    r.hub && r.name in names && r.key == s.digest(r.name)[..16]
  }

  /** What merging these rooms over `own` comes to. */
  predicate Serves(s: Suite, own: seq<Room>, names: seq<cstring>, m: Merged) {
    && own <= m.tables.rooms
    && (forall i :: |own| <= i < |m.tables.rooms| ==> IsOffered(s, m.tables.rooms[i], names))
    && (forall i :: 0 <= i < |names| ==> HasRoom(m.tables.rooms, names[i]) || |m.tables.rooms| >= MAX_TABLE)
    && m.served == ServedOf(m.tables.rooms, names, |names|)
  }

  lemma HasAppended(rooms: seq<Room>, r: Room, name: cstring)
    ensures HasRoom(rooms + [r], name) <==> HasRoom(rooms, name) || r.name == name
  {
    assert (rooms + [r])[|rooms|] == r;
    if HasRoom(rooms, name) {
      var i :| 0 <= i < |rooms| && rooms[i].name == name;
      assert (rooms + [r])[i].name == name;
    }
  }

  /** One more room: there already, added behind the others, or left out because the table is full. */
  lemma NextServes(s: Suite, own: seq<Room>, names: seq<cstring>, m: Merged, name: cstring)
    requires Serves(s, own, names, m) && RoomName(name)
    ensures Serves(s, own, names + [name], AddNext(s, m, name))
  {
    NormalOfRoom(name);
    var rooms, next := m.tables.rooms, AddNext(s, m, name).tables.rooms;
    var all := names + [name];
    assert all[..|names|] == names && all[|names|] == name;
    if !HasRoom(rooms, name) && |rooms| < MAX_TABLE {
      var r := Room(name, s.digest(name)[..16], true);
      assert next == rooms + [r];
      HasAppended(rooms, r, name);
      forall i | 0 <= i < |names|
        ensures HasRoom(next, names[i]) && HasRoom(rooms, names[i])
      {
        HasAppended(rooms, r, names[i]);
      }
    }
    assert forall i :: 0 <= i < |names| ==> all[i] == names[i];
    ServedSame(rooms, next, all, |names|);
    ServedPrefix(rooms, all, |names|, |names|);
  }

  lemma {:induction false} HubRoomsServed(s: Suite, own: Tables, names: seq<cstring>, skipped: int)
    requires AllRooms(names)
    ensures Serves(s, own.rooms, names, AddHubRooms(s, Merged(own, 0, skipped), names))
    decreases |names|
  {
    if |names| > 0 {
      var last := |names| - 1;
      HubRoomsServed(s, own, names[..last], skipped);
      NextServes(s, own.rooms, names[..last], AddHubRooms(s, Merged(own, 0, skipped), names[..last]), names[last]);
      assert names[..last] + [names[last]] == names;
    }
  }

  /**
   Which rooms a node serves that takes policies: behind its own those offered, keyed by the digest of their
   names; each that is offered unless the table is full; and `served` counts them.
   */
  lemma MergeServes(s: Suite, t: Tables, names: seq<cstring>, skipped: int)
    requires AllRooms(names)
    ensures Serves(s, LocalRooms(t.rooms), names, Merge(s, true, t, names, skipped))
  {
    HubRoomsServed(s, Local(t), names, skipped);
  }

  /** The last set decides: an earlier one leaves no trace. */
  lemma LastSetDecides(s: Suite, first: bool, last: bool, t: Tables, a: seq<cstring>, i: int, b: seq<cstring>, j: int)
    ensures Merge(s, last, Merge(s, first, t, a, i).tables, b, j) == Merge(s, last, t, b, j)
  {
    MergeKeepsLocal(s, first, t, a, i);
  }

  /**
   Rooms served and rooms skipped are the rooms offered and those the hub's set was over its own limits
   by: exactly when the node takes policies, or none is offered.
   */
  lemma CountsAddUpIff(s: Suite, takes: bool, t: Tables, rooms: seq<cstring>, skipped: int)
    ensures var r := Merge(s, takes, t, rooms, skipped);
            r.served + r.skipped == |rooms| + skipped <==> takes || |rooms| == 0
  {
    AddHubRoomsLocal(s, Merged(Local(t), 0, skipped), rooms);
  }

  /** A node that takes no policies neither serves nor counts the room "#a". */
  lemma OfferedNotCounted(s: Suite, t: Tables, name: cstring)
    requires t == Tables([], []) && name == [35, 97]
    ensures var r := Merge(s, false, t, [name], 0); r.served + r.skipped == 0
  {
  }

  // ---------------------------------------------------------------- sets of the hub's

  /** The values of a list but those this node is known by. */
  function WithoutName(names: seq<text>, own: cstring): seq<text>
    decreases |names|
  {
    if |names| == 0 then []
    else
      var last := |names| - 1;
      WithoutName(names[..last], own) + if 0 !in names[last] && SameName(names[last], own) then [] else [names[last]]
  }

  function WithoutKey(keys: seq<text>, own: text): seq<text>
    decreases |keys|
  {
    if |keys| == 0 then []
    else
      var last := |keys| - 1;
      WithoutKey(keys[..last], own) + if keys[last] == own then [] else [keys[last]]
  }

  /** The set without blocks of this node itself. */
  function Kept(p: Policy, ownName: cstring, ownKey: text): Policy {
    p.(names := WithoutName(p.names, ownName), keys := WithoutKey(p.keys, ownKey))
  }

  lemma CountSnoc(s: seq<text>, x: text, v: text)
    ensures multiset(s + [x])[v] == multiset(s)[v] + if x == v then 1 else 0
  {
  }

  /** Nothing else is dropped: a value is kept as often as before unless it names this node. */
  lemma {:induction false} KeptNames(names: seq<text>, own: cstring, v: text)
    ensures multiset(WithoutName(names, own))[v] == if 0 !in v && SameName(v, own) then 0 else multiset(names)[v]
    decreases |names|
  {
    if |names| > 0 {
      var last := |names| - 1;
      KeptNames(names[..last], own, v);
      assert names == names[..last] + [names[last]];
      CountSnoc(names[..last], names[last], v);
      CountSnoc(WithoutName(names[..last], own), names[last], v);
    }
  }

  lemma {:induction false} KeptKeys(keys: seq<text>, own: text, v: text)
    ensures multiset(WithoutKey(keys, own))[v] == if v == own then 0 else multiset(keys)[v]
    decreases |keys|
  {
    if |keys| > 0 {
      var last := |keys| - 1;
      KeptKeys(keys[..last], own, v);
      assert keys == keys[..last] + [keys[last]];
      CountSnoc(keys[..last], keys[last], v);
      CountSnoc(WithoutKey(keys[..last], own), keys[last], v);
    }
  }

  /** The configuration that policies are applied to. */
  datatype Applied = Applied(policy: Policy, merged: Merged)

  predicate IsSet(p: Policy) {
    forall i :: 0 <= i < |p.rooms| ==> 0 !in p.rooms[i]
  }

  function RoomNames(p: Policy): seq<cstring>
    requires IsSet(p)
  {
    p.rooms
  }

  function WithPolicy(s: Suite, takes: bool, t: Tables, p: Policy, ownName: cstring, ownKey: text): Applied
    requires IsSet(p)
  {
    Applied(Kept(p, ownName, ownKey), Merge(s, takes, t, RoomNames(p), p.skipped))
  }

  /** After sets applied one after the other to the tables `t`. */
  function AfterSets(s: Suite, takes: bool, t: Tables, sets: seq<Policy>, ownName: cstring, ownKey: text): Applied
    requires |sets| > 0 && forall i :: 0 <= i < |sets| ==> IsSet(sets[i])
    decreases |sets|
  {
    var last := |sets| - 1;
    var before := if last == 0 then t else AfterSets(s, takes, t, sets[..last], ownName, ownKey).merged.tables;
    WithPolicy(s, takes, before, sets[last], ownName, ownKey)
  }

  /** Whatever sets came before, the result is that of the last one alone. */
  lemma {:induction false} OnlyLastCounts(s: Suite, takes: bool, t: Tables, sets: seq<Policy>, ownName: cstring,
          ownKey: text)
    requires |sets| > 0 && forall i :: 0 <= i < |sets| ==> IsSet(sets[i])
    ensures AfterSets(s, takes, t, sets, ownName, ownKey) == WithPolicy(s, takes, t, sets[|sets| - 1], ownName, ownKey)
    decreases |sets|
  {
    var last := |sets| - 1;
    if last > 0 {
      OnlyLastCounts(s, takes, t, sets[..last], ownName, ownKey);
      var p := sets[last - 1];
      LastSetDecides(s, takes, takes, t, RoomNames(p), p.skipped, RoomNames(sets[last]), sets[last].skipped);
    }
  }

  // ---------------------------------------------------------------- the program

  /** The first n rooms of three parallel arrays. */
  ghost predicate Hold(rooms: array<cstring>, keys: array<seq<byte>>, hub: array<bool>, from: nat, s: seq<Room>)
    reads rooms, keys, hub
  {
    && from + |s| <= rooms.Length == keys.Length == hub.Length
    && forall j :: from <= j < from + |s| ==>
         rooms[j] == s[j - from].name && keys[j] == s[j - from].key && hub[j] == s[j - from].hub
  }

  /** Room i joins the w rooms kept. */
  method MoveRoom(rooms: array<cstring>, keys: array<seq<byte>>, hub: array<bool>, w: nat, i: nat,
          ghost kept: seq<Room>, ghost rest: seq<Room>)
    requires |kept| == w <= i && |rest| > 0 && !rest[0].hub
    requires Hold(rooms, keys, hub, 0, kept) && Hold(rooms, keys, hub, i, rest)
    requires rooms as object != keys && rooms as object != hub && keys as object != hub
    modifies rooms, keys, hub
    ensures Hold(rooms, keys, hub, 0, kept + [rest[0]]) && Hold(rooms, keys, hub, i + 1, rest[1..])
  {
    if w != i {
      rooms[w] := rooms[i];
      keys[w] := keys[i];
    }
    hub[w] := false;
  }

  lemma HoldNext(rooms: array<cstring>, keys: array<seq<byte>>, hub: array<bool>, i: nat, rest: seq<Room>)
    requires |rest| > 0 && Hold(rooms, keys, hub, i, rest)
    ensures hub[i] == rest[0].hub && Hold(rooms, keys, hub, i + 1, rest[1..])
  {
  }

  /** Keeps the rooms that are not the hub's, closing the gaps; `w` rooms are left. */
  method CompactRooms(rooms: array<cstring>, keys: array<seq<byte>>, hub: array<bool>, n: nat, ghost all: seq<Room>,
          ghost keep: Room -> bool)
    returns (w: nat)
    requires |all| == n && Hold(rooms, keys, hub, 0, all) && forall r: Room :: keep(r) == !r.hub
    requires rooms as object != keys && rooms as object != hub && keys as object != hub
    modifies rooms, keys, hub
    ensures w == |Filter(all, keep)| && Hold(rooms, keys, hub, 0, Filter(all, keep))
  {
    w := 0;
    ghost var kept: seq<Room> := [];
    assert kept == Filter(all[..0], keep);
    for i := 0 to n
      invariant w == |kept| <= i && kept == Filter(all[..i], keep)
      invariant Hold(rooms, keys, hub, 0, kept) && Hold(rooms, keys, hub, i, all[i..])
    {
      ghost var rest := all[i..];
      assert all[..i + 1] == all[..i] + [all[i]] && all[i] == rest[0] && rest[1..] == all[i + 1..];
      FilterNext(all[..i], all[i], keep);
      HoldNext(rooms, keys, hub, i, rest);
      if hub[i] {
        continue;
      }
      MoveRoom(rooms, keys, hub, w, i, kept, rest);
      w := w + 1;
      kept := kept + [all[i]];
    }
    assert all[..n] == all;
  }

  /** Keeps the elements of the first n that are to be kept, closing the gaps; `w` are left. */
  method KeepOnly<T>(a: array<T>, n: nat, ghost all: seq<T>, keep: T -> bool) returns (w: nat)
    requires n <= a.Length && all == a[..n]
    modifies a
    ensures w == |Filter(all, keep)| <= a.Length && a[..w] == Filter(all, keep)
  {
    w := 0;
    ghost var kept: seq<T> := [];
    assert kept == Filter(all[..0], keep);
    for i := 0 to n
      invariant w == |kept| <= i && kept == Filter(all[..i], keep)
      invariant forall j :: 0 <= j < w ==> a[j] == kept[j]
      invariant forall j :: i <= j < n ==> a[j] == all[j]
    {
      assert all[..i + 1] == all[..i] + [all[i]];
      FilterNext(all[..i], all[i], keep);
      if !keep(a[i]) {
        continue;
      }
      if w != i {
        a[w] := a[i];
      }
      w := w + 1;
      kept := kept + [all[i]];
    }
    assert all[..n] == all && a[..w] == kept;
  }

  /** The tables of a node: parallel arrays with a count, changed in place. */
  class Config {
    const suite: Suite
    const ownName: cstring
    const takes: bool
    const rooms: array<cstring>
    const roomKeys: array<seq<byte>>
    const roomHub: array<bool>
    var nRooms: nat
    const channels: array<channel>
    var nChannels: nat
    var policy: Policy
    var served: nat
    var skipped: int

    ghost function Repr(): set<object>
      reads this
    {
      {this, rooms, roomKeys, roomHub, channels}
    }

    ghost predicate Valid()
      reads Repr()
    {
      && rooms.Length == MAX_TABLE && roomKeys.Length == MAX_TABLE && roomHub.Length == MAX_TABLE
      && channels.Length == MAX_CHANNELS && nRooms <= MAX_TABLE && nChannels <= MAX_CHANNELS
      && rooms as object != roomKeys && rooms as object != roomHub && rooms as object != channels
      && roomKeys as object != roomHub && roomKeys as object != channels && roomHub as object != channels
    }

    ghost function RoomsUpTo(n: nat): (r: seq<Room>)
      reads rooms, roomKeys, roomHub
      requires n <= rooms.Length && n <= roomKeys.Length && n <= roomHub.Length
      ensures |r| == n && forall i :: 0 <= i < n ==> r[i] == Room(rooms[i], roomKeys[i], roomHub[i])
    {
      seq(n, i requires 0 <= i < n reads rooms, roomKeys, roomHub
               requires n <= rooms.Length && n <= roomKeys.Length && n <= roomHub.Length
             => Room(rooms[i], roomKeys[i], roomHub[i]))
    }

    ghost function Value(): Tables
      reads Repr()
      requires Valid()
    {
      Tables(RoomsUpTo(nRooms), channels[..nChannels])
    }

    constructor (suite: Suite, ownName: cstring, takes: bool)
      ensures Valid() && fresh(Repr()) && Value() == Tables([], []) && this.suite == suite
      ensures this.ownName == ownName && this.takes == takes
    {
      this.suite, this.ownName, this.takes := suite, ownName, takes;
      rooms := new cstring[40](_ => []);
      roomKeys := new seq<byte>[40](_ => []);
      roomHub := new bool[40](_ => false);
      channels := new channel[48](_ => Channel([], Zeros(32), 16, 0, true, false));
      nRooms, nChannels, served, skipped := 0, 0, 0, 0;
      policy := Fresh(0);
    }

    /** Takes the hub's rooms and channels out. */
    method Compact()
      requires Valid()
      modifies this`nRooms, this`nChannels, rooms, roomKeys, roomHub, channels
      ensures Valid() && Value() == Local(old(Value()))
    {
      ghost var all := RoomsUpTo(nRooms);
      ghost var before := channels[..nChannels];
      nRooms := CompactRooms(rooms, roomKeys, roomHub, nRooms, all, OwnRoom);
      assert RoomsUpTo(nRooms) == Filter(all, OwnRoom);
      assert channels[..nChannels] == before;
      nChannels := KeepOnly(channels, nChannels, before, OwnChannel);
      assert RoomsUpTo(nRooms) == Filter(all, OwnRoom);
    }

    /** Adds a channel unless its secret is there; -2 when the table is full. */
    method RegisterChannel(name: cstring, secret: seq<byte>, derived: bool) returns (rc: int)
      requires Valid() && (|secret| == 16 || |secret| == 32)
      modifies this`nChannels, channels
      ensures Valid()
              && channels[..nChannels] == Registered(suite, old(channels[..nChannels]), name, secret, derived, false)
      ensures rc == -2 <==> !HasSecret(old(channels[..nChannels]), secret) && old(nChannels) == MAX_CHANNELS
      ensures rc == 0 || rc == -2
    {
      ghost var before := channels[..nChannels];
      for i := 0 to nChannels
        invariant forall j :: 0 <= j < i ==>
                    !(channels[j].secretLen == |secret| && channels[j].secret[..|secret|] == secret)
      {
        if channels[i].secretLen == |secret| && channels[i].secret[..|secret|] == secret {
          assert before[i] == channels[i];
          return 0;
        }
      }
      if nChannels >= MAX_CHANNELS {
        return -2;
      }
      channels[nChannels] := Channel(Short(name), Padded(secret), |secret|, suite.digest(secret)[0], derived, false);
      nChannels := nChannels + 1;
      return 0;
    }

    /** 0 for a room that is there now, -2 for no room name or a full table. */
    method AddRoomEx(v: cstring, hub: bool) returns (rc: int)
      requires Valid()
      modifies this`nRooms, this`nChannels, rooms, roomKeys, roomHub, channels
      ensures Valid() && Value() == AddRoom(suite, old(Value()), v, hub)
      ensures rc == -2 <==> Normal(v) == [] || (!HasRoom(old(Value()).rooms, Normal(v)) && old(nRooms) == MAX_TABLE)
      ensures rc == 0 || rc == -2
    {
      ghost var t := Value();
      var name := Normal(v);
      if name == [] {
        return -2;
      }
      for i := 0 to nRooms
        invariant forall j :: 0 <= j < i ==> rooms[j] != name
      {
        if rooms[i] == name {
          assert t.rooms[i].name == name;
          return 0;
        }
      }
      assert !HasRoom(t.rooms, name);
      if nRooms >= MAX_TABLE {
        return -2;
      }
      var key := suite.digest(name)[..16];
      rooms[nRooms], roomKeys[nRooms], roomHub[nRooms] := name, key, hub;
      nRooms := nRooms + 1;
      assert RoomsUpTo(nRooms) == t.rooms + [Room(name, key, hub)];
      assert channels[..nChannels] == t.channels;
      AddRoomChannel(name, key, hub);
      return 0;
    }

    /** The channel that goes by a room's name, marked as the hub's when the room is. */
    method AddRoomChannel(name: cstring, key: seq<byte>, hub: bool)
      requires Valid() && |key| == 16
      modifies this`nChannels, channels
      ensures Valid()
              && Value() == Tables(old(Value()).rooms, Registered(suite, old(Value()).channels, name, key, true, hub))
    {
      ghost var t := Value();
      var had := nChannels;
      var _ := RegisterChannel(name, key, true);
      if hub && nChannels > had {
        channels[had] := channels[had].(hub := true);
      }
      assert RoomsUpTo(nRooms) == t.rooms;
    }

    method MergePolicy()
      requires Valid() && IsSet(policy)
      modifies this`nRooms, this`nChannels, this`served, this`skipped, rooms, roomKeys, roomHub, channels
      ensures Valid()
              && Merged(Value(), served, skipped) == Merge(suite, takes, old(Value()), RoomNames(policy), policy.skipped)
    {
      Compact();
      ghost var own := Merged(Value(), 0, policy.skipped);
      served := 0;
      skipped := policy.skipped;
      if !takes {
        return;
      }
      ghost var names := RoomNames(policy);
      for i := 0 to |policy.rooms|
        invariant Valid() && policy == old(policy)
        invariant Merged(Value(), served, skipped) == AddHubRooms(suite, own, names[..i])
      {
        assert names[..i + 1][..i] == names[..i];
        MergeRoom(policy.rooms[i]);
      }
      assert names[..|names|] == names;
    }

    method MergeRoom(name: cstring)
      requires Valid()
      modifies this`nRooms, this`nChannels, this`served, this`skipped, rooms, roomKeys, roomHub, channels
      ensures Valid() && Merged(Value(), served, skipped)
                         == AddNext(suite, Merged(old(Value()), old(served), old(skipped)), name)
    {
      ghost var t := Value();
      var had := nRooms;
      var isServed := false;
      for k := 0 to had
        invariant isServed <==> exists j :: 0 <= j < k && rooms[j] == name
      {
        if rooms[k] == name {
          isServed := true;
        }
      }
      if isServed {
        assert exists j :: 0 <= j < had && t.rooms[j].name == name;
        served := served + 1;
        return;
      }
      assert !HasRoom(t.rooms, name);
      var rc := AddRoomEx(name, true);
      if rc == 0 && nRooms > had {
        served := served + 1;
      } else {
        skipped := skipped + 1;
      }
    }

    /** Takes a new set: without blocks of this node, merged over its own tables. */
    method SetPolicy(p: Policy, ownKey: text)
      requires Valid() && IsSet(p)
      modifies Repr()
      ensures Valid()
      ensures Applied(policy, Merged(Value(), served, skipped))
           == WithPolicy(suite, takes, old(Value()), p, ownName, ownKey)
    {
      var names: seq<text> := [];
      for i := 0 to |p.names|
        invariant names == WithoutName(p.names[..i], ownName)
      {
        assert p.names[..i + 1][..i] == p.names[..i];
        if !(0 !in p.names[i] && SameName(p.names[i], ownName)) {
          names := names + [p.names[i]];
        }
      }
      assert p.names[..|p.names|] == p.names;
      var keys: seq<text> := [];
      for i := 0 to |p.keys|
        invariant keys == WithoutKey(p.keys[..i], ownKey)
      {
        assert p.keys[..i + 1][..i] == p.keys[..i];
        if p.keys[i] != ownKey {
          keys := keys + [p.keys[i]];
        }
      }
      assert p.keys[..|p.keys|] == p.keys;
      policy := Policy(p.version, p.rooms, names, keys, p.skipped);
      MergePolicy();
    }
  }
}
