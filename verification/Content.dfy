/**
 The content policy: which packets are public, from the channels and rooms a node is configured with.
 */
module Content {

  import opened Bytes
  import opened Packet
  import opened Crypto

  /** A C string: the bytes before its terminating zero. */
  type cstring = s: seq<byte> | 0 !in s witness []

  /** A channel the operator declared public; a 16-byte key is padded with zeros to 32 bytes. */
  datatype Channel = Channel(name: cstring, secret: seq<byte>, secretLen: nat, hash: byte, derived: bool, hub: bool)

  type channel = c: Channel | |c.secret| == 32 witness Channel([], Zeros(32), 16, 0, true, false)

  /** What the policy needs of the configuration: the channels, and the keys of the rooms served. */
  datatype Public = Public(channels: seq<channel>, roomKeys: seq<seq<byte>>)

  datatype Decision =
    | OkPublic
    | OkGrpPublic
    | OkRegion
    | DropDm
    | DropGrpUnmatched
    | DropGrpMacFail
    | DropOther

  /** Group payload: channel hash, two bytes of MAC, at least one block of ciphertext. */
  const MIN_GROUP: nat := 19

  predicate IsGroup(p: packet) { PayloadType(p) == GRP_TXT || PayloadType(p) == GRP_DATA }

  predicate HashMatches(ch: channel, p: packet)
    requires |p.payload| >= MIN_GROUP
  {
    ch.hash == p.payload[0]
  }

  /** The packet is on this channel, and the channel's key made its MAC. */
  predicate Verifies(s: Suite, ch: channel, p: packet)
    requires |p.payload| >= MIN_GROUP
  {
    HashMatches(ch, p) && s.mac(ch.secret, p.payload[3..])[..2] == p.payload[1..3]
  }

  // ---------------------------------------------------------------- transport regions

  /** The code of a room for a payload: two bytes of its MAC, 0 and 0xFFFF being reserved. */
  function RegionCode(s: Suite, key: seq<byte>, kind: nat, payload: seq<byte>): (c: u16)
    requires kind < 16
    ensures 1 <= c <= 0xFFFE
  {
    var h := s.mac(key, [kind] + payload);
    var code := Word16(h[0], h[1]);
    if code == 0 then 1 else if code == 0xFFFF then 0xFFFE else code
  }

  /** The code as it is sent is the first two bytes of the MAC of type and payload, but for the two reserved. */
  lemma RegionCodeIs(s: Suite, key: seq<byte>, kind: nat, payload: seq<byte>)
    requires kind < 16
    ensures var h, sent := s.mac(key, [kind] + payload), Le16(RegionCode(s, key, kind, payload));
            sent == if h[..2] == [0, 0] then [1, 0] else if h[..2] == [255, 255] then [254, 255] else h[..2]
  {
    var h := s.mac(key, [kind] + payload);
    assert h[..2] == [h[0], h[1]];
    var low: int, high: int := h[0], h[1];
    assert (low + 256 * high) % 256 == low && (low + 256 * high) / 256 == high;
  }

  /** A transport flood tagged for this room. */
  predicate InRegion(s: Suite, key: seq<byte>, p: packet) {
    RouteType(p) == TRANSPORT_FLOOD && RegionCode(s, key, PayloadType(p), p.payload) == p.code0
  }

  // ---------------------------------------------------------------- the decision

  predicate OnPublicChannel(s: Suite, cfg: Public, p: packet) {
    |p.payload| >= MIN_GROUP && exists i :: 0 <= i < |cfg.channels| && Verifies(s, cfg.channels[i], p)
  }

  predicate OnKnownHash(cfg: Public, p: packet) {
    |p.payload| >= MIN_GROUP && exists i :: 0 <= i < |cfg.channels| && HashMatches(cfg.channels[i], p)
  }

  predicate InServedRegion(s: Suite, cfg: Public, p: packet) {
    exists i :: 0 <= i < |cfg.roomKeys| && InRegion(s, cfg.roomKeys[i], p)
  }

  function Decide(s: Suite, cfg: Public, p: packet): Decision {
    var kind := PayloadType(p);
    if kind == ADVERT || kind == TRACE then OkPublic
    else if IsGroup(p) then
      if |p.payload| < MIN_GROUP then DropGrpUnmatched
      else if OnPublicChannel(s, cfg, p) then OkGrpPublic
      else if InServedRegion(s, cfg, p) then OkRegion
      else if OnKnownHash(cfg, p) then DropGrpMacFail
      else DropGrpUnmatched
    else if kind == REQ || kind == RESPONSE || kind == TXT_MSG || kind == ANON_REQ || kind == PATH then DropDm
    else DropOther
  }

  /** A group packet shown to be public: its MAC verifies on a channel, or it is tagged for a room. */
  predicate Shown(s: Suite, cfg: Public, p: packet) {
    IsGroup(p) && |p.payload| >= MIN_GROUP && (OnPublicChannel(s, cfg, p) || InServedRegion(s, cfg, p))
  }

  /** The policy forwards adverts, traces, and group packets shown to be public, and nothing else. */
  lemma ForwardsIff(s: Suite, cfg: Public, p: packet)
    ensures Decide(s, cfg, p).OkPublic? <==> PayloadType(p) == ADVERT || PayloadType(p) == TRACE
    ensures Decide(s, cfg, p).OkGrpPublic? <==> IsGroup(p) && OnPublicChannel(s, cfg, p)
    ensures Decide(s, cfg, p).OkGrpPublic? || Decide(s, cfg, p).OkRegion? <==> Shown(s, cfg, p)
  {
  }

  /** What is decided depends on header, payload and first transport code, not on the path. */
  lemma DecideIgnoresPath(s: Suite, cfg: Public, p: packet, q: packet)
    requires p.header == q.header && p.payload == q.payload && p.code0 == q.code0
    ensures Decide(s, cfg, p) == Decide(s, cfg, q) && Shown(s, cfg, p) == Shown(s, cfg, q)
  {
    forall i | 0 <= i < |cfg.roomKeys|
      ensures InRegion(s, cfg.roomKeys[i], p) == InRegion(s, cfg.roomKeys[i], q)
    {
    }
    if |p.payload| >= MIN_GROUP {
      forall i | 0 <= i < |cfg.channels|
        ensures Verifies(s, cfg.channels[i], p) == Verifies(s, cfg.channels[i], q)
        ensures HashMatches(cfg.channels[i], p) == HashMatches(cfg.channels[i], q)
      {
      }
    }
  }

  // ---------------------------------------------------------------- the program

  /** The first room this packet is tagged for, or -1. */
  method RegionIndex(s: Suite, cfg: Public, p: packet) returns (r: int)
    ensures -1 <= r < |cfg.roomKeys|
    ensures r >= 0 ==> InRegion(s, cfg.roomKeys[r], p)
    ensures forall i :: 0 <= i < (if r < 0 then |cfg.roomKeys| else r) ==> !InRegion(s, cfg.roomKeys[i], p)
    ensures r >= 0 <==> InServedRegion(s, cfg, p)
  {
    if RouteType(p) != TRANSPORT_FLOOD {
      return -1;
    }
    for i := 0 to |cfg.roomKeys|
      invariant forall j :: 0 <= j < i ==> !InRegion(s, cfg.roomKeys[j], p)
    {
      if RegionCode(s, cfg.roomKeys[i], PayloadType(p), p.payload) == p.code0 {
        assert InRegion(s, cfg.roomKeys[i], p);
        return i;
      }
    }
    return -1;
  }

  /** The decision, and for public group traffic the first channel that verifies (else -1). */
  method Classify(s: Suite, cfg: Public, p: packet) returns (d: Decision, matched: int)
    ensures d == Decide(s, cfg, p)
    ensures d.OkGrpPublic? <==> matched >= 0
    ensures d.OkGrpPublic? ==> |p.payload| >= MIN_GROUP && matched < |cfg.channels|
    ensures d.OkGrpPublic? ==> Verifies(s, cfg.channels[matched], p)
    ensures d.OkGrpPublic? ==> forall j :: 0 <= j < matched ==> !Verifies(s, cfg.channels[j], p)
  {
    var kind := PayloadType(p);
    matched := -1;
    if kind == ADVERT || kind == TRACE {
      return OkPublic, -1;
    }
    if kind == GRP_TXT || kind == GRP_DATA {
      if |p.payload| < MIN_GROUP {
        return DropGrpUnmatched, -1;
      }
      var hashSeen := false;
      for i := 0 to |cfg.channels|
        invariant forall j :: 0 <= j < i ==> !Verifies(s, cfg.channels[j], p)
        invariant hashSeen <==> exists j :: 0 <= j < i && HashMatches(cfg.channels[j], p)
      {
        if cfg.channels[i].hash == p.payload[0] {
          assert HashMatches(cfg.channels[i], p);
          hashSeen := true;
          if s.mac(cfg.channels[i].secret, p.payload[3..])[..2] == p.payload[1..3] {
            assert Verifies(s, cfg.channels[i], p);
            return OkGrpPublic, i;
          }
        }
      }
      var region := RegionIndex(s, cfg, p);
      if region >= 0 {
        return OkRegion, -1;
      }
      return if hashSeen then DropGrpMacFail else DropGrpUnmatched, -1;
    }
    if kind == REQ || kind == RESPONSE || kind == TXT_MSG || kind == ANON_REQ || kind == PATH {
      return DropDm, -1;
    }
    return DropOther, -1;
  }
}
