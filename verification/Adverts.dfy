/**
 Adverts a node builds of itself, and what another reads out of them.
 */
module Adverts {

  import opened Bytes
  import opened Packet
  import opened Routes
  import opened Content
  import opened Neighbours
  import Channel

  /** What an advert says: the kind of node, where it is in two signed 32-bit words, and its name. */
  datatype Place = Nowhere | At(lat: seq<byte>, lon: seq<byte>)

  datatype Info = Info(kind: nat, place: Place, name: cstring)

  predicate GoodInfo(x: Info) {
    x.kind < 16 && (x.place.At? ==> |x.place.lat| == 4 && |x.place.lon| == 4)
  }

  /** Room for the name in 32 bytes. */
  function NameRoom(x: Info): nat {
    if x.place.At? then 23 else 31
  }

  function Cut(name: cstring, n: nat): cstring {
    if |name| > n then name[..n] else name
  }

  function Flags(x: Info): byte
    requires GoodInfo(x)
  {
    x.kind + (if x.place.At? then 0x10 else 0) + if |x.name| > 0 then 0x80 else 0
  }

  /** Flags, place, and as much of the name as there is room for. */
  function Encoded(x: Info): (app: seq<byte>)
    requires GoodInfo(x)
    ensures 1 <= |app| <= 32
  {
    [Flags(x)] + (if x.place.At? then x.place.lat + x.place.lon else []) + Cut(x.name, NameRoom(x))
  }

  /** A flood without hops: the key, the time, a signature of 64 bytes and the data. */
  function Built(pub: key, ts: nat, sig: seq<byte>, x: Info): packet
    requires ts < 0x1_0000_0000 && |sig| == 64 && GoodInfo(x)
  {
    Packet(MakeHeader(0, ADVERT, FLOOD), 0, 0, 0, Zeros(64), pub + Le32(ts) + sig + Encoded(x))
  }

  /** What is signed. */
  function Signable(pub: key, ts: nat, x: Info): seq<byte>
    requires ts < 0x1_0000_0000 && GoodInfo(x)
  {
    pub + Le32(ts) + Encoded(x)
  }

  lemma FlagBits(x: Info)
    requires GoodInfo(x)
    ensures var f := Flags(x);
            && f % 16 == x.kind && (f / 16 % 2 == 1 <==> x.place.At?) && f / 32 % 2 == 0 && f / 64 % 2 == 0
            && (f / 128 == 0 <==> |x.name| == 0)
  {
  }

  lemma BuiltParts(pub: key, ts: nat, sig: seq<byte>, x: Info)
    requires ts < 0x1_0000_0000 && |sig| == 64 && GoodInfo(x)
    ensures var p := Built(pub, ts, sig, x);
            && WellFormed(p) && Canonical(p) && PayloadType(p) == ADVERT && IsFlood(p) && Count(p) == 0
            && |p.payload| >= DATA_OFFSET && AppData(p) == Encoded(x) && Advertiser(p) == pub
            && p.payload[..36] == pub + Le32(ts) && p.payload[36..100] == sig
  {
    FieldsOf(MakeHeader(0, ADVERT, FLOOD), 0, ADVERT, FLOOD);
    assert Zeros(64)[..0] + Zeros(64) == Zeros(64);
  }

  /** The receiver reads the kind and the name back, the name as far as it went in. */
  lemma BuiltReads(pub: key, ts: nat, sig: seq<byte>, x: Info, before: nat)
    requires ts < 0x1_0000_0000 && |sig| == 64 && GoodInfo(x)
    ensures var p := Built(pub, ts, sig, x);
            AdvertKind(p, before) == x.kind && AdvertName(p) == Cut(x.name, if x.place.At? then 23 else 31)
  {
    BuiltParts(pub, ts, sig, x);
    FlagBits(x);
    var app, name := Encoded(x), Cut(x.name, NameRoom(x));
    if |x.name| > 0 {
      assert app[NameOffset(app[0])..] == name;
      Channel.Until0Stops(name, []);
      assert name + [] == name;
    }
  }

  /** It is accepted as signed exactly when the signature is one of the key over key, time and data. */
  lemma BuiltSigned(verify: Verifier, pub: key, ts: nat, sig: seq<byte>, x: Info)
    requires ts < 0x1_0000_0000 && |sig| == 64 && GoodInfo(x)
    ensures Signed(verify, Built(pub, ts, sig, x)) <==> verify(pub, sig, Signable(pub, ts, x))
  {
    BuiltParts(pub, ts, sig, x);
    var p := Built(pub, ts, sig, x);
    assert p.payload[..32] == pub;
    assert p.payload[..36] + Encoded(x) == Signable(pub, ts, x);
  }
}
