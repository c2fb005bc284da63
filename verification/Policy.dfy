/**
 The rooms and blocks a hub sends: the entries of a page, and the set they are added to, with its limits.
 */
module Policy {

  import opened Bytes
  import opened Numerals

  const MAX_ROOMS: nat := 32
  const MAX_BLOCKS: nat := 256
  const NAME_LEN: nat := 32

  const ROOM: byte := 1
  const BLOCK_NAME: byte := 2
  const BLOCK_KEY: byte := 3

  // ---------------------------------------------------------------- entries

  datatype Item = Entry(kind: byte, value: text) | Ignored

  predicate RoomName(v: text) {
    && 2 <= |v| < NAME_LEN && v[0] == 35 && v[1] != 35
    && forall i :: 0 <= i < |v| ==> v[i] > 32 && v[i] != 0x7F
  }

  predicate BlockName(v: text) {
    1 <= |v| < NAME_LEN && 0 !in v
  }

  predicate HasForm(kind: byte, v: text) {
    (kind == ROOM && RoomName(v)) || (kind == BLOCK_NAME && BlockName(v)) || (kind == BLOCK_KEY && |v| == 32)
  }

  /** A value of the wrong form for its kind, or of an unknown kind, is ignored. */
  function ItemOf(kind: byte, v: text): Item {
    if HasForm(kind, v) then Entry(kind, v) else Ignored
  }

  /** Every entry of the page, a kind, a length and a value, ends within it. */
  predicate WellFormed(e: text)
    decreases |e|
  {
    |e| == 0 || (|e| >= 2 && 2 + e[1] as int <= |e| && WellFormed(e[2 + e[1] as int..]))
  }

  function Items(e: text): seq<Item>
    requires WellFormed(e)
    decreases |e|
  {
    if |e| == 0 then []
    else
      var n := 2 + e[1] as int;
      [ItemOf(e[0], e[2..n])] + Items(e[n..])
  }

  /** An entry as it is sent, of whatever kind and form. */
  datatype Sent = Sent(kind: byte, value: text)

  type sent = x: Sent | |x.value| < 256 witness Sent(1, [])

  /** A page: for each entry its kind, the length of its value, and the value. */
  function PageOf(xs: seq<sent>): text
    decreases |xs|
  {
    if |xs| == 0 then [] else [xs[0].kind, |xs[0].value|] + xs[0].value + PageOf(xs[1..])
  }

  function ItemsOf(xs: seq<sent>): (r: seq<Item>)
    ensures |r| == |xs|
  {
    seq(|xs|, i requires 0 <= i < |xs| => ItemOf(xs[i].kind, xs[i].value))
  }

  /** The entries of a page are those it was made of. */
  lemma {:induction false} PageRead(xs: seq<sent>)
    ensures WellFormed(PageOf(xs)) && Items(PageOf(xs)) == ItemsOf(xs)
    decreases |xs|
  {
    if |xs| > 0 {
      var e, n := PageOf(xs), 2 + |xs[0].value|;
      assert e[0] == xs[0].kind && e[1] as int == |xs[0].value|;
      assert e[2..n] == xs[0].value && e[n..] == PageOf(xs[1..]);
      PageRead(xs[1..]);
    }
  }

  /** Every well-formed page was made of entries. */
  lemma {:induction false} PageMade(e: text) returns (xs: seq<sent>)
    requires WellFormed(e)
    ensures PageOf(xs) == e
    decreases |e|
  {
    xs := [];
    if |e| > 0 {
      var n := 2 + e[1] as int;
      var rest := PageMade(e[n..]);
      var x: sent := Sent(e[0], e[2..n]);
      xs := [x] + rest;
      assert e == [e[0], e[1]] + e[2..n] + e[n..];
    }
  }

  /** And of one sequence of entries only. */
  lemma {:induction false} PageOnce(xs: seq<sent>, ys: seq<sent>)
    requires PageOf(xs) == PageOf(ys)
    ensures xs == ys
    decreases |xs|
  {
    if |xs| > 0 && |ys| > 0 {
      var e, n := PageOf(xs), 2 + |xs[0].value|;
      assert e[0] == xs[0].kind == ys[0].kind && e[1] as int == |xs[0].value| == |ys[0].value|;
      assert e[2..n] == xs[0].value == ys[0].value && e[n..] == PageOf(xs[1..]) == PageOf(ys[1..]);
      PageOnce(xs[1..], ys[1..]);
      assert xs == [xs[0]] + xs[1..] && ys == [ys[0]] + ys[1..];
    }
  }

  // ---------------------------------------------------------------- the set

  /** `skipped` counts the entries over the limits. */
  datatype Policy = Policy(version: nat, rooms: seq<text>, names: seq<text>, keys: seq<text>, skipped: int)

  function Fresh(version: nat): Policy {
    Policy(version, [], [], [], 0)
  }

  function Limit(kind: byte): nat {
    if kind == ROOM then MAX_ROOMS else MAX_BLOCKS
  }

  /** The list an entry of this kind goes to. */
  function ListOf(p: Policy, kind: byte): seq<text> {
    if kind == ROOM then p.rooms else if kind == BLOCK_NAME then p.names else if kind == BLOCK_KEY then p.keys else []
  }

  function WithList(p: Policy, kind: byte, list: seq<text>): Policy {
    if kind == ROOM then p.(rooms := list) else if kind == BLOCK_NAME then p.(names := list)
    else if kind == BLOCK_KEY then p.(keys := list) else p
  }

  function Add(p: Policy, x: Item): Policy {
    match x
    case Entry(kind, v) =>
      if |ListOf(p, kind)| >= Limit(kind) then p.(skipped := p.skipped + 1)
      else WithList(p, kind, ListOf(p, kind) + [v])
    case Ignored => p
  }

  function AddAll(p: Policy, xs: seq<Item>): Policy
    decreases |xs|
  {
    if |xs| == 0 then p else AddAll(Add(p, xs[0]), xs[1..])
  }

  lemma {:induction false} AddAllVersion(p: Policy, xs: seq<Item>)
    ensures AddAll(p, xs).version == p.version
    decreases |xs|
  {
    if |xs| > 0 {
      AddAllVersion(Add(p, xs[0]), xs[1..]);
    }
  }

  lemma {:induction false} AddAllConcat(p: Policy, a: seq<Item>, b: seq<Item>)
    ensures AddAll(p, a + b) == AddAll(AddAll(p, a), b)
    decreases |a|
  {
    if |a| == 0 {
      assert a + b == b;
    } else {
      assert (a + b)[1..] == a[1..] + b;
      AddAllConcat(Add(p, a[0]), a[1..], b);
    }
  }

  // ---------------------------------------------------------------- what a set holds

  /** The values of one kind among these entries, in order. */
  function Select(xs: seq<Item>, kind: byte): seq<text>
    decreases |xs|
  {
    if |xs| == 0 then []
    else (if xs[0].Entry? && xs[0].kind == kind then [xs[0].value] else []) + Select(xs[1..], kind)
  }

  /** Entries of the three kinds only, as a page yields them. */
  predicate Known(xs: seq<Item>) {
    forall i :: 0 <= i < |xs| && xs[i].Entry? ==> 1 <= xs[i].kind <= 3
  }

  lemma {:induction false} ItemsKnown(e: text)
    requires WellFormed(e)
    ensures Known(Items(e))
    decreases |e|
  {
    if |e| > 0 {
      ItemsKnown(e[2 + e[1] as int..]);
    }
  }

  /** The first `limit` of a list, and how many are over. */
  function Cut(s: seq<text>, limit: nat): seq<text> {
    if |s| <= limit then s else s[..limit]
  }

  function Over(s: seq<text>, limit: nat): nat {
    if |s| <= limit then 0 else |s| - limit
  }

  predicate InLimits(p: Policy) {
    |p.rooms| <= 32 && |p.names| <= 256 && |p.keys| <= 256
  }

  /** How many values of this kind are over the limit when `xs` are added. */
  function OverOf(p: Policy, xs: seq<Item>, kind: byte): nat {
    Over(ListOf(p, kind) + Select(xs, kind), Limit(kind))
  }

  lemma CutNext(s: seq<text>, v: text, rest: seq<text>, limit: nat)
    requires |s| <= limit
    ensures |s| < limit ==> Cut(s + [v] + rest, limit) == Cut(s + ([v] + rest), limit)
    ensures |s| == limit ==> Cut(s + ([v] + rest), limit) == Cut(s + rest, limit)
    ensures |s| == limit ==> Over(s + ([v] + rest), limit) == Over(s + rest, limit) + 1
    ensures Over(s + [v] + rest, limit) == Over(s + ([v] + rest), limit)
  {
    assert s + [v] + rest == s + ([v] + rest);
  }

  lemma AddOne(p: Policy, x: Item, xs: seq<Item>, kind: byte)
    requires InLimits(p) && 1 <= kind <= 3 && Known([x] + xs)
    ensures InLimits(Add(p, x))
    ensures var q, all := Add(p, x), [x] + xs;
            && Cut(ListOf(p, kind) + Select(all, kind), Limit(kind))
               == Cut(ListOf(q, kind) + Select(xs, kind), Limit(kind))
            && OverOf(p, all, kind)
               == OverOf(q, xs, kind) + if x.Entry? && x.kind == kind then q.skipped - p.skipped else 0
    ensures x.Ignored? ==> Add(p, x) == p
    ensures [x][0] == x && ([x] + xs)[1..] == xs
  {
    assert ([x] + xs)[1..] == xs;
    if x.Entry? && x.kind == kind {
      CutNext(ListOf(p, kind), x.value, Select(xs, kind), Limit(kind));
    } else {
      assert [] + Select(xs, kind) == Select(xs, kind);
    }
    assert x.Entry? ==> ([x] + xs)[0].kind == x.kind;
  }

  /** Adding entries keeps the first of each kind up to its limit, and counts the rest. */
  lemma {:induction false} AddAllIs(p: Policy, xs: seq<Item>, kind: byte)
    requires InLimits(p) && Known(xs) && 1 <= kind <= 3
    ensures InLimits(AddAll(p, xs))
    ensures ListOf(AddAll(p, xs), kind) == Cut(ListOf(p, kind) + Select(xs, kind), if kind == ROOM then 32 else 256)
    decreases |xs|
  {
    if |xs| == 0 {
      assert ListOf(p, kind) + [] == ListOf(p, kind);
    } else {
      assert xs == [xs[0]] + xs[1..];
      AddOne(p, xs[0], xs[1..], kind);
      AddAllIs(Add(p, xs[0]), xs[1..], kind);
    }
  }

  lemma {:induction false} AddAllSkips(p: Policy, xs: seq<Item>)
    requires InLimits(p) && Known(xs)
    ensures AddAll(p, xs).skipped
         == p.skipped + OverOf(p, xs, ROOM) + OverOf(p, xs, BLOCK_NAME) + OverOf(p, xs, BLOCK_KEY)
    decreases |xs|
  {
    if |xs| == 0 {
      assert p.rooms + [] == p.rooms && p.names + [] == p.names && p.keys + [] == p.keys;
    } else {
      assert xs == [xs[0]] + xs[1..];
      assert xs[0].Entry? ==> 1 <= xs[0].kind <= 3;
      AddOne(p, xs[0], xs[1..], ROOM);
      AddOne(p, xs[0], xs[1..], BLOCK_NAME);
      AddOne(p, xs[0], xs[1..], BLOCK_KEY);
      AddAllSkips(Add(p, xs[0]), xs[1..]);
    }
  }

  // ---------------------------------------------------------------- the program

  class Set {
    var version: nat
    var rooms: seq<text>
    var names: seq<text>
    var keys: seq<text>
    var skipped: int

    function Value(): Policy
      reads this
    {
      Policy(version, rooms, names, keys, skipped)
    }

    constructor (p: Policy)
      ensures Value() == p
    {
      version, rooms, names, keys, skipped := p.version, p.rooms, p.names, p.keys, p.skipped;
    }

    method Clear(v: nat)
      modifies this
      ensures Value() == Fresh(v)
    {
      version, rooms, names, keys, skipped := v, [], [], [], 0;
    }

    method PolicyAdd(kind: byte, v: text)
      modifies this
      ensures Value() == Add(old(Value()), ItemOf(kind, v))
    {
      if kind == ROOM {
        if |v| < 2 || |v| >= NAME_LEN || v[0] != 35 || v[1] == 35 {
          return;
        }
        for i := 0 to |v|
          invariant forall j :: 0 <= j < i ==> v[j] > 32 && v[j] != 0x7F
          invariant Value() == old(Value())
        {
          if v[i] <= 32 || v[i] == 0x7F {
            return;
          }
        }
        if |rooms| >= MAX_ROOMS {
          skipped := skipped + 1;
          return;
        }
        rooms := rooms + [v];
      } else if kind == BLOCK_NAME {
        if |v| < 1 || |v| >= NAME_LEN || 0 in v {
          return;
        }
        if |names| >= MAX_BLOCKS {
          skipped := skipped + 1;
          return;
        }
        names := names + [v];
      } else if kind == BLOCK_KEY {
        if |v| != 32 {
          return;
        }
        if |keys| >= MAX_BLOCKS {
          skipped := skipped + 1;
          return;
        }
        keys := keys + [v];
      }
    }

    /** Adds the entries of a well-formed page. */
    method PolicyWalk(e: text)
      requires WellFormed(e)
      modifies this
      ensures Value() == AddAll(old(Value()), Items(e))
    {
      var i := 0;
      while i < |e|
        invariant 0 <= i <= |e| && WellFormed(e[i..])
        invariant AddAll(Value(), Items(e[i..])) == AddAll(old(Value()), Items(e))
        decreases |e| - i
      {
        var n := 2 + e[i + 1] as int;
        assert e[i..][n..] == e[i + n..] && e[i..][2..n] == e[i + 2..i + n];
        PolicyAdd(e[i], e[i + 2..i + n]);
        assert Items(e[i..]) == [ItemOf(e[i], e[i + 2..i + n])] + Items(e[i + n..]);
        i := i + n;
      }
    }
  }

  /** Whether a page is well formed, without adding anything. */
  method CheckPage(e: text) returns (ok: bool)
    ensures ok == WellFormed(e)
  {
    var i := 0;
    while i < |e|
      invariant 0 <= i <= |e| && WellFormed(e[i..]) == WellFormed(e)
      decreases |e| - i
    {
      if |e| - i < 2 || e[i + 1] as int > |e| - i - 2 {
        return false;
      }
      assert e[i..][2 + e[i + 1] as int..] == e[i + 2 + e[i + 1] as int..];
      i := i + 2 + e[i + 1] as int;
    }
    return true;
  }
}
