/**
 The policy in force, kept in a text file of "key = value" lines and read back.
 */
module PolicyFile {

  import opened Bytes
  import opened Numerals
  import opened Policy

  /** A line is read in pieces of at most this many bytes. */
  const LINE: nat := 255

  const LF: byte := 10
  const CR: byte := 13

  /** "version", "skipped", "room", "block", "block_key". */
  const VERSION: text := [118, 101, 114, 115, 105, 111, 110]
  const SKIPPED: text := [115, 107, 105, 112, 112, 101, 100]
  const ROOM_KEY: text := [114, 111, 111, 109]
  const NAME_KEY: text := [98, 108, 111, 99, 107]
  const KEY_KEY: text := [98, 108, 111, 99, 107, 95, 107, 101, 121]

  /** " = ". */
  const EQUALS: text := [32, 61, 32]

  // ---------------------------------------------------------------- writing

  function Line(key: text, value: text): text {
    key + EQUALS + value + [LF]
  }

  predicate OneLine(v: text) {
    CR !in v && LF !in v
  }

  function RoomLines(rooms: seq<text>): text
    decreases |rooms|
  {
    if |rooms| == 0 then [] else Line(ROOM_KEY, rooms[0]) + RoomLines(rooms[1..])
  }

  /** A name with a line break is left out. */
  function NameLines(names: seq<text>): text
    decreases |names|
  {
    if |names| == 0 then [] else NameLine(names[0]) + NameLines(names[1..])
  }

  function NameLine(v: text): text {
    if OneLine(v) then Line(NAME_KEY, v) else []
  }

  function KeyLines(keys: seq<text>): text
    decreases |keys|
  {
    if |keys| == 0 then [] else Line(KEY_KEY, Hex(keys[0])) + KeyLines(keys[1..])
  }

  /** The file, with a comment on top. */
  function Saved(comment: text, p: Policy): text
    requires p.skipped >= 0
  {
    comment + (Line(VERSION, Decimal(p.version)) + (Line(SKIPPED, Decimal(p.skipped))
      + (RoomLines(p.rooms) + (NameLines(p.names) + KeyLines(p.keys)))))
  }

  // ---------------------------------------------------------------- reading

  /** What one read takes: up to the end of the line, at most `limit` bytes. */
  function ChunkLen(s: text, limit: nat): (n: nat)
    ensures n <= |s| && n <= limit && (|s| > 0 && limit > 0 ==> n > 0)
    decreases limit
  {
    if |s| == 0 || limit == 0 then 0 else if s[0] == LF then 1 else 1 + ChunkLen(s[1..], limit - 1)
  }

  /** The line without its end. */
  function Cut1(s: text): (t: text)
    decreases |s|
  {
    if |s| == 0 || s[0] == LF || s[0] == CR || s[0] == 0 then [] else [s[0]] + Cut1(s[1..])
  }

  /** Where " = " first occurs, or -1. */
  function FindEquals(s: text): (i: int)
    ensures -1 <= i && (i >= 0 ==> i + 3 <= |s|)
    decreases |s|
  {
    if |s| < 3 then -1
    else if s[..3] == EQUALS then 0
    else
      var r := FindEquals(s[1..]);
      if r < 0 then -1 else r + 1
  }

  function Signed(u: nat): int {
    if u < 0x8000_0000 then u else u - 0x1_0000_0000
  }

  /** What one setting does; a value that does not parse, or is over a limit, is ignored. */
  function Assign(p: Policy, key: text, v: text): Policy {
    if key == VERSION && ParseU32(v).Some? then p.(version := ParseU32(v).value)
    else if key == SKIPPED && ParseU32(v).Some? then p.(skipped := Signed(ParseU32(v).value))
    else if key == ROOM_KEY && |p.rooms| < MAX_ROOMS && |v| < NAME_LEN then p.(rooms := p.rooms + [v])
    else if key == NAME_KEY && |p.names| < MAX_BLOCKS && 0 < |v| < NAME_LEN then p.(names := p.names + [v])
    else if key == KEY_KEY && |p.keys| < MAX_BLOCKS && Unhex(v).Some? && |Unhex(v).value| == 32
    then p.(keys := p.keys + [Unhex(v).value])
    else p
  }

  function Process(p: Policy, chunk: text): Policy {
    var line := Cut1(chunk);
    var i := FindEquals(line);
    if i < 0 || line[0] == 35 then p else Assign(p, line[..i], line[i + 3..])
  }

  function ReadFrom(p: Policy, file: text): Policy
    decreases |file|
  {
    if |file| == 0 then p
    else
      var n := ChunkLen(file, LINE);
      ReadFrom(Process(p, file[..n]), file[n..])
  }

  /** The set a file holds, or nothing when it has no version. */
  function Loaded(file: text): Maybe<Policy> {
    var p := ReadFrom(Fresh(0), file);
    if p.version == 0 then None else Some(p)
  }

  // ---------------------------------------------------------------- there and back

  lemma {:induction false} ChunkIsLine(line: text, rest: text, limit: nat)
    requires LF !in line && |line| < limit
    ensures ChunkLen(line + [LF] + rest, limit) == |line| + 1
    decreases |line|
  {
    var all := line + [LF] + rest;
    if |line| > 0 {
      assert all[1..] == line[1..] + [LF] + rest;
      ChunkIsLine(line[1..], rest, limit - 1);
    }
  }

  /** A text of one line is read as one. */
  predicate Plain(v: text) {
    OneLine(v) && 0 !in v
  }

  lemma {:induction false} CutIsLine(line: text)
    requires Plain(line)
    ensures Cut1(line + [LF]) == line
    decreases |line|
  {
    if |line| > 0 {
      assert (line + [LF])[1..] == line[1..] + [LF] && line == [line[0]] + line[1..];
      CutIsLine(line[1..]);
    }
  }

  /** A key without blanks ends at the first " = ", whatever the value. */
  lemma {:induction false} EqualsFound(key: text, v: text)
    requires 32 !in key
    ensures FindEquals(key + EQUALS + v) == |key|
    decreases |key|
  {
    var s := key + EQUALS + v;
    if |key| == 0 {
      assert s == EQUALS + v && s[..3] == EQUALS;
    } else {
      assert s[1..] == key[1..] + EQUALS + v;
      assert s[..3][0] == key[0];
      EqualsFound(key[1..], v);
    }
  }

  /** Reading a line sets what it says. */
  lemma LineRead(p: Policy, key: text, v: text, rest: text)
    requires 32 !in key && Plain(key) && Plain(v) && |key| > 0 && key[0] != 35 && |key| + |v| < 200
    ensures ReadFrom(p, Line(key, v) + rest) == ReadFrom(Assign(p, key, v), rest)
  {
    var line := key + EQUALS + v;
    var file := Line(key, v) + rest;
    assert Plain(line);
    assert file == line + [LF] + rest;
    ChunkIsLine(line, rest, LINE);
    var n := |line| + 1;
    assert file[..n] == line + [LF] && file[n..] == rest;
    CutIsLine(line);
    EqualsFound(key, v);
    assert line[..|key|] == key && line[|key| + 3..] == v && line[0] == key[0];
    assert Process(p, file[..n]) == Assign(p, key, v);
  }

  /** What reading does, under a name that does not unfold. */
  ghost predicate IsRead(read: (Policy, text) -> Policy) {
    forall p: Policy, file: text {:trigger ReadFrom(p, file)} :: read(p, file) == ReadFrom(p, file)
  }

  lemma LineReadBy(read: (Policy, text) -> Policy, p: Policy, key: text, v: text, rest: text)
    requires IsRead(read)
    requires 32 !in key && Plain(key) && Plain(v) && |key| > 0 && key[0] != 35 && |key| + |v| < 200
    ensures read(p, Line(key, v) + rest) == read(Assign(p, key, v), rest)
  {
    LineRead(p, key, v, rest);
    assert ReadFrom(p, Line(key, v) + rest) == ReadFrom(Assign(p, key, v), rest);
  }

  lemma RoomRead(read: (Policy, text) -> Policy, p: Policy, v: text, rest: text)
    requires IsRead(read) && |p.rooms| < MAX_ROOMS && RoomName(v)
    ensures read(p, Line(ROOM_KEY, v) + rest) == read(p.(rooms := p.rooms + [v]), rest)
  {
    LineReadBy(read, p, ROOM_KEY, v, rest);
  }

  lemma {:induction false} RoomsRead(read: (Policy, text) -> Policy, p: Policy, rooms: seq<text>, rest: text)
    requires IsRead(read)
    requires |p.rooms| + |rooms| <= MAX_ROOMS && forall i :: 0 <= i < |rooms| ==> RoomName(rooms[i])
    ensures read(p, RoomLines(rooms) + rest) == read(p.(rooms := p.rooms + rooms), rest)
    decreases |rooms|
  {
    if |rooms| == 0 {
      assert RoomLines(rooms) + rest == rest && p.rooms + rooms == p.rooms;
    } else {
      Regroup(Line(ROOM_KEY, rooms[0]), RoomLines(rooms[1..]), rest);
      RoomRead(read, p, rooms[0], RoomLines(rooms[1..]) + rest);
      RoomsRead(read, p.(rooms := p.rooms + [rooms[0]]), rooms[1..], rest);
      assert p.rooms + [rooms[0]] + rooms[1..] == p.rooms + rooms;
    }
  }

  /** The names that fit on a line. */
  function Writable(names: seq<text>): (r: seq<text>)
    ensures |r| <= |names|
    decreases |names|
  {
    if |names| == 0 then [] else (if OneLine(names[0]) then [names[0]] else []) + Writable(names[1..])
  }

  lemma {:induction false} AllWritable(names: seq<text>)
    ensures Writable(names) == names <==> forall i :: 0 <= i < |names| ==> OneLine(names[i])
    ensures |Writable(names)| == |names| <==> forall i :: 0 <= i < |names| ==> OneLine(names[i])
    decreases |names|
  {
    if |names| > 0 {
      AllWritable(names[1..]);
      assert names == [names[0]] + names[1..];
      if OneLine(names[0]) && forall i :: 0 <= i < |names| - 1 ==> OneLine(names[1..][i]) {
        forall i | 0 <= i < |names|
          ensures OneLine(names[i])
        {
          assert i > 0 ==> names[i] == names[1..][i - 1];
        }
      }
    }
  }

  /** The set with a name added, if it was written. */
  function WithName(p: Policy, v: text): Policy {
    if OneLine(v) then p.(names := p.names + [v]) else p
  }

  lemma NameRead(read: (Policy, text) -> Policy, p: Policy, v: text, rest: text)
    requires IsRead(read) && |p.names| < MAX_BLOCKS && BlockName(v)
    ensures read(p, NameLine(v) + rest) == read(WithName(p, v), rest)
  {
    if OneLine(v) {
      LineReadBy(read, p, NAME_KEY, v, rest);
    } else {
      assert NameLine(v) + rest == rest;
    }
  }

  lemma Regroup(a: text, b: text, c: text)
    ensures a + b + c == a + (b + c)
  {
  }

  lemma WithNames(p: Policy, v: text, more: seq<text>, all: seq<text>)
    requires all == (if OneLine(v) then [v] else []) + more
    ensures WithName(p, v).(names := WithName(p, v).names + more) == p.(names := p.names + all)
  {
    assert p.names + [v] + more == p.names + ([v] + more);
    assert [] + more == more;
  }

  lemma {:induction false} NamesRead(read: (Policy, text) -> Policy, p: Policy, names: seq<text>, rest: text)
    requires IsRead(read)
    requires |p.names| + |names| <= MAX_BLOCKS && forall i :: 0 <= i < |names| ==> BlockName(names[i])
    ensures read(p, NameLines(names) + rest) == read(p.(names := p.names + Writable(names)), rest)
    decreases |names|
  {
    if |names| == 0 {
      assert NameLines(names) + rest == rest && p.names + Writable(names) == p.names;
    } else {
      Regroup(NameLine(names[0]), NameLines(names[1..]), rest);
      NameRead(read, p, names[0], NameLines(names[1..]) + rest);
      NamesRead(read, WithName(p, names[0]), names[1..], rest);
      WithNames(p, names[0], Writable(names[1..]), Writable(names));
    }
  }

  lemma AssignKey(p: Policy, v: text)
    requires |p.keys| < MAX_BLOCKS && |v| == 32
    ensures Plain(Hex(v)) && |Hex(v)| == 64
    ensures Assign(p, KEY_KEY, Hex(v)) == p.(keys := p.keys + [v])
  {
    HexDigits(v);
    HexBack(v);
  }

  lemma KeyRead(read: (Policy, text) -> Policy, p: Policy, v: text, rest: text)
    requires IsRead(read) && |p.keys| < MAX_BLOCKS && |v| == 32
    ensures read(p, Line(KEY_KEY, Hex(v)) + rest) == read(p.(keys := p.keys + [v]), rest)
  {
    AssignKey(p, v);
    LineReadBy(read, p, KEY_KEY, Hex(v), rest);
  }

  lemma {:induction false} KeysRead(read: (Policy, text) -> Policy, p: Policy, keys: seq<text>, rest: text)
    requires IsRead(read)
    requires |p.keys| + |keys| <= MAX_BLOCKS && forall i :: 0 <= i < |keys| ==> |keys[i]| == 32
    ensures read(p, KeyLines(keys) + rest) == read(p.(keys := p.keys + keys), rest)
    decreases |keys|
  {
    if |keys| == 0 {
      assert KeyLines(keys) + rest == rest && p.keys + keys == p.keys;
    } else {
      Regroup(Line(KEY_KEY, Hex(keys[0])), KeyLines(keys[1..]), rest);
      KeyRead(read, p, keys[0], KeyLines(keys[1..]) + rest);
      KeysRead(read, p.(keys := p.keys + [keys[0]]), keys[1..], rest);
      assert p.keys + [keys[0]] + keys[1..] == p.keys + keys;
    }
  }

  lemma {:induction false} DecimalShort(n: nat, digits: nat)
    requires digits >= 1 && n < Power10(digits)
    ensures |Decimal(n)| <= digits
    decreases digits
  {
    if n >= 10 {
      var smaller := Power10(digits - 1);
      assert Power10(digits) == 10 * smaller;
      DecimalShort(n / 10, digits - 1);
    }
  }

  function Power10(k: nat): nat {
    if k == 0 then 1 else 10 * Power10(k - 1)
  }

  /** A set the node may hold: what the hub may send, numbered, and counted in range. */
  predicate Holdable(p: Policy) {
    && 0 < p.version < 0x1_0000_0000 && 0 <= p.skipped < 0x8000_0000 && InLimits(p)
    && (forall i :: 0 <= i < |p.rooms| ==> RoomName(p.rooms[i]))
    && (forall i :: 0 <= i < |p.names| ==> BlockName(p.names[i]))
    && (forall i :: 0 <= i < |p.keys| ==> |p.keys[i]| == 32)
  }

  /** A comment that is one short line. */
  predicate IsComment(comment: text) {
    && 2 <= |comment| < LINE && comment[0] == 35 && comment[|comment| - 1] == LF
    && Plain(comment[..|comment| - 1])
  }

  lemma CommentSkipped(p: Policy, comment: text, rest: text)
    requires IsComment(comment)
    ensures ReadFrom(p, comment + rest) == ReadFrom(p, rest)
  {
    var line := comment[..|comment| - 1];
    var file := comment + rest;
    assert comment == line + [LF] && file == line + [LF] + rest;
    ChunkIsLine(line, rest, LINE);
    assert file[..|comment|] == comment && file[|comment|..] == rest;
    CutIsLine(line);
    assert Process(p, comment) == p;
  }

  lemma VersionRead(read: (Policy, text) -> Policy, n: nat, rest: text)
    requires IsRead(read) && n < 0x1_0000_0000
    ensures read(Fresh(0), Line(VERSION, Decimal(n)) + rest) == read(Fresh(n), rest)
  {
    Digits10(n);
    ParseBack(n);
    LineReadBy(read, Fresh(0), VERSION, Decimal(n), rest);
  }

  lemma SkippedRead(read: (Policy, text) -> Policy, p: Policy, n: nat, rest: text)
    requires IsRead(read) && n < 0x8000_0000
    ensures read(p, Line(SKIPPED, Decimal(n)) + rest) == read(p.(skipped := n), rest)
  {
    Digits10(n);
    ParseBack(n);
    LineReadBy(read, p, SKIPPED, Decimal(n), rest);
  }

  lemma Digits10(n: nat)
    requires n < 0x1_0000_0000
    ensures |Decimal(n)| <= 10 && Plain(Decimal(n))
  {
    assert Power10(5) == 100_000;
    assert Power10(10) == 10_000_000_000;
    DecimalShort(n, 10);
  }

  lemma ReadDone(read: (Policy, text) -> Policy, p: Policy)
    requires IsRead(read)
    ensures read(p, []) == p
  {
    assert read(p, []) == ReadFrom(p, []);
  }

  /** The lists of a set, read behind its numbers. */
  lemma ListsRead(read: (Policy, text) -> Policy, p: Policy)
    requires IsRead(read) && Holdable(p)
    ensures read(Fresh(p.version).(skipped := p.skipped), RoomLines(p.rooms) + (NameLines(p.names) + KeyLines(p.keys)))
         == read(p.(names := Writable(p.names)), [])
  {
    var keys := KeyLines(p.keys);
    var names := NameLines(p.names) + keys;
    var p1 := Fresh(p.version).(skipped := p.skipped);
    var p2 := p1.(rooms := p.rooms);
    var p3 := p2.(names := Writable(p.names));
    RoomsRead(read, p1, p.rooms, names);
    assert p1.rooms + p.rooms == p.rooms;
    NamesRead(read, p2, p.names, keys);
    assert p2.names + Writable(p.names) == Writable(p.names);
    assert keys == keys + [];
    KeysRead(read, p3, p.keys, []);
    assert p3.keys + p.keys == p.keys;
  }

  /** Loading what was saved gives the set back, but for names with a line break. */
  lemma SavedLoads(comment: text, p: Policy)
    requires IsComment(comment) && Holdable(p)
    ensures Loaded(Saved(comment, p)) == Some(p.(names := Writable(p.names)))
  {
    var rooms := RoomLines(p.rooms) + (NameLines(p.names) + KeyLines(p.keys));
    var rest := Line(SKIPPED, Decimal(p.skipped)) + rooms;
    var read: (Policy, text) -> Policy := ReadFrom;
    CommentSkipped(Fresh(0), comment, Line(VERSION, Decimal(p.version)) + rest);
    VersionRead(read, p.version, rest);
    SkippedRead(read, Fresh(p.version), p.skipped, rooms);
    ListsRead(read, p);
    ReadDone(read, p.(names := Writable(p.names)));
  }

  /** The same set comes back exactly when no name has a line break in it. */
  lemma RoundTripIff(comment: text, p: Policy)
    requires IsComment(comment) && Holdable(p)
    ensures Loaded(Saved(comment, p)) == Some(p) <==> forall i :: 0 <= i < |p.names| ==> OneLine(p.names[i])
  {
    SavedLoads(comment, p);
    AllWritable(p.names);
  }

  /** A blocked name with a line break in it does not come back. */
  lemma BreakIsLost(comment: text, p: Policy)
    requires IsComment(comment) && p == Fresh(1).(names := [[97, LF]])
    ensures Holdable(p) && Loaded(Saved(comment, p)) == Some(Fresh(1))
  {
    SavedLoads(comment, p);
    assert !OneLine(p.names[0]);
    assert Writable(p.names) == Writable(p.names[1..]) == [];
  }

  // ---------------------------------------------------------------- the program

  method SaveRooms(file: text, rooms: seq<text>) returns (out: text)
    ensures out == file + RoomLines(rooms)
  {
    out := file;
    for i := 0 to |rooms|
      invariant out + RoomLines(rooms[i..]) == file + RoomLines(rooms)
    {
      assert rooms[i..][1..] == rooms[i + 1..];
      Regroup(out, Line(ROOM_KEY, rooms[i]), RoomLines(rooms[i + 1..]));
      out := out + Line(ROOM_KEY, rooms[i]);
    }
  }

  lemma NameLinesFrom(names: seq<text>, i: nat)
    requires i < |names|
    ensures NameLines(names[i..]) == NameLine(names[i]) + NameLines(names[i + 1..])
  {
    assert names[i..][1..] == names[i + 1..];
  }

  method SaveNames(file: text, names: seq<text>) returns (out: text)
    ensures out == file + NameLines(names)
  {
    out := file;
    for i := 0 to |names|
      invariant out + NameLines(names[i..]) == file + NameLines(names)
    {
      ghost var before, rest := out, NameLines(names[i + 1..]);
      NameLinesFrom(names, i);
      if OneLine(names[i]) {
        out := out + Line(NAME_KEY, names[i]);
      }
      assert out == before + NameLine(names[i]);
      Regroup(before, NameLine(names[i]), rest);
    }
  }

  method SaveKeys(file: text, keys: seq<text>) returns (out: text)
    requires forall i :: 0 <= i < |keys| ==> |keys[i]| == 32
    ensures out == file + KeyLines(keys)
  {
    out := file;
    var hex := new byte[65];
    for i := 0 to |keys|
      invariant out + KeyLines(keys[i..]) == file + KeyLines(keys)
    {
      assert keys[i..][1..] == keys[i + 1..];
      var n := Bin2Hex(keys[i], hex);
      out := out + Line(KEY_KEY, hex[..n]);
    }
  }

  /** The whole file. */
  method Save(comment: text, p: Set) returns (file: text)
    requires p.skipped >= 0 && forall i :: 0 <= i < |p.keys| ==> |p.keys[i]| == 32
    ensures file == Saved(comment, p.Value())
  {
    var head := comment + (Line(VERSION, Decimal(p.version)) + Line(SKIPPED, Decimal(p.skipped)));
    file := SaveRooms(head, p.rooms);
    file := SaveNames(file, p.names);
    file := SaveKeys(file, p.keys);
    SavedParts(comment, Line(VERSION, Decimal(p.version)), Line(SKIPPED, Decimal(p.skipped)),
               RoomLines(p.rooms), NameLines(p.names), KeyLines(p.keys));
  }

  lemma SavedParts(a: text, b: text, c: text, d: text, e: text, f: text)
    ensures a + (b + c) + d + e + f == a + (b + (c + (d + (e + f))))
  {
  }

  lemma ChunkStep(s: text, at: nat, limit: nat)
    requires at <= |s|
    ensures at < |s| && limit > 0 ==>
            ChunkLen(s[at..], limit) == if s[at] == LF then 1 else 1 + ChunkLen(s[at + 1..], limit - 1)
    ensures at == |s| || limit == 0 ==> ChunkLen(s[at..], limit) == 0
  {
    if at < |s| {
      assert s[at..][1..] == s[at + 1..];
    }
  }

  /** How far one read goes from `from`. */
  method ReadChunk(file: text, from: nat) returns (n: nat)
    requires from <= |file|
    ensures n == ChunkLen(file[from..], LINE)
  {
    n := 0;
    var at := from;
    while n < LINE && at < |file|
      invariant n <= LINE && at == from + n <= |file|
      invariant ChunkLen(file[from..], LINE) == n + ChunkLen(file[at..], LINE - n)
    {
      ChunkStep(file, at, LINE - n);
      n := n + 1;
      at := at + 1;
      if file[at - 1] == LF {
        return;
      }
    }
    ChunkStep(file, at, LINE - n);
  }

  method CutLine(chunk: text) returns (line: text)
    ensures line == Cut1(chunk)
  {
    var i := 0;
    while i < |chunk| && chunk[i] != LF && chunk[i] != CR && chunk[i] != 0
      invariant i <= |chunk|
      invariant Cut1(chunk) == chunk[..i] + Cut1(chunk[i..])
    {
      assert chunk[i..][1..] == chunk[i + 1..];
      assert chunk[..i + 1] == chunk[..i] + [chunk[i]];
      i := i + 1;
    }
    line := chunk[..i];
  }

  method FindSep(line: text) returns (i: int)
    ensures i == FindEquals(line)
  {
    i := 0;
    while i + 3 <= |line|
      invariant 0 <= i <= |line|
      invariant FindEquals(line) == if FindEquals(line[i..]) < 0 then -1 else i + FindEquals(line[i..])
    {
      if line[i..][..3] == EQUALS {
        return;
      }
      assert line[i..][1..] == line[i + 1..];
      i := i + 1;
    }
    i := -1;
  }

  /** One setting, into the tables of the set. */
  method AssignTo(p: Set, key: text, v: text)
    modifies p
    ensures p.Value() == Assign(old(p.Value()), key, v)
  {
    var u := ParseU32(v);
    if key == VERSION && u.Some? {
      p.version := u.value;
    } else if key == SKIPPED && u.Some? {
      p.skipped := Signed(u.value);
    } else if key == ROOM_KEY && |p.rooms| < MAX_ROOMS && |v| < NAME_LEN {
      p.rooms := p.rooms + [v];
    } else if key == NAME_KEY && |p.names| < MAX_BLOCKS && 0 < |v| < NAME_LEN {
      p.names := p.names + [v];
    } else if key == KEY_KEY && |p.keys| < MAX_BLOCKS {
      var bytes := new byte[32];
      var n := Hex2Bin(v, bytes);
      if n == 32 {
        p.keys := p.keys + [bytes[..]];
        assert bytes[..] == bytes[..n];
      } else {
        UnhexHalves(v);
      }
    }
  }

  method ProcessLine(p: Set, chunk: text)
    modifies p
    ensures p.Value() == Process(old(p.Value()), chunk)
  {
    var line := CutLine(chunk);
    var i := FindSep(line);
    if i >= 0 && line[0] != 35 {
      AssignTo(p, line[..i], line[i + 3..]);
    }
  }

  lemma ReadStep(read: (Policy, text) -> Policy, p: Policy, file: text, at: nat, n: nat)
    requires IsRead(read) && at < |file| && n == ChunkLen(file[at..], LINE)
    ensures read(p, file[at..]) == read(Process(p, file[at..at + n]), file[at + n..])
  {
    assert file[at..][..n] == file[at..at + n] && file[at..][n..] == file[at + n..];
    assert ReadFrom(p, file[at..]) == ReadFrom(Process(p, file[at..at + n]), file[at + n..]);
  }

  /** Reads the file line by line. */
  method ReadLines(p: Set, file: text, ghost read: (Policy, text) -> Policy)
    requires IsRead(read)
    modifies p
    ensures p.Value() == read(old(p.Value()), file)
  {
    var at := 0;
    assert file[0..] == file;
    while at < |file|
      invariant at <= |file|
      invariant read(p.Value(), file[at..]) == read(old(p.Value()), file)
    {
      var n := ReadChunk(file, at);
      ReadStep(read, p.Value(), file, at, n);
      ProcessLine(p, file[at..at + n]);
      at := at + n;
    }
    assert file[at..] == [];
    ReadDone(read, p.Value());
  }

  method Load(file: text) returns (r: Maybe<Policy>)
    ensures r == Loaded(file)
  {
    var p := new Set(Fresh(0));
    ghost var read: (Policy, text) -> Policy := ReadFrom;
    ReadLines(p, file, read);
    assert p.Value() == ReadFrom(Fresh(0), file);
    r := if p.version == 0 then None else Some(p.Value());
  }
}
