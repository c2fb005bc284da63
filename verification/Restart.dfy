/**
 A node that restarts: the set in force is read back from its file and merged over the node's own tables.
 */
module Restart {

  import opened Bytes
  import opened Numerals
  import opened Content
  import opened Crypto
  import opened Names
  import opened Policy
  import opened PolicyMerge
  import File = PolicyFile

  // ---------------------------------------------------------------- dropping the blocks of this node

  predicate OtherName(own: cstring, v: text) {
    !(0 !in v && SameName(v, own))
  }

  /** The blocks of other nodes are kept in their order. */
  lemma {:induction false} NamesFiltered(names: seq<text>, own: cstring, keep: text -> bool)
    requires forall v: text :: keep(v) == OtherName(own, v)
    ensures WithoutName(names, own) == Filter(names, keep)
    decreases |names|
  {
    if |names| > 0 {
      NamesFiltered(names[..|names| - 1], own, keep);
    }
  }

  lemma {:induction false} KeysFiltered(keys: seq<text>, own: text, keep: text -> bool)
    requires forall v: text :: keep(v) == (v != own)
    ensures WithoutKey(keys, own) == Filter(keys, keep)
    decreases |keys|
  {
    if |keys| > 0 {
      KeysFiltered(keys[..|keys| - 1], own, keep);
    }
  }

  lemma {:induction false} FilteredFrom<T>(s: seq<T>, keep: T -> bool)
    ensures |Filter(s, keep)| <= |s| && forall i :: 0 <= i < |Filter(s, keep)| ==> Filter(s, keep)[i] in s
    decreases |s|
  {
    if |s| > 0 {
      FilteredFrom(s[..|s| - 1], keep);
    }
  }

  /** Blocks of this node are dropped once and for all, and what is left is what the hub sent. */
  lemma KeptAgain(p: Policy, ownName: cstring, ownKey: text)
    ensures var q := Kept(p, ownName, ownKey);
            && Kept(q, ownName, ownKey) == q && |q.names| <= |p.names| && |q.keys| <= |p.keys|
            && (forall i :: 0 <= i < |q.names| ==> q.names[i] in p.names)
            && (forall i :: 0 <= i < |q.keys| ==> q.keys[i] in p.keys)
  {
    var q := Kept(p, ownName, ownKey);
    var other: text -> bool := v => OtherName(ownName, v);
    var another: text -> bool := v => v != ownKey;
    NamesFiltered(p.names, ownName, other);
    NamesFiltered(q.names, ownName, other);
    FilterAgain(p.names, other);
    FilteredFrom(p.names, other);
    KeysFiltered(p.keys, ownKey, another);
    KeysFiltered(q.keys, ownKey, another);
    FilterAgain(p.keys, another);
    FilteredFrom(p.keys, another);
  }

  // ---------------------------------------------------------------- a restart

  lemma KeptHoldable(p: Policy, ownName: cstring, ownKey: text)
    requires File.Holdable(p)
    ensures File.Holdable(Kept(p, ownName, ownKey))
  {
    KeptAgain(p, ownName, ownKey);
  }

  lemma HoldableIsSet(p: Policy)
    requires File.Holdable(p)
    ensures IsSet(p)
  {
    forall i | 0 <= i < |p.rooms|
      ensures 0 !in p.rooms[i]
    {
      assert RoomName(p.rooms[i]);
    }
  }

  /** The tables the hub's rooms were added to count for nothing: the node's own decide. */
  lemma OwnTablesDecide(s: Suite, takes: bool, t: Tables, p: Policy, ownName: cstring, ownKey: text)
    requires IsSet(p)
    ensures WithPolicy(s, takes, Local(t), p, ownName, ownKey) == WithPolicy(s, takes, t, p, ownName, ownKey)
  {
    FilterAgain(t.rooms, OwnRoom);
    FilterAgain(t.channels, OwnChannel);
  }

  lemma WritableKept(names: seq<text>, own: cstring)
    ensures WithoutName(File.Writable(names), own) == names ==> File.Writable(names) == names
  {
    var other: text -> bool := v => OtherName(own, v);
    NamesFiltered(File.Writable(names), own, other);
    FilteredFrom(File.Writable(names), other);
    File.AllWritable(names);
  }

  /**
   A node that restarts with only its own rooms and channels, and loads the file written when a set was
   applied, serves the same rooms, holds the same channels and the same blocks and counts the same as
   before: exactly when no blocked name in force has a line break in it.
   */
  lemma RestartRestores(comment: text, s: Suite, takes: bool, t: Tables, p: Policy, ownName: cstring, ownKey: text)
    requires File.IsComment(comment) && File.Holdable(p)
    ensures IsSet(p)
    ensures var now := WithPolicy(s, takes, t, p, ownName, ownKey);
            var back := File.Loaded(File.Saved(comment, now.policy));
            && back.Some? && IsSet(back.value)
            && (WithPolicy(s, takes, Local(t), back.value, ownName, ownKey) == now
                <==> forall i :: 0 <= i < |now.policy.names| ==> File.OneLine(now.policy.names[i]))
  {
    HoldableIsSet(p);
    var q := Kept(p, ownName, ownKey);
    KeptAgain(p, ownName, ownKey);
    KeptHoldable(p, ownName, ownKey);
    File.SavedLoads(comment, q);
    var r := q.(names := File.Writable(q.names));
    assert IsSet(r);
    OwnTablesDecide(s, takes, t, r, ownName, ownKey);
    File.AllWritable(q.names);
    WritableKept(q.names, ownName);
  }
}
