/**
 The transmit queue: 24 slots, the most urgent due entry served first.
 */
module Queue {

  import opened Bytes
  import opened Packet

  const SLOTS: nat := 24

  /** `own` and `serial` are not in the program: they follow an entry from its queuing to its end. */
  datatype Entry = Entry(pkt: packet, due: nat, priority: nat, power: int, own: bool, serial: nat)

  datatype Slot = Free | Used(entry: Entry)

  type slots = s: seq<Slot> | |s| == SLOTS witness Empty()

  function Empty(): (s: seq<Slot>)
    ensures |s| == SLOTS && forall i :: 0 <= i < SLOTS ==> s[i] == Free
  {
    seq(SLOTS, _ => Free)
  }

  // ---------------------------------------------------------------- queuing

  /** The first free slot at or after i, or 24. */
  function FirstFree(s: slots, i: nat): (r: nat)
    requires i <= SLOTS
    ensures i <= r <= SLOTS && (r < SLOTS ==> s[r].Free?) && forall j :: i <= j < r ==> s[j].Used?
    decreases SLOTS - i
  {
    if i == SLOTS || s[i].Free? then i else FirstFree(s, i + 1)
  }

  predicate HasRoom(s: slots) {
    exists i :: 0 <= i < SLOTS && s[i].Free?
  }

  /** The queue with `e` in its first free slot, or as it was when there is none. */
  function Add(s: slots, e: Entry): (r: slots)
    ensures HasRoom(s) ==> exists i :: 0 <= i < SLOTS && s[i].Free? && r == s[i := Used(e)]
    ensures !HasRoom(s) ==> r == s
  {
    var i := FirstFree(s, 0);
    if i < SLOTS then s[i := Used(e)] else s
  }

  function FreeFrom(s: slots, i: nat): (n: nat)
    requires i <= SLOTS
    ensures n <= SLOTS - i
    decreases SLOTS - i
  {
    if i == SLOTS then 0 else FreeFrom(s, i + 1) + if s[i].Free? then 1 else 0
  }

  function FreeSlots(s: slots): nat {
    FreeFrom(s, 0)
  }

  lemma {:induction false} FreeAfterPut(s: slots, k: nat, e: Entry, i: nat)
    requires i <= SLOTS && k < SLOTS && s[k].Free?
    ensures FreeFrom(s[k := Used(e)], i) == FreeFrom(s, i) - if i <= k then 1 else 0
    decreases SLOTS - i
  {
    if i < SLOTS {
      FreeAfterPut(s, k, e, i + 1);
    }
  }

  lemma {:induction false} NoneFree(s: slots, i: nat)
    requires i <= SLOTS && FreeFrom(s, i) > 0
    ensures HasRoom(s)
    decreases SLOTS - i
  {
    if s[i].Used? {
      NoneFree(s, i + 1);
    }
  }

  lemma FreeAfterRemove(s: slots, i: nat)
    requires i < SLOTS && s[i].Used?
    ensures FreeSlots(s[i := Free]) == FreeSlots(s) + 1 && FreeSlots(s) < SLOTS
  {
    var rest := s[i := Free];
    FreeAfterPut(rest, i, s[i].entry, 0);
    assert rest[i := Used(s[i].entry)] == s;
  }

  lemma FreeAfterReplace(s: slots, i: nat, e: Entry)
    requires i < SLOTS && s[i].Used?
    ensures FreeSlots(s[i := Used(e)]) == FreeSlots(s)
  {
    FreeAfterRemove(s, i);
    FreeAfterPut(s[i := Free], i, e, 0);
    assert s[i := Free][i := Used(e)] == s[i := Used(e)];
  }

  /** Queuing takes at most one slot, and none only when none is left. */
  lemma AddTakesOne(s: slots, e: Entry)
    ensures FreeSlots(Add(s, e)) == if HasRoom(s) then FreeSlots(s) - 1 else FreeSlots(s)
    ensures HasRoom(s) <==> FreeSlots(s) > 0
  {
    var i := FirstFree(s, 0);
    if i < SLOTS {
      FreeAfterPut(s, i, e, 0);
    } else if FreeSlots(s) > 0 {
      NoneFree(s, 0);
    }
  }

  // ---------------------------------------------------------------- serving

  predicate Due(s: slots, i: nat, now: nat)
    requires i < SLOTS
  {
    s[i].Used? && s[i].entry.due <= now
  }

  predicate Before(a: Entry, b: Entry) {
    a.priority < b.priority || (a.priority == b.priority && a.due < b.due)
  }

  /** The best of the first n slots, the earlier of equals; -1 when none is due. */
  function Best(s: slots, now: nat, n: nat): (r: int)
    requires n <= SLOTS
    ensures -1 <= r < n && (r >= 0 ==> Due(s, r, now))
  {
    if n == 0 then -1
    else
      var b := Best(s, now, n - 1);
      if Due(s, n - 1, now) && (b < 0 || Before(s[n - 1].entry, s[b].entry)) then n - 1 else b
  }

  function Pick(s: slots, now: nat): (r: int)
    ensures -1 <= r < SLOTS && (r >= 0 ==> Due(s, r, now))
  {
    Best(s, now, SLOTS)
  }

  lemma {:induction false} BestIs(s: slots, now: nat, n: nat)
    requires n <= SLOTS
    ensures var b := Best(s, now, n);
            forall j :: 0 <= j < n && Due(s, j, now) ==>
                          b >= 0 && !Before(s[j].entry, s[b].entry) && (j < b ==> Before(s[b].entry, s[j].entry))
    decreases n
  {
    if n > 0 {
      BestIs(s, now, n - 1);
    }
  }

  /**
   The entry served is due, and of the due entries it has the lowest priority value; of those the earliest
   due time; and of those it is in the first slot.
   */
  lemma PickIsLeast(s: slots, now: nat)
    ensures var b := Pick(s, now);
            && (b < 0 <==> forall j :: 0 <= j < SLOTS && s[j].Used? ==> now < s[j].entry.due)
            && (b >= 0 ==> s[b].Used? && s[b].entry.due <= now
                           && forall j :: 0 <= j < SLOTS && j != b && s[j].Used? && s[j].entry.due <= now ==>
                                var mine, other := s[b].entry, s[j].entry;
                                || mine.priority < other.priority
                                || (mine.priority == other.priority && mine.due < other.due)
                                || (mine.priority == other.priority && mine.due == other.due && b < j))
  {
    BestIs(s, now, SLOTS);
  }

  // ---------------------------------------------------------------- what is queued

  /** The serial numbers of the entries, in slot order. */
  function Listed(s: seq<Slot>): (r: seq<nat>)
    decreases |s|
  {
    if |s| == 0 then [] else (if s[0].Used? then [s[0].entry.serial] else []) + Listed(s[1..])
  }

  /** How often each serial number is queued. */
  function Queued(s: seq<Slot>): multiset<nat> {
    multiset(Listed(s))
  }

  lemma {:induction false} ListedConcat(s: seq<Slot>, t: seq<Slot>)
    ensures Listed(s + t) == Listed(s) + Listed(t)
    decreases |s|
  {
    if |s| == 0 {
      assert s + t == t;
    } else {
      assert (s + t)[1..] == s[1..] + t;
      ListedConcat(s[1..], t);
    }
  }

  lemma ListedNext(s: seq<Slot>, i: nat)
    requires i < |s|
    ensures |Listed(s[..i + 1])| == |Listed(s[..i])| + if s[i].Used? then 1 else 0
  {
    assert s[..i + 1] == s[..i] + [s[i]];
    ListedConcat(s[..i], [s[i]]);
    assert [s[i]][1..] == [];
  }

  lemma QueuedConcat(s: seq<Slot>, t: seq<Slot>)
    ensures Queued(s + t) == Queued(s) + Queued(t)
  {
    ListedConcat(s, t);
  }

  lemma QueuedAround(a: seq<Slot>, x: Slot, b: seq<Slot>)
    ensures Queued(a + [x] + b) == Queued(a) + Queued(b) + Queued([x])
  {
    QueuedConcat(a + [x], b);
    QueuedConcat(a, [x]);
  }

  /** Changing one slot changes the multiset by that slot. */
  lemma QueuedChanges(s: seq<Slot>, i: nat, x: Slot) returns (rest: multiset<nat>)
    requires i < |s|
    ensures Queued(s) == rest + Queued([s[i]]) && Queued(s[i := x]) == rest + Queued([x])
  {
    var a, b := s[..i], s[i + 1..];
    rest := Queued(a) + Queued(b);
    assert s == a + [s[i]] + b && s[i := x] == a + [x] + b;
    QueuedAround(a, s[i], b);
    QueuedAround(a, x, b);
  }

  lemma QueuedOne(x: Slot)
    ensures Queued([x]) == if x.Used? then multiset{x.entry.serial} else multiset{}
  {
    assert [x][1..] == [] && Listed([]) == [];
    assert Listed([x]) == if x.Used? then [x.entry.serial] else [];
  }

  lemma AddQueued(s: slots, e: Entry)
    ensures Queued(Add(s, e)) == if HasRoom(s) then Queued(s) + multiset{e.serial} else Queued(s)
  {
    var i := FirstFree(s, 0);
    if i < SLOTS {
      var rest := QueuedChanges(s, i, Used(e));
      QueuedOne(s[i]);
      QueuedOne(Used(e));
    }
  }

  lemma RemoveQueued(s: slots, i: nat)
    requires i < SLOTS && s[i].Used?
    ensures Queued(s) == Queued(s[i := Free]) + multiset{s[i].entry.serial}
  {
    var rest := QueuedChanges(s, i, Free);
    QueuedOne(s[i]);
    QueuedOne(Free);
  }

  lemma PostponeQueued(s: slots, i: nat, due: nat)
    requires i < SLOTS && s[i].Used?
    ensures Queued(s[i := Used(s[i].entry.(due := due))]) == Queued(s)
  {
    var x := Used(s[i].entry.(due := due));
    var rest := QueuedChanges(s, i, x);
    QueuedOne(s[i]);
    QueuedOne(x);
  }

  lemma {:induction false} EmptyQueued(s: seq<Slot>)
    requires forall i :: 0 <= i < |s| ==> s[i].Free?
    ensures Queued(s) == multiset{}
    decreases |s|
  {
    if |s| > 0 {
      EmptyQueued(s[1..]);
    }
  }

  // ---------------------------------------------------------------- the program

  class TxQueue {
    const txq: array<Slot>

    ghost predicate Valid() {
      txq.Length == SLOTS
    }

    ghost function Slots(): slots
      reads txq
      requires Valid()
    {
      txq[..]
    }

    constructor ()
      ensures Valid() && fresh(txq) && Slots() == Empty()
    {
      txq := new Slot[24](_ => Free);
    }

    method Enqueue(e: Entry) returns (ok: bool)
      requires Valid()
      modifies txq
      ensures ok == HasRoom(old(Slots())) && Slots() == Add(old(Slots()), e)
    {
      ghost var s := Slots();
      for i := 0 to SLOTS
        invariant Slots() == s && FirstFree(s, 0) == FirstFree(s, i)
      {
        if txq[i].Free? {
          txq[i] := Used(e);
          return true;
        }
      }
      return false;
    }

    method FreeCount() returns (n: nat)
      requires Valid()
      ensures n == FreeSlots(Slots())
    {
      n := 0;
      var i := SLOTS;
      while i > 0
        invariant 0 <= i <= SLOTS && n == FreeFrom(Slots(), i)
      {
        i := i - 1;
        if txq[i].Free? {
          n := n + 1;
        }
      }
    }

    method PickDue(now: nat) returns (best: int)
      requires Valid()
      ensures best == Pick(Slots(), now)
    {
      best := -1;
      for i := 0 to SLOTS
        invariant best == Best(Slots(), now, i)
      {
        if txq[i].Free? || txq[i].entry.due > now {
          continue;
        }
        if best < 0 || txq[i].entry.priority < txq[best].entry.priority
          || (txq[i].entry.priority == txq[best].entry.priority && txq[i].entry.due < txq[best].entry.due) {
          best := i;
        }
      }
    }

    /** Drops everything; the count is the number of entries dropped. */
    method Flush() returns (dropped: nat)
      requires Valid()
      modifies txq
      ensures Slots() == Empty() && dropped == |old(Listed(Slots()))|
    {
      ghost var s := Slots();
      dropped := 0;
      for i := 0 to SLOTS
        invariant dropped == |Listed(s[..i])|
        invariant forall j :: 0 <= j < i ==> txq[j].Free?
        invariant forall j :: i <= j < SLOTS ==> txq[j] == s[j]
      {
        ListedNext(s, i);
        if txq[i].Used? {
          txq[i] := Free;
          dropped := dropped + 1;
        }
      }
      assert s[..SLOTS] == s;
    }

    method Remove(i: nat)
      requires Valid() && i < SLOTS
      modifies txq
      ensures Slots() == old(Slots())[i := Free]
    {
      txq[i] := Free;
    }

    /** Makes a queued entry wait until `due`. */
    method Postpone(i: nat, due: nat)
      requires Valid() && i < SLOTS && txq[i].Used?
      modifies txq
      ensures Slots() == old(Slots())[i := Used(old(txq[i].entry).(due := due))]
    {
      txq[i] := Used(txq[i].entry.(due := due));
    }
  }
}
