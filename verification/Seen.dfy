/**
 The ring of recently seen packet hashes, and how long a hash stays in it.
 */
module Seen {

  import opened Bytes

  const SIZE: nat := 160

  type hash = h: seq<byte> | |h| == 8 witness [0, 0, 0, 0, 0, 0, 0, 0]

  const ZERO: hash := [0, 0, 0, 0, 0, 0, 0, 0]

  /** The hashes a ring holds, oldest first. */
  type window = w: seq<hash> | |w| == SIZE witness Zeroed()

  function Zeroed(): (w: seq<hash>)
    ensures |w| == SIZE
  {
    seq(SIZE, _ => ZERO)
  }

  /** The window of a new ring: zero hashes, so that one counts as seen until it is displaced. */
  function Fresh(): window {
    Zeroed()
  }

  /** Offering a hash: one already held changes nothing, another displaces the oldest. */
  function Offer(w: window, h: hash): window {
    if h in w then w else w[1..] + [h]
  }

  class Ring {
    const ring: array<hash>
    var idx: nat

    ghost predicate Valid()
      reads this
    {
      ring.Length == SIZE && idx < SIZE
    }

    ghost function Window(): window
      reads this, ring
      requires Valid()
    {
      ring[idx..] + ring[..idx]
    }

    constructor ()
      ensures Valid() && fresh(ring) && Window() == Fresh()
    {
      ring := new hash[160](_ => ZERO);
      idx := 0;
    }

    method CheckAndAdd(h: hash) returns (present: bool)
      requires Valid()
      modifies this`idx, ring
      ensures Valid() && present == (h in old(Window())) && Window() == Offer(old(Window()), h)
    {
      ghost var w := Window();
      for i := 0 to SIZE
        invariant forall j :: 0 <= j < i ==> ring[j] != h
      {
        if ring[i] == h {
          assert h in w by { assert ring[i] in ring[idx..] || ring[i] in ring[..idx]; }
          return true;
        }
      }
      assert h !in w;
      ghost var r := ring[..];
      ring[idx] := h;
      assert ring[..] == r[idx := h];
      assert w[1..] + [h] == r[idx + 1..] + r[..idx] + [h];
      idx := if idx + 1 == SIZE then 0 else idx + 1;
      return false;
    }
  }

  // ---------------------------------------------------------------- runs

  /** The window after a run of offers. */
  function After(w: window, hs: seq<hash>): window
    decreases |hs|
  {
    if |hs| == 0 then w else Offer(After(w, hs[..|hs| - 1]), hs[|hs| - 1])
  }

  /** The hashes of a run that were recorded, in order. */
  function Recorded(w: window, hs: seq<hash>): (r: seq<hash>)
    ensures |r| <= |hs|
    decreases |hs|
  {
    if |hs| == 0 then []
    else
      var last := |hs| - 1;
      Recorded(w, hs[..last]) + if hs[last] in After(w, hs[..last]) then [] else [hs[last]]
  }

  /** The window is the last 160 of what it was followed by what was recorded since. */
  lemma {:induction false} WindowIs(w: window, hs: seq<hash>)
    ensures After(w, hs) == (w + Recorded(w, hs))[|Recorded(w, hs)|..]
    decreases |hs|
  {
    if |hs| > 0 {
      var last := |hs| - 1;
      WindowIs(w, hs[..last]);
      var r := Recorded(w, hs[..last]);
      if hs[last] !in After(w, hs[..last]) {
        assert (w + r)[|r|..][1..] + [hs[last]] == (w + (r + [hs[last]]))[|r| + 1..];
      }
    }
  }

  /** What is recorded differs from the 160 before it. */
  lemma {:induction false} RecordedApart(w: window, hs: seq<hash>, i: nat, j: nat)
    requires i < j < SIZE + |Recorded(w, hs)| && SIZE <= j <= i + SIZE
    ensures (w + Recorded(w, hs))[i] != (w + Recorded(w, hs))[j]
    decreases |hs|
  {
    var last := |hs| - 1;
    var r := Recorded(w, hs[..last]);
    if hs[last] in After(w, hs[..last]) || j < SIZE + |r| {
      RecordedApart(w, hs[..last], i, j);
    } else {
      WindowIs(w, hs[..last]);
      assert j == SIZE + |r|;
      var all := w + r;
      assert all[|r|..][i - |r|] == all[i];
      assert all[i] in After(w, hs[..last]);
    }
  }

  /**
   Two records of one hash have at least 160 others between them; the 160 after the first are pairwise
   different and different from it.
   */
  lemma RecordedTwice(w: window, hs: seq<hash>, i: nat, j: nat)
    requires i < j < |Recorded(w, hs)| && Recorded(w, hs)[i] == Recorded(w, hs)[j]
    ensures j - i > SIZE
    ensures forall a, b :: i <= a < b <= i + SIZE ==> Recorded(w, hs)[a] != Recorded(w, hs)[b]
  {
    var r := Recorded(w, hs);
    if j - i <= SIZE {
      RecordedApart(w, hs, SIZE + i, SIZE + j);
    }
    forall a, b | i <= a < b <= i + SIZE
      ensures r[a] != r[b]
    {
      RecordedApart(w, hs, SIZE + a, SIZE + b);
    }
  }

  lemma {:induction false} DistinctFit(r: seq<hash>, s: set<hash>)
    requires forall a, b :: 0 <= a < b < |r| ==> r[a] != r[b]
    requires forall h :: h in r ==> h in s
    ensures |r| <= |s|
    decreases |r|
  {
    if |r| > 0 {
      var last := r[|r| - 1];
      var t := r[..|r| - 1];
      forall h | h in t
        ensures h in s - {last}
      {
      }
      DistinctFit(t, s - {last});
    }
  }

  /** A hash recorded twice means that more than 160 hashes are in play. */
  lemma TwiceNeedsMany(w: window, hs: seq<hash>, inPlay: set<hash>, i: nat, j: nat)
    requires forall h :: h in hs ==> h in inPlay
    requires i < j < |Recorded(w, hs)| && Recorded(w, hs)[i] == Recorded(w, hs)[j]
    ensures |inPlay| > SIZE
  {
    RecordedFrom(w, hs);
    RecordedTwice(w, hs, i, j);
    DistinctFit(Recorded(w, hs)[i..i + SIZE + 1], inPlay);
  }

  /** With at most 160 hashes in play each is recorded at most once. */
  lemma RecordedOnce(w: window, hs: seq<hash>, inPlay: set<hash>)
    requires |inPlay| <= SIZE && forall h :: h in hs ==> h in inPlay
    ensures forall i, j :: 0 <= i < j < |Recorded(w, hs)| ==> Recorded(w, hs)[i] != Recorded(w, hs)[j]
    ensures |Recorded(w, hs)| <= |inPlay|
  {
    var r := Recorded(w, hs);
    RecordedFrom(w, hs);
    forall i, j | 0 <= i < j < |r|
      ensures r[i] != r[j]
    {
      if r[i] == r[j] {
        TwiceNeedsMany(w, hs, inPlay, i, j);
      }
    }
    DistinctFit(r, inPlay);
  }

  lemma {:induction false} RecordedFrom(w: window, hs: seq<hash>)
    ensures forall h :: h in Recorded(w, hs) ==> h in hs
    decreases |hs|
  {
    if |hs| > 0 {
      RecordedFrom(w, hs[..|hs| - 1]);
    }
  }

  /**
   A hash with k hashes older than it in the window is held while at most k more have been recorded, and
   the first k + 1 recorded are others.
   */
  lemma StillHeld(w: window, hs: seq<hash>, k: nat)
    requires k < SIZE
    ensures |Recorded(w, hs)| <= k ==> w[k] in After(w, hs)
    ensures forall i :: 0 <= i <= k && i < |Recorded(w, hs)| ==> Recorded(w, hs)[i] != w[k]
  {
    WindowIs(w, hs);
    var r := Recorded(w, hs);
    if |r| <= k {
      assert After(w, hs)[k - |r|] == w[k];
    }
    forall i | 0 <= i <= k && i < |r|
      ensures r[i] != w[k]
    {
      RecordedApart(w, hs, k, SIZE + i);
    }
  }

  /** When it is not offered again it is gone once more than k have been recorded. */
  lemma Lifetime(w: window, hs: seq<hash>, k: nat)
    requires k < SIZE && w[k] !in hs && forall i :: k < i < SIZE ==> w[i] != w[k]
    ensures w[k] in After(w, hs) <==> |Recorded(w, hs)| <= k
  {
    StillHeld(w, hs, k);
    WindowIs(w, hs);
    RecordedFrom(w, hs);
    var r := Recorded(w, hs);
    var all := w + r;
    var v := After(w, hs);
    if |r| > k {
      forall i | 0 <= i < SIZE
        ensures v[i] != w[k]
      {
        assert v[i] == all[|r| + i];
        if |r| + i >= SIZE {
          assert all[|r| + i] == r[|r| + i - SIZE];
        }
      }
    }
  }

  /** New hashes push out as many of the oldest. */
  lemma {:induction false} Fills(w: window, hs: seq<hash>)
    requires |hs| <= SIZE && forall i, j :: 0 <= i < j < |hs| ==> hs[i] != hs[j]
    requires forall i :: 0 <= i < |hs| ==> hs[i] !in w
    ensures After(w, hs) == w[|hs|..] + hs
    decreases |hs|
  {
    if |hs| > 0 {
      var last := |hs| - 1;
      Fills(w, hs[..last]);
      var v := w[last..] + hs[..last];
      forall i | 0 <= i < SIZE
        ensures v[i] != hs[last]
      {
        assert v[i] == if i < SIZE - last then w[last + i] else hs[i - (SIZE - last)];
      }
      assert v[1..] + [hs[last]] == w[|hs|..] + hs;
    }
  }
}
