/**
 The rate limit on frames from the hub: a token bucket, in exact arithmetic where the program uses
 floating point.
 */
module TokenBucket {

  /** `ms` is when tokens were last counted, 0 when they never were. */
  datatype Bucket = Bucket(tokens: real, ms: nat)

  /** A rate of 0 counts as 1 frame a minute. */
  function Rate(configured: nat): nat {
    if configured == 0 then 1 else configured
  }

  /** What the bucket holds: a third of a minute's frames, rounded down, and at least one. */
  function Cap(configured: nat): nat {
    if Rate(configured) / 3 > 0 then Rate(configured) / 3 else 1
  }

  function Refill(configured: nat, ms: nat): real {
    ms as real * Rate(configured) as real / 60000.0
  }

  function Filled(configured: nat, b: Bucket, now: nat): real
    requires now >= b.ms
  {
    if b.ms == 0 then Cap(configured) as real
    else
      var t := b.tokens + Refill(configured, now - b.ms);
      if t > Cap(configured) as real then Cap(configured) as real else t
  }

  /** A frame arrives at `now`; `room` says whether the queue has its headroom. */
  datatype Call = Call(now: nat, room: bool)

  predicate Passes(configured: nat, b: Bucket, c: Call)
    requires c.now >= b.ms
  {
    Filled(configured, b, c.now) >= 1.0 && c.room
  }

  function Next(configured: nat, b: Bucket, c: Call): Bucket
    requires c.now >= b.ms
  {
    var t := Filled(configured, b, c.now);
    Bucket(if Passes(configured, b, c) then t - 1.0 else t, c.now)
  }

  // ---------------------------------------------------------------- runs

  /** A clock that is positive and does not run backwards. */
  predicate Clocked(run: seq<Call>) {
    && (forall i :: 0 <= i < |run| ==> run[i].now > 0)
    && forall i, j :: 0 <= i <= j < |run| ==> run[i].now <= run[j].now
  }

  function After(configured: nat, run: seq<Call>): (b: Bucket)
    requires Clocked(run)
    ensures b.ms == if |run| == 0 then 0 else run[|run| - 1].now
    decreases |run|
  {
    if |run| == 0 then Bucket(0.0, 0) else Next(configured, After(configured, run[..|run| - 1]), run[|run| - 1])
  }

  /** Whether call k hands its frame to the mesh. */
  predicate Handed(configured: nat, run: seq<Call>, k: nat)
    requires Clocked(run) && k < |run|
  {
    Passes(configured, After(configured, run[..k]), run[k])
  }

  /** How many of the calls from i up to j hand on their frames. */
  function Count(configured: nat, run: seq<Call>, i: nat, j: nat): nat
    requires Clocked(run) && i <= j <= |run|
    decreases j
  {
    if i == j then 0 else Count(configured, run, i, j - 1) + if Handed(configured, run, j - 1) then 1 else 0
  }

  lemma RefillAdds(configured: nat, a: nat, b: nat, c: nat)
    requires a + b == c
    ensures Refill(configured, c) == Refill(configured, a) + Refill(configured, b) && Refill(configured, b) >= 0.0
  {
  }

  lemma Chained(count: real, tokens: real, filled: real, next: real, passed: real, cap: real, a: real, b: real, c: real)
    requires count + tokens <= cap + a && filled <= tokens + b && next == filled - passed && c == a + b
    ensures count + passed + next <= cap + c
  {
  }

  lemma Unrolled(configured: nat, run: seq<Call>, k: nat)
    requires Clocked(run) && k < |run|
    ensures After(configured, run[..k + 1]) == Next(configured, After(configured, run[..k]), run[k])
    ensures After(configured, run[..k]).ms == if k == 0 then 0 else run[k - 1].now
  {
    assert run[..k + 1][..k] == run[..k];
  }

  lemma FilledBound(configured: nat, b: Bucket, now: nat)
    requires now >= b.ms
    ensures Filled(configured, b, now) <= Cap(configured) as real
    ensures b.ms > 0 ==> Filled(configured, b, now) <= b.tokens + Refill(configured, now - b.ms)
  {
  }

  /** What was handed on since call i, and what the bucket still holds, is at most its cap and the refill. */
  lemma {:induction false} Potential(configured: nat, run: seq<Call>, i: nat, j: nat)
    requires Clocked(run) && i < j <= |run|
    ensures Count(configured, run, i, j) as real + After(configured, run[..j]).tokens
         <= Cap(configured) as real + Refill(configured, run[j - 1].now - run[i].now)
    decreases j
  {
    var k := j - 1;
    Unrolled(configured, run, k);
    var before, next := After(configured, run[..k]), After(configured, run[..j]);
    var filled := Filled(configured, before, run[k].now);
    var passed := if Handed(configured, run, k) then 1.0 else 0.0;
    var span := run[k].now - run[i].now;
    FilledBound(configured, before, run[k].now);
    assert next.tokens == filled - passed;
    if i < k {
      Potential(configured, run, i, k);
      var early, late := run[k - 1].now - run[i].now, run[k].now - run[k - 1].now;
      RefillAdds(configured, early, late, span);
      Chained(Count(configured, run, i, k) as real, before.tokens, filled, next.tokens, passed, Cap(configured) as real,
              Refill(configured, early), Refill(configured, late), Refill(configured, span));
    } else {
      RefillAdds(configured, 0, span, span);
    }
  }

  lemma {:induction false} NeverNegative(configured: nat, run: seq<Call>)
    requires Clocked(run)
    ensures After(configured, run).tokens >= 0.0
    decreases |run|
  {
    if |run| > 0 {
      var k := |run| - 1;
      NeverNegative(configured, run[..k]);
      Unrolled(configured, run, k);
      assert run[..k + 1] == run;
      var late := run[k].now - After(configured, run[..k]).ms;
      RefillAdds(configured, 0, late, late);
    }
  }

  lemma BoundedBy(configured: nat, run: seq<Call>, i: nat, j: nat, ms: nat)
    requires Clocked(run) && i < j <= |run| && run[j - 1].now - run[i].now <= ms
    ensures Count(configured, run, i, j) as real <= Cap(configured) as real + Refill(configured, ms)
  {
    Potential(configured, run, i, j);
    NeverNegative(configured, run[..j]);
    var span := run[j - 1].now - run[i].now;
    RefillAdds(configured, span, ms - span, ms);
  }

  /**
   In any interval of `ms` milliseconds at most max(1, rate / 3) + rate * ms / 60000 frames are handed to
   the mesh, whatever calls were made before.
   */
  lemma Bounded(configured: nat, run: seq<Call>, i: nat, j: nat, ms: nat)
    requires Clocked(run) && i < j <= |run| && run[j - 1].now - run[i].now <= ms
    ensures var rate := if configured == 0 then 1 else configured;
            var cap := if rate < 3 then 1 else rate / 3;
            Count(configured, run, i, j) as real <= cap as real + ms as real * rate as real / 60000.0
  {
    BoundedBy(configured, run, i, j, ms);
    WrittenOut(configured, ms);
  }

  lemma WrittenOut(configured: nat, ms: nat)
    ensures var rate := if configured == 0 then 1 else configured;
            && Cap(configured) == (if rate < 3 then 1 else rate / 3)
            && Refill(configured, ms) == ms as real * rate as real / 60000.0
  {
  }

  /** The other side: the first call with room passes, and so does every one that waited for a whole token. */
  lemma WaitedPasses(configured: nat, run: seq<Call>, k: nat)
    requires Clocked(run) && k < |run| && run[k].room
    requires var rate := if configured == 0 then 1 else configured;
             k > 0 ==> rate * (run[k].now - run[k - 1].now) >= 60000
    ensures Handed(configured, run, k)
  {
    if k > 0 {
      Unrolled(configured, run, k);
      NeverNegative(configured, run[..k]);
      WholeToken(configured, run[k].now - run[k - 1].now);
    }
  }

  lemma WholeToken(configured: nat, ms: nat)
    requires Rate(configured) * ms >= 60000
    ensures Refill(configured, ms) >= 1.0
  {
    assert ms as real * Rate(configured) as real == (Rate(configured) * ms) as real;
  }

  /** The bound is reached: frames that arrive at once all pass until the cap is used up, and then none. */
  lemma {:induction false} Burst(configured: nat, run: seq<Call>, k: nat, now: nat)
    requires Clocked(run) && k <= |run| && forall i :: 0 <= i < |run| ==> run[i] == Call(now, true)
    ensures var cap := if configured < 3 then 1 else configured / 3;
            && (k > 0 ==> After(configured, run[..k]).tokens == if k <= cap then (cap - k) as real else 0.0)
            && (k < |run| ==> (Handed(configured, run, k) <==> k < cap))
    decreases k
  {
    if k > 0 {
      Burst(configured, run, k - 1, now);
      Unrolled(configured, run, k - 1);
    }
    if k < |run| {
      Unrolled(configured, run, k);
      assert Refill(configured, 0) == 0.0;
    }
  }

  // ---------------------------------------------------------------- the program

  class Limiter {
    const configured: nat
    var tokens: real
    var tokensMs: nat

    function Value(): Bucket
      reads this
    {
      Bucket(tokens, tokensMs)
    }

    constructor (configured: nat)
      ensures this.configured == configured && Value() == Bucket(0.0, 0)
    {
      this.configured := configured;
      tokens := 0.0;
      tokensMs := 0;
    }

    method OnFrame(now: nat, room: bool) returns (pass: bool)
      requires now >= tokensMs
      modifies this
      ensures Value() == Next(configured, old(Value()), Call(now, room))
      ensures pass == Passes(configured, old(Value()), Call(now, room))
    {
      var rate := if configured != 0 then configured else 1;
      var cap: real := if rate / 3 != 0 then (rate / 3) as real else 1.0;
      if tokensMs == 0 {
        tokens := cap;
      } else {
        tokens := tokens + (now - tokensMs) as real * rate as real / 60000.0;
        if tokens > cap {
          tokens := cap;
        }
      }
      tokensMs := now;
      if tokens < 1.0 || !room {
        return false;
      }
      tokens := tokens - 1.0;
      return true;
    }
  }
}
