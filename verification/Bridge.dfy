/**
 A FRAME datagram from the hub: the checks, the rate limit, the room left for radio traffic, and then the
 mesh.
 */
module Bridge {

  import opened Bytes
  import opened Mesh
  import MeshProgram
  import Hub
  import Queue
  import TokenBucket

  /** Slots kept for radio traffic: tested before the frame is queued, so that one fewer is left. */
  const HEADROOM: nat := 8

  /** A granted role, ten bytes of header, and a frame that is there. */
  predicate Carries(granted: bool, body: seq<byte>) {
    granted && |body| >= 10 && body[1] != 0 && 10 + body[1] as int <= |body|
  }

  function FrameOf(body: seq<byte>): seq<byte>
    requires Carries(true, body)
  {
    body[10..10 + body[1] as int]
  }

  /** A length, ten bytes in all, and then the frame, whatever stands behind it. */
  lemma FrameIn(kind: byte, rest: seq<byte>, frame: seq<byte>, tail: seq<byte>)
    requires |rest| == 8 && 0 < |frame| < 256
    ensures var body := [kind, |frame|] + rest + frame + tail; Carries(true, body) && FrameOf(body) == frame
  {
    var body := [kind, |frame|] + rest + frame + tail;
    assert body[1] as int == |frame|;
    assert body[10..10 + |frame|] == frame;
  }

  /** No other body carries a frame. */
  lemma FrameOnly(body: seq<byte>) returns (rest: seq<byte>, tail: seq<byte>)
    requires Carries(true, body)
    ensures |rest| == 8 && 0 < |FrameOf(body)| < 256
    ensures body == [body[0], |FrameOf(body)|] + rest + FrameOf(body) + tail
  {
    var n := body[1] as int;
    rest, tail := body[2..10], body[10 + n..];
    assert body == [body[0], body[1]] + body[2..10] + body[10..10 + n] + body[10 + n..];
  }

  datatype Verdict = Rejected | Limited | Injected(result: Result)

  class HubFrames {
    const mesh: MeshProgram.Program
    const limiter: TokenBucket.Limiter
    var rejected: nat
    var limited: nat
    var injected: nat

    ghost predicate Valid()
      reads this, limiter, mesh.Repr(), mesh
    {
      mesh.Valid() && limiter as object !in mesh.Repr() && this as object !in mesh.Repr() && this as object != limiter
    }

    constructor (mesh: MeshProgram.Program, rate: nat)
      requires mesh.Valid()
      ensures this.mesh == mesh && limiter.configured == rate && fresh(limiter) && Valid()
    {
      this.mesh := mesh;
      limiter := new TokenBucket.Limiter(rate);
      rejected, limited, injected := 0, 0, 0;
    }

    /**
     A frame reaches the mesh exactly when it is well formed, a token is there and at least 8 slots are
     free; then at least 7 are left.
     */
    method OnFrame(now: nat, granted: bool, body: seq<byte>, inp: Inputs) returns (v: Verdict)
      requires Valid() && inp.src == Backbone && now >= limiter.tokensMs
      modifies this, limiter, mesh.Repr()
      ensures Valid()
      ensures !Carries(granted, body) ==>
                v == Rejected && mesh.View() == old(mesh.View()) && limiter.Value() == old(limiter.Value())
      ensures Carries(granted, body) ==>
                var call := TokenBucket.Call(now, Queue.FreeSlots(old(mesh.View()).txq) >= 8);
                && limiter.Value() == TokenBucket.Next(limiter.configured, old(limiter.Value()), call)
                && if !TokenBucket.Passes(limiter.configured, old(limiter.Value()), call)
                   then v == Limited && mesh.View() == old(mesh.View())
                   else mesh.View() == Received(mesh.n, old(mesh.View()), FrameOf(body), inp).0
                        && Queue.FreeSlots(mesh.View().txq) >= 7 && !v.Limited?
    {
      if !granted || |body| < 10 || body[1] == 0 || 10 + body[1] as int > |body| {
        rejected := rejected + 1;
        return Rejected;
      }
      var frame := FrameOf(body);
      var free := mesh.queue.FreeCount();
      var pass := limiter.OnFrame(now, free >= HEADROOM);
      if !pass {
        limited := limited + 1;
        return Limited;
      }
      Hub.HubLeavesSeven(mesh.n, mesh.View(), frame, inp);
      var r := mesh.OnBackbone(frame, inp);
      if r.Malformed? {
        rejected := rejected + 1;
        return Rejected;
      }
      injected := injected + 1;
      return Injected(r);
    }
  }
}
