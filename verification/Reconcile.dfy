/** The reconcile pass: desired points against the read-back, drifted points re-sent, read
    back and compared; and what repeated passes do to the inverter. */
module Reconcile {
  import opened Wrappers
  import opened Bytes
  import opened Codes
  import opened Protection
  import opened ProtectionRead
  import opened Quantisation
  import opened GridProfile
  import opened Device

  type Frame = seq<byte>

  /** The surroundings of a pass: whether the n-th send is accepted and, if so, gets across the radio,
      which reply pages of the n-th triggered read arrive, and whether the context is done at the
      n-th wait. */
  datatype Env = Env(model: byte, reassert: bool, accepts: nat -> bool, arrives: nat -> bool,
                     pages: nat -> byte -> bool, cancelled: nat -> bool)
  {
    function Fam(): Family { FamilyOf(model) }
  }

  /** The inverter's registers, the driver's read-back cache, and what has happened so far. */
  datatype World = World(regs: Registers, cache: map<Code, real>, sent: seq<Frame>,
                         sends: nat, asked: nat, waits: nat)

  datatype Result =
    | NoReadback | InSync | Drift
    | EncodeError(why: PointEncoded) | SendError | ContextCancelled
    | Applied | Unconfirmed

  datatype PointResult = PointResult(code: Code, intended: real, readback: real, result: Result)

  function SendFrame(env: Env, w: World, f: Frame): (World, bool) {
    var tried := w.(sends := w.sends + 1);
    if env.accepts(w.sends)
    then (tried.(regs := if env.arrives(w.sends) then Store(env.Fam(), w.regs, f) else w.regs, sent := w.sent + [f]),
          true)
    else (tried, false)
  }

  /** Frames in order, stopping at the first that is not accepted. */
  function SendFrames(env: Env, w: World, fs: seq<Frame>): (World, bool) {
    if fs == [] then (w, true)
    else
      var (v, ok) := SendFrames(env, w, fs[..|fs| - 1]);
      if ok then SendFrame(env, v, fs[|fs| - 1]) else (v, false)
  }

  /** What the arriving pages report; a lost page takes its codes with it. */
  function Arriving(fam: Family, regs: Registers, pages: byte -> bool): map<Code, real> {
    var all := ReadAll(fam, regs);
    map c | c in all && pages(PageOf(fam, c)) :: all[c]
  }

  function TriggerRead(env: Env, w: World): World {
    w.(asked := w.asked + 1, cache := w.cache + Arriving(env.Fam(), w.regs, env.pages(w.asked)))
  }

  /** The point is drifted and will be re-sent. */
  predicate Resends(env: Env, rb: map<Code, real>, p: EffectivePoint) {
    env.reassert && p.code in rb && !WithinTolerance(p.code, p.value, rb[p.code])
  }

  function Verdict(p: EffectivePoint, cache: map<Code, real>, before: real): PointResult {
    if p.code in cache
    then PointResult(p.code, p.value, cache[p.code],
                     if WithinTolerance(p.code, p.value, cache[p.code]) then Applied else Unconfirmed)
    else PointResult(p.code, p.value, before, Unconfirmed)
  }

  /** One drifted point: encode, send, wait, trigger a read, wait, compare. */
  function Reassert(env: Env, w: World, p: EffectivePoint, before: real): (World, PointResult) {
    var e := EncodeEffectivePoint(env.model, p);
    if !e.Encoded? then (w, PointResult(p.code, p.value, before, EncodeError(e)))
    else
      var (w1, ok) := SendFrames(env, w, e.frames);
      if !ok then (w1, PointResult(p.code, p.value, before, SendError))
      else
        var w2 := w1.(waits := w1.waits + 1);
        if env.cancelled(w1.waits) then (w2, PointResult(p.code, p.value, before, ContextCancelled))
        else
          var w3 := TriggerRead(env, w2);
          var w4 := w3.(waits := w3.waits + 1);
          if env.cancelled(w3.waits) then (w4, PointResult(p.code, p.value, before, ContextCancelled))
          else (w4, Verdict(p, w4.cache, before))
  }

  function PointStep(env: Env, rb: map<Code, real>, w: World, p: EffectivePoint): (World, PointResult) {
    if p.code !in rb then (w, PointResult(p.code, p.value, 0.0, NoReadback))
    else if WithinTolerance(p.code, p.value, rb[p.code]) then (w, PointResult(p.code, p.value, rb[p.code], InSync))
    else if !env.reassert then (w, PointResult(p.code, p.value, rb[p.code], Drift))
    else Reassert(env, w, p, rb[p.code])
  }

  datatype Pass = Pass(world: World, report: seq<PointResult>, cancelled: bool)

  /** A pass over the points against one snapshot of the read-back. */
  function RunPass(env: Env, rb: map<Code, real>, w: World, points: seq<EffectivePoint>): Pass {
    if points == [] then Pass(w, [], false)
    else
      var before := RunPass(env, rb, w, points[..|points| - 1]);
      if before.cancelled then before
      else
        var (v, r) := PointStep(env, rb, before.world, points[|points| - 1]);
        Pass(v, before.report + [r], r.result.ContextCancelled?)
  }

  /** The state after a pass that starts with the read-back the cache holds. */
  function After(env: Env, w: World, points: seq<EffectivePoint>): World { RunPass(env, w.cache, w, points).world }

  class Reconciler {
    const env: Env
    var world: World

    constructor (env: Env, world: World)
      ensures this.env == env && this.world == world
    {
      this.env, this.world := env, world;
    }

    method Send(f: Frame) returns (ok: bool)
      modifies this
      ensures (world, ok) == SendFrame(env, old(world), f)
    {
      ok := env.accepts(world.sends);
      if ok {
        if env.arrives(world.sends) { world := world.(regs := Store(env.Fam(), world.regs, f)); }
        world := world.(sent := world.sent + [f]);
      }
      world := world.(sends := world.sends + 1);
    }

    method SendAll(fs: seq<Frame>) returns (ok: bool)
      modifies this
      ensures (world, ok) == SendFrames(env, old(world), fs)
    {
      hide SendFrame;
      ok := true;
      var i := 0;
      while i < |fs| && ok
        invariant 0 <= i <= |fs|
        invariant (world, ok) == SendFrames(env, old(world), fs[..i])
      {
        assert fs[..i + 1][..i] == fs[..i];
        ok := Send(fs[i]);
        i := i + 1;
      }
      if ok { assert fs[..i] == fs; } else { StoppedStaysStopped(env, old(world), fs, i); }
    }

    method Wait() returns (done: bool)
      modifies this
      ensures done == env.cancelled(old(world).waits) && world == old(world).(waits := old(world).waits + 1)
    {
      done := env.cancelled(world.waits);
      world := world.(waits := world.waits + 1);
    }

    method ReassertPoint(p: EffectivePoint, before: real) returns (r: PointResult)
      modifies this
      ensures (world, r) == Reassert(env, old(world), p, before)
    {
      hide EncodeEffectivePoint, SendFrames;
      var e := EncodeEffectivePoint(env.model, p);
      if !e.Encoded? { return PointResult(p.code, p.value, before, EncodeError(e)); }
      var ok := SendAll(e.frames);
      if !ok { return PointResult(p.code, p.value, before, SendError); }
      var done := Wait();
      if done { return PointResult(p.code, p.value, before, ContextCancelled); }
      world := TriggerRead(env, world);
      done := Wait();
      if done { return PointResult(p.code, p.value, before, ContextCancelled); }
      r := PointResult(p.code, p.value, before, Unconfirmed);
      if p.code in world.cache {
        r := r.(readback := world.cache[p.code]);
        if WithinTolerance(p.code, p.value, world.cache[p.code]) { r := r.(result := Applied); }
      }
    }

    method ReconcileUid(points: seq<EffectivePoint>) returns (report: seq<PointResult>, cancelled: bool)
      modifies this
      ensures Pass(world, report, cancelled) == RunPass(env, old(world).cache, old(world), points)
    {
      hide Reassert, WithinTolerance;
      var readback := world.cache;
      report, cancelled := [], false;
      for i := 0 to |points|
        invariant !cancelled
        invariant Pass(world, report, cancelled) == RunPass(env, readback, old(world), points[..i])
      {
        assert points[..i + 1][..i] == points[..i];
        var p := points[i];
        if p.code !in readback {
          report := report + [PointResult(p.code, p.value, 0.0, NoReadback)];
        } else if WithinTolerance(p.code, p.value, readback[p.code]) {
          report := report + [PointResult(p.code, p.value, readback[p.code], InSync)];
        } else if !env.reassert {
          report := report + [PointResult(p.code, p.value, readback[p.code], Drift)];
        } else {
          var r := ReassertPoint(p, readback[p.code]);
          report := report + [r];
          if r.result.ContextCancelled? {
            CancelledStaysCancelled(env, readback, old(world), points, i + 1);
            cancelled := true;
            return;
          }
        }
      }
      assert points[..|points|] == points;
    }
  }

  lemma {:induction false} StoppedStaysStopped(env: Env, w: World, fs: seq<Frame>, i: nat)
    requires i <= |fs| && !SendFrames(env, w, fs[..i]).1
    ensures SendFrames(env, w, fs) == SendFrames(env, w, fs[..i])
  {
    if i == |fs| {
      assert fs[..i] == fs;
    } else {
      assert fs[..|fs| - 1][..i] == fs[..i];
      StoppedStaysStopped(env, w, fs[..|fs| - 1], i);
    }
  }

  lemma {:induction false} CancelledStaysCancelled(env: Env, rb: map<Code, real>, w: World,
                                                   points: seq<EffectivePoint>, i: nat)
    requires i <= |points| && RunPass(env, rb, w, points[..i]).cancelled
    ensures RunPass(env, rb, w, points) == RunPass(env, rb, w, points[..i])
  {
    if i == |points| {
      assert points[..i] == points;
    } else {
      assert points[..|points| - 1][..i] == points[..i];
      CancelledStaysCancelled(env, rb, w, points[..|points| - 1], i);
    }
  }
}
