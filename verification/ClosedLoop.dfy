/** What repeated reconcile passes achieve against an inverter that stores what is written to
    it and answers reads from what it stores. */
module ClosedLoop {
  import opened Wrappers
  import opened Bytes
  import opened Codes
  import opened Protection
  import opened ProtectionRead
  import opened Quantisation
  import GridProfile
  import opened Device
  import opened Reconcile

  type Point = GridProfile.EffectivePoint

  /** Drifted points are re-sent, every send arrives, every reply page arrives, nothing is cancelled. */
  ghost predicate Healthy(env: Env) {
    && env.reassert
    && (forall n: nat :: env.accepts(n) && env.arrives(n) && !env.cancelled(n))
    && (forall n: nat, k: byte :: env.pages(n)(k))
  }

  /** A read of which every page arrives refreshes the cache with everything readable. */
  lemma FullRead(env: Env, w: World)
    requires Healthy(env)
    ensures TriggerRead(env, w).cache == w.cache + ReadAll(env.Fam(), w.regs)
  {
    hide ReadAll, PageOf;
    assert Arriving(env.Fam(), w.regs, env.pages(w.asked)) == ReadAll(env.Fam(), w.regs);
  }

  /** The point's value already lies in its well-formed range, so encoding will not move it. */
  predicate Ready(p: Point) { GridProfile.WellFormed(p.range) && GridProfile.Clamp(p.value, p.range) == p.value }

  ghost predicate Distinct(points: seq<Point>) {
    forall i, j :: 0 <= i < j < |points| ==> points[i].code != points[j].code
  }

  /** How each pass happens to list the points: the same points every time, in any order. */
  ghost predicate Listings(orders: nat -> seq<Point>) {
    forall j: nat :: Distinct(orders(j)) && forall p :: p in orders(j) <==> p in orders(0)
  }

  /** The cache already shows what the inverter holds. */
  predicate Settled(fam: Family, w: World) { w.cache + ReadAll(fam, w.regs) == w.cache }

  /** What the desired profile guarantees of its points. */
  lemma DesiredPointsAreReady(model: byte, merged: map<Code, GridProfile.Point>, points: seq<Point>)
    requires GridProfile.PointsOf(model, merged, points)
    ensures Distinct(points)
    ensures forall p :: p in points ==> (Ready(p) <==> GridProfile.WellFormed(p.range))
  {
    forall p | p in points ensures GridProfile.Clamp(p.value, p.range) == p.value {
      GridProfile.SecondClampIsIdentity(model, merged, points, p);
    }
  }

  /** Every pass builds the points anew from the merged profile and so lists them anew. */
  lemma DesiredListings(model: byte, merged: map<Code, GridProfile.Point>, orders: nat -> seq<Point>)
    requires forall j: nat :: GridProfile.PointsOf(model, merged, orders(j))
    ensures Listings(orders)
  {
    hide GridProfile.Writeable, GridProfile.Effective;
    forall j: nat ensures Distinct(orders(j)) && forall p :: p in orders(j) <==> p in orders(0) {
      assert GridProfile.PointsOf(model, merged, orders(0));
      assert GridProfile.PointsOf(model, merged, orders(j));
    }
  }

  // ------------------------------------------------------------ every pass, whatever happens

  /** The outcome classes: which result a point may get. */
  predicate Classified(env: Env, rb: map<Code, real>, p: Point, r: PointResult) {
    && r.code == p.code && r.intended == p.value
    && (r.result.NoReadback? <==> p.code !in rb)
    && (r.result.InSync? <==> p.code in rb && WithinTolerance(p.code, p.value, rb[p.code]))
    && (r.result.Drift? <==> !env.reassert && p.code in rb && !WithinTolerance(p.code, p.value, rb[p.code]))
    && (r.result.Applied? ==> WithinTolerance(p.code, p.value, r.readback))
  }

  lemma StepIsClassified(env: Env, rb: map<Code, real>, w: World, p: Point)
    ensures Classified(env, rb, p, PointStep(env, rb, w, p).1)
  {
    hide GridProfile.EncodeEffectivePoint, SendFrames, TriggerRead, WithinTolerance;
  }

  /** Exactly one result per desired point, in order, each in the class its snapshot value puts
      it in; only a cancelled pass stops early, at the point it reports as cancelled. */
  lemma {:induction false} OneResultPerPoint(env: Env, rb: map<Code, real>, w: World, points: seq<Point>)
    ensures var pass := RunPass(env, rb, w, points);
            && |pass.report| <= |points|
            && (!pass.cancelled ==> |pass.report| == |points|)
            && (forall i :: 0 <= i < |pass.report| ==> Classified(env, rb, points[i], pass.report[i]))
            && (forall i :: 0 <= i < |pass.report| ==>
                  (pass.report[i].result.ContextCancelled? <==> pass.cancelled && i == |pass.report| - 1))
            && (pass.cancelled ==> |pass.report| > 0)
  {
    hide PointStep, Classified;
    if points != [] {
      var n := |points| - 1;
      OneResultPerPoint(env, rb, w, points[..n]);
      var before := RunPass(env, rb, w, points[..n]);
      StepIsClassified(env, rb, before.world, points[n]);
      assert forall i :: 0 <= i < |before.report| ==> points[..n][i] == points[i];
    }
  }

  /** A point that does not have to be re-sent leaves the inverter, the cache and the link alone. */
  lemma QuietStep(env: Env, rb: map<Code, real>, w: World, p: Point)
    requires !Resends(env, rb, p)
    ensures PointStep(env, rb, w, p).0 == w && !PointStep(env, rb, w, p).1.result.ContextCancelled?
  {
    hide Reassert, WithinTolerance;
  }

  lemma {:induction false} QuietPass(env: Env, rb: map<Code, real>, w: World, points: seq<Point>)
    requires forall p :: p in points ==> !Resends(env, rb, p)
    ensures RunPass(env, rb, w, points).world == w && !RunPass(env, rb, w, points).cancelled
  {
    hide PointStep, Resends;
    if points != [] {
      QuietPass(env, rb, w, points[..|points| - 1]);
      QuietStep(env, rb, w, points[|points| - 1]);
    }
  }

  // ------------------------------------------------------------ which frames go out

  /** The encodings of the drifted points, in order. */
  function FramesFor(env: Env, rb: map<Code, real>, points: seq<Point>): seq<Frame> {
    if points == [] then []
    else FramesFor(env, rb, points[..|points| - 1]) + FramesOf(env, rb, points[|points| - 1])
  }

  function FramesOf(env: Env, rb: map<Code, real>, p: Point): seq<Frame> {
    var e := GridProfile.EncodeEffectivePoint(env.model, p);
    if Resends(env, rb, p) && e.Encoded? then e.frames else []
  }

  lemma {:induction false} AllAccepted(env: Env, w: World, fs: seq<Frame>)
    requires forall n: nat :: env.accepts(n)
    ensures SendFrames(env, w, fs).1 && SendFrames(env, w, fs).0.sent == w.sent + fs
  {
    hide Store;
    if fs != [] {
      AllAccepted(env, w, fs[..|fs| - 1]);
      assert w.sent + fs[..|fs| - 1] + [fs[|fs| - 1]] == w.sent + fs;
    }
  }

  /** On a working link an uncancelled pass sends exactly the encodings of the points that are
      present in the read-back and out of tolerance, and nothing else. */
  lemma {:induction false} SendsExactlyTheDrifted(env: Env, rb: map<Code, real>, w: World, points: seq<Point>)
    requires forall n: nat :: env.accepts(n) && !env.cancelled(n)
    ensures !RunPass(env, rb, w, points).cancelled
    ensures RunPass(env, rb, w, points).world.sent == w.sent + FramesFor(env, rb, points)
  {
    hide GridProfile.EncodeEffectivePoint, SendFrames, WithinTolerance;
    if points != [] {
      var n := |points| - 1;
      SendsExactlyTheDrifted(env, rb, w, points[..n]);
      var before, e := RunPass(env, rb, w, points[..n]).world, GridProfile.EncodeEffectivePoint(env.model, points[n]);
      if e.Encoded? { AllAccepted(env, before, e.frames); }
    }
  }

  // ------------------------------------------------------------ one re-sent point

  lemma CoveredWire(fam: Family, c: Code, v: real)
    requires Covered(fam, c, v)
    ensures 0 <= WireOf(fam, c, v)
    ensures fam == FamilyDS3 ==> WireOf(fam, c, v) <= 0xFFFF
    ensures fam == FamilyQS1 ==> WireOf(fam, c, v) <= if KindOf(c).Freq? || c == AB then 0xFFFFFF else 0xFFFF
  {
    hide ReadFieldOf, Ds3Sub, Qs1Builder, KindOf, Envelope, Ds3Wire, Qs1Wire;
    match KindOf(c)
    case Freq =>
      FreqEnvelope(c);
      NotCA(fam, c);
      FreqRegisters(c, v);
      if fam == FamilyQS1 { DivideBack(v, (QS1_FREQ_DIV / v).Floor); }
      assert v * 100.0 <= 7000.0;
    case Time => TimeNotNegative(fam, c, v);
    case Volt =>
      VoltEnvelope(c);
      VoltRegisters(c, v);
      if fam == FamilyDS3 {
        Ds3VoltRegister(v, (v / DS3_GRID_V).Floor);
      } else {
        var n := v.Floor;
        Qs1AverageArith(n, (n as real * QS1_AVG_OV).Floor);
        Qs1VoltArith(n, (n as real * QS1_VOLT).Floor);
      }
    case Mode => ModeWire(fam, c, v);
    case _ =>
  }

  lemma TimeNotNegative(fam: Family, c: Code, v: real)
    requires KindOf(c).Time? && v > 0.0
    ensures 0 <= WireOf(fam, c, v)
  {
  }

  lemma VoltEnvelope(c: Code)
    requires KindOf(c).Volt?
    ensures Envelope(c) == Some(VOLTS)
  {
    hide KindOf;
  }

  lemma ModeWire(fam: Family, c: Code, v: real)
    requires KindOf(c).Mode? && Covered(fam, c, v)
    ensures 0 <= WireOf(fam, c, v) <= 0xFF
  {
    assert c == CV;
  }

  lemma CoveredIsWriteable(model: byte, c: Code, v: real)
    requires Covered(FamilyOf(model), c, v)
    ensures GridProfile.Writeable(model, c)
  {
    hide Ds3Sub, Qs1Builder, KindOf, Envelope, WireOf, FamilyOf;
    GridProfile.ProbeFindsKnown(model, c);
    NotRejected(FamilyOf(model), c);
  }

  lemma NotRejected(fam: Family, c: Code)
    requires ReadFieldOf(fam, c).Some?
    ensures !GridProfile.HardReject(fam, c)
  {
  }

  /** A covered point encodes to one frame, and that frame stores its register. */
  lemma CoveredEncodes(model: byte, p: Point)
    requires Ready(p) && Covered(FamilyOf(model), p.code, p.value)
    ensures WritesRegister(model, p, WireOf(FamilyOf(model), p.code, p.value))
  {
    hide Ds3Sub, Qs1Builder, Ds3Wire, Qs1Wire, Qs1Frame, WriteOf, GridProfile.Writeable, ReadFieldOf, KindOf;
    var c, v := p.code, p.value;
    CoveredIsWriteable(model, c, v);
    CoveredWire(FamilyOf(model), c, v);
    GridProfile.Qs1Widths(c);
    assert EncodeSetProtection(model, c, v).Frames?;
    EncodedWriteArrives(model, c, v);
  }

  ghost predicate WritesRegister(model: byte, p: Point, wire: int) {
    var e := GridProfile.EncodeEffectivePoint(model, p);
    e.Encoded? && |e.frames| == 1 && WriteOf(FamilyOf(model), e.frames[0]) == Some(Write(p.code, wire))
  }

  /** Re-sending such a point stores its register, refreshes the cache from the inverter, and
      reports the point by what the register reads back as. */
  lemma ReassertWrites(env: Env, w: World, p: Point, before: real, wire: int, back: real)
    requires Healthy(env)
    ensures var (v, r) := Reassert(env, w, p, before);
            WritesRegister(env.model, p, wire) && RegisterValue(env.Fam(), p.code, wire) == Some(back) ==>
              && v.regs == w.regs[p.code := wire]
              && v.cache == w.cache + ReadAll(env.Fam(), v.regs)
              && r == ReportOf(p, back)
  {
    hide GridProfile.EncodeEffectivePoint, WriteOf, RegisterValue, WithinTolerance, TriggerRead;
    if WritesRegister(env.model, p, wire) && RegisterValue(env.Fam(), p.code, wire) == Some(back) {
      var fs := GridProfile.EncodeEffectivePoint(env.model, p).frames;
      assert fs[..0] == [];
      assert SendFrames(env, w, fs) == SendFrame(env, w, fs[0]);
      var w2 := SendFrame(env, w, fs[0]).0;
      assert w2.regs == w.regs[p.code := wire];
      FullRead(env, w2.(waits := w2.waits + 1));
      ReadKeepsRegisters(env, w2.(waits := w2.waits + 1));
      assert p.code in ReadAll(env.Fam(), w2.regs);
    }
  }

  /** How a re-sent point that reads back as `back` is reported. */
  function ReportOf(p: Point, back: real): PointResult {
    PointResult(p.code, p.value, back, if WithinTolerance(p.code, p.value, back) then Applied else Unconfirmed)
  }

  lemma ReadKeepsRegisters(env: Env, w: World)
    ensures TriggerRead(env, w) == w.(asked := w.asked + 1, cache := TriggerRead(env, w).cache)
  {
    hide Arriving;
  }

  // ------------------------------------------------------------ what a point may disturb

  /** The two maps differ at most at `c`. */
  ghost predicate AgreeOff<V>(a: map<Code, V>, b: map<Code, V>, c: Code) {
    forall d :: d != c ==> (d in a <==> d in b) && (d in a ==> a[d] == b[d])
  }

  /** Every frame encoded for a point stores that point's register or none at all; the frames of
      a QS1 mode store none. */
  lemma FramesStoreOwnCode(model: byte, p: Point)
    ensures var e := GridProfile.EncodeEffectivePoint(model, p);
            e.Encoded? ==> forall f :: f in e.frames ==> StoresOnly(FamilyOf(model), f, p.code)
  {
    hide GridProfile.Writeable, EncodeSetProtection, WriteOf, FamilyOf;
    var v := GridProfile.Clamp(p.value, p.range);
    if GridProfile.EncodeEffectivePoint(model, p).Encoded? {
      if FamilyOf(model) == FamilyQS1 && Qs1Builder(p.code).None? {
        ModeFramesStoreNothing(model, p.code, v);
      } else {
        EncodedWriteArrives(model, p.code, v);
      }
    }
  }

  predicate StoresOnly(fam: Family, f: Frame, c: Code) {
    WriteOf(fam, f).Some? ==> WriteOf(fam, f).value.code == c
  }

  lemma ModeFramesStoreNothing(model: byte, c: Code, v: real)
    requires FamilyOf(model) == FamilyQS1 && Qs1Builder(c).None?
    ensures var e := EncodeSetProtection(model, c, v);
            e.Frames? ==> forall f :: f in e.frames ==> WriteOf(FamilyQS1, f).None?
  {
    hide Qs1Builder, WriteOf, ModeFrame, Envelope;
    if EncodeSetProtection(model, c, v).Frames? {
      forall sub: byte, x: byte | sub == 0x5F || sub == 0x99
        ensures WriteOf(FamilyQS1, ModeFrame(QS1_UNICAST, sub, x)).None?
      {
        ModeFrameStoresNothing(sub, x);
      }
    }
  }

  lemma ModeFrameStoresNothing(sub: byte, x: byte)
    requires sub == 0x5F || sub == 0x99
    ensures WriteOf(FamilyQS1, ModeFrame(QS1_UNICAST, sub, x)).None?
  {
    hide L2.ParseL2, L2.Wire, Unsigned;
    L2.BuildThenParse(QS1_UNICAST, [sub, 1, x, 0, 0]);
  }

  lemma {:induction false} SendingTouchesOneCode(env: Env, w: World, fs: seq<Frame>, c: Code)
    requires forall f :: f in fs ==> StoresOnly(env.Fam(), f, c)
    ensures var v := SendFrames(env, w, fs).0;
            AgreeOff(v.regs, w.regs, c) && v.cache == w.cache
  {
    hide WriteOf;
    if fs != [] {
      SendingTouchesOneCode(env, w, fs[..|fs| - 1], c);
      assert StoresOnly(env.Fam(), fs[|fs| - 1], c);
    }
  }

  /** On a working link a point disturbs at most its own register, and whatever it sends ends in
      a full read: afterwards the cache shows what the inverter holds. */
  lemma HealthyStep(env: Env, rb: map<Code, real>, w: World, p: Point)
    requires Healthy(env)
    ensures var (v, r) := PointStep(env, rb, w, p);
            && !r.result.ContextCancelled?
            && AgreeOff(v.regs, w.regs, p.code)
            && (v == w || v.cache == w.cache + ReadAll(env.Fam(), v.regs))
  {
    hide GridProfile.EncodeEffectivePoint, WithinTolerance, SendFrames, TriggerRead, StoresOnly, ReadAll;
    FramesStoreOwnCode(env.model, p);
    var e := GridProfile.EncodeEffectivePoint(env.model, p);
    if e.Encoded? {
      SendingTouchesOneCode(env, w, e.frames, p.code);
      AllAccepted(env, w, e.frames);
      var w1 := SendFrames(env, w, e.frames).0;
      FullRead(env, w1.(waits := w1.waits + 1));
      ReadKeepsRegisters(env, w1.(waits := w1.waits + 1));
    }
  }

  /** From a settled world the cache, too, changes at most at the point's own code. */
  lemma SettledStep(env: Env, rb: map<Code, real>, w: World, p: Point)
    requires Healthy(env) && Settled(env.Fam(), w)
    ensures var v := PointStep(env, rb, w, p).0;
            Settled(env.Fam(), v) && AgreeOff(v.cache, w.cache, p.code)
  {
    hide PointStep, RegisterValue;
    HealthyStep(env, rb, w, p);
    var v := PointStep(env, rb, w, p).0;
    var was, now := ReadAll(env.Fam(), w.regs), ReadAll(env.Fam(), v.regs);
    assert AgreeOff(now, was, p.code);
    if v != w {
      forall d | d != p.code ensures (d in v.cache <==> d in w.cache) && (d in v.cache ==> v.cache[d] == w.cache[d]) {
        if d in was { assert (w.cache + was)[d] == was[d]; }
      }
    }
  }

  // ------------------------------------------------------------ what "applied" is worth, whatever happens

  lemma {:induction false} SendingOnlySends(env: Env, w: World, fs: seq<Frame>)
    ensures var v := SendFrames(env, w, fs).0; v.waits == w.waits && v.asked == w.asked && v.cache == w.cache
  {
    hide Store;
    if fs != [] { SendingOnlySends(env, w, fs[..|fs| - 1]); }
  }

  /** In every environment a point disturbs at most its own register, and its read, if it gets that
      far, merges what arrives of the registers as they are then. */
  lemma AnyStep(env: Env, rb: map<Code, real>, w: World, p: Point)
    ensures var v := PointStep(env, rb, w, p).0;
            && AgreeOff(v.regs, w.regs, p.code)
            && ((v.asked == w.asked && v.cache == w.cache)
                || (v.asked == w.asked + 1
                    && v.cache == w.cache + Arriving(env.Fam(), v.regs, env.pages(w.asked))))
  {
    hide GridProfile.EncodeEffectivePoint, WithinTolerance, SendFrames, StoresOnly, Arriving;
    FramesStoreOwnCode(env.model, p);
    var e := GridProfile.EncodeEffectivePoint(env.model, p);
    if e.Encoded? {
      SendingTouchesOneCode(env, w, e.frames, p.code);
      SendingOnlySends(env, w, e.frames);
    }
  }

  /** Where a point encodes to one register write, that write is stored or lost. */
  lemma WriteIsStoredOrLost(env: Env, rb: map<Code, real>, w: World, p: Point, wire: int)
    requires WritesRegister(env.model, p, wire)
    ensures var v := PointStep(env, rb, w, p).0; v.regs == w.regs || v.regs == w.regs[p.code := wire]
  {
    hide GridProfile.EncodeEffectivePoint, WithinTolerance, WriteOf, Arriving;
    var fs := GridProfile.EncodeEffectivePoint(env.model, p).frames;
    assert fs[..0] == [] && fs == [fs[0]];
    assert SendFrames(env, w, fs) == SendFrame(env, w, fs[0]);
  }

  /** Each result of a pass is that of its point's step. */
  lemma {:induction false} ResultOfStep(env: Env, rb: map<Code, real>, w: World, points: seq<Point>, i: nat)
    requires i < |RunPass(env, rb, w, points).report|
    ensures i < |points| && !RunPass(env, rb, w, points[..i]).cancelled
    ensures var before := RunPass(env, rb, w, points[..i]).world;
            && RunPass(env, rb, w, points).report[i] == PointStep(env, rb, before, points[i]).1
            && RunPass(env, rb, w, points[..i + 1]).world == PointStep(env, rb, before, points[i]).0
  {
    hide PointStep;
    var n := |points| - 1;
    OneResultPerPoint(env, rb, w, points[..n]);
    if i < |RunPass(env, rb, w, points[..n]).report| {
      ResultOfStep(env, rb, w, points[..n], i);
      assert points[..n][..i] == points[..i] && points[..n][..i + 1] == points[..i + 1];
    } else {
      assert i == n && points[..i + 1] == points;
    }
  }

  // which result, and why

  /** Every one of the next `n` frames is accepted. */
  ghost predicate TakesAll(env: Env, w: World, n: nat) {
    forall k: nat :: w.sends <= k < w.sends + n ==> env.accepts(k)
  }

  /** Exactly the frames before the first refused one go out. */
  lemma {:induction false} SendsUntilRefused(env: Env, w: World, fs: seq<Frame>)
    ensures var (v, ok) := SendFrames(env, w, fs);
            && (ok <==> TakesAll(env, w, |fs|))
            && (ok ==> v.sends == w.sends + |fs| && v.sent == w.sent + fs)
            && (!ok ==> exists n: nat :: n < |fs| && TakesAll(env, w, n) && !env.accepts(w.sends + n)
                                         && v.sent == w.sent + fs[..n])
  {
    hide Store;
    if fs != [] {
      var m := |fs| - 1;
      SendsUntilRefused(env, w, fs[..m]);
      var (v, ok) := SendFrames(env, w, fs[..m]);
      if ok {
        assert w.sent + fs[..m] + [fs[m]] == w.sent + fs;
        assert TakesAll(env, w, |fs|) <==> env.accepts(w.sends + m);
      } else {
        var n: nat :| n < m && TakesAll(env, w, n) && !env.accepts(w.sends + n) && v.sent == w.sent + fs[..m][..n];
        assert fs[..m][..n] == fs[..n];
      }
    }
  }

  /** Why a point got its result, in terms of what the surroundings did: `w` is the world before the
      point, `v` the one after it. */
  ghost predicate Explained(env: Env, rb: map<Code, real>, w: World, v: World, p: Point, r: PointResult) {
    var e := GridProfile.EncodeEffectivePoint(env.model, p);
    var tried := Resends(env, rb, p) && e.Encoded?;
    var sent := tried && TakesAll(env, w, |e.frames|);
    var stopped := env.cancelled(w.waits) || env.cancelled(w.waits + 1);
    && Classified(env, rb, p, r)
    && (r.result.EncodeError? <==> Resends(env, rb, p) && !e.Encoded?)
    && (r.result.EncodeError? ==> r.result.why == e)
    && (r.result.SendError? <==> tried && !sent)
    && (r.result.ContextCancelled? <==> sent && stopped)
    && (r.result.Applied? || r.result.Unconfirmed? <==> sent && !stopped)
    && (r.result.Applied? <==>
          sent && !stopped && p.code in v.cache && WithinTolerance(p.code, p.value, v.cache[p.code]))
    && r.readback == (if sent && !stopped && p.code in v.cache then v.cache[p.code]
                      else if p.code in rb then rb[p.code] else 0.0)
  }

  /** And what it did: nothing at all unless the point was encoded and tried; then the frames up to
      the first refused one went out, and one read was triggered exactly when all of them did and
      the first wait was not cut short. */
  ghost predicate Effect(env: Env, rb: map<Code, real>, w: World, v: World, p: Point) {
    var e := GridProfile.EncodeEffectivePoint(env.model, p);
    if !Resends(env, rb, p) || !e.Encoded? then v == w
    else if TakesAll(env, w, |e.frames|) then
      v.sent == w.sent + e.frames && v.asked == w.asked + if env.cancelled(w.waits) then 0 else 1
    else
      && v.asked == w.asked && v.waits == w.waits && v.cache == w.cache
      && exists n: nat :: n < |e.frames| && TakesAll(env, w, n) && !env.accepts(w.sends + n)
                          && v.sent == w.sent + e.frames[..n]
  }

  lemma StepIsExplained(env: Env, rb: map<Code, real>, w: World, p: Point)
    ensures var (v, r) := PointStep(env, rb, w, p);
            Explained(env, rb, w, v, p, r) && Effect(env, rb, w, v, p)
  {
    hide GridProfile.EncodeEffectivePoint, WithinTolerance, SendFrames, Arriving, TakesAll;
    StepIsClassified(env, rb, w, p);
    var e := GridProfile.EncodeEffectivePoint(env.model, p);
    if e.Encoded? {
      SendsUntilRefused(env, w, e.frames);
      SendingOnlySends(env, w, e.frames);
    }
  }

  /** In every environment each result of a pass is the one the surroundings dictate: encode_error
      exactly for points that do not encode, send_error exactly when a frame was refused,
      context_cancelled exactly when a wait was cut short, applied exactly when the read-back after
      the waits is within tolerance. */
  lemma ResultsAreExplained(env: Env, rb: map<Code, real>, w: World, points: seq<Point>, i: nat)
    requires i < |RunPass(env, rb, w, points).report|
    ensures i < |points|
    ensures var before, after := RunPass(env, rb, w, points[..i]).world, RunPass(env, rb, w, points[..i + 1]).world;
            && Explained(env, rb, before, after, points[i], RunPass(env, rb, w, points).report[i])
            && Effect(env, rb, before, after, points[i])
  {
    hide PointStep, Explained, Effect, RunPass;
    ResultOfStep(env, rb, w, points, i);
    StepIsExplained(env, rb, RunPass(env, rb, w, points[..i]).world, points[i]);
  }

  /** So only a context that is done stops a pass: without one every point gets its result, whatever
      is refused or lost. */
  lemma {:induction false} UncancelledPassCompletes(env: Env, rb: map<Code, real>, w: World, points: seq<Point>)
    requires forall n: nat :: !env.cancelled(n)
    ensures !RunPass(env, rb, w, points).cancelled && |RunPass(env, rb, w, points).report| == |points|
  {
    hide PointStep, Classified, Effect;
    if points != [] {
      var n := |points| - 1;
      UncancelledPassCompletes(env, rb, w, points[..n]);
      StepIsExplained(env, rb, RunPass(env, rb, w, points[..n]).world, points[n]);
    }
  }

  /** The read that point `j` of the pass triggered showed the value at the code: the inverter's
      register, as it was then, reads back as it. */
  ghost predicate ReadShowed(env: Env, rb: map<Code, real>, w: World, points: seq<Point>, j: nat, c: Code, v: real)
    requires j < |points|
  {
    var before, after := RunPass(env, rb, w, points[..j]).world, RunPass(env, rb, w, points[..j + 1]).world;
    var page := Arriving(env.Fam(), after.regs, env.pages(before.asked));
    after.asked == before.asked + 1 && c in page && page[c] == v
  }

  /** What the cache shows in the middle of a pass is what it showed at the start, or what one of
      the reads of this pass has shown. */
  lemma {:induction false} CacheIsKeptOrRead(env: Env, rb: map<Code, real>, w: World, points: seq<Point>,
                                             n: nat, c: Code)
    requires n <= |points| && var cache := RunPass(env, rb, w, points[..n]).world.cache;
                              c in cache && !(c in w.cache && cache[c] == w.cache[c])
    ensures exists j :: 0 <= j < n
                        && ReadShowed(env, rb, w, points, j, c, RunPass(env, rb, w, points[..n]).world.cache[c])
  {
    hide PointStep, Arriving;
    if n > 0 {
      assert points[..n][..n - 1] == points[..n - 1] && points[..n][n - 1] == points[n - 1];
      var before := RunPass(env, rb, w, points[..n - 1]);
      var cache := RunPass(env, rb, w, points[..n]).world.cache;
      AnyStep(env, rb, before.world, points[n - 1]);
      if c in before.world.cache && before.world.cache[c] == cache[c] {
        CacheIsKeptOrRead(env, rb, w, points, n - 1, c);
      } else {
        assert ReadShowed(env, rb, w, points, n - 1, c, cache[c]);
      }
    }
  }

  /** In every environment, whatever is refused, lost or late: a point is reported applied only if it
      was drifted and a read of this very pass, its own or an earlier point's, has shown the value
      reported, within tolerance. A value left over from before the pass never confirms a point. */
  lemma AppliedWasRead(env: Env, w: World, points: seq<Point>, i: nat)
    requires var report := RunPass(env, w.cache, w, points).report; i < |report| && report[i].result.Applied?
    ensures i < |points|
    ensures var r := RunPass(env, w.cache, w, points).report[i];
            && Resends(env, w.cache, points[i]) && WithinTolerance(points[i].code, points[i].value, r.readback)
            && exists j :: 0 <= j <= i && ReadShowed(env, w.cache, w, points, j, points[i].code, r.readback)
  {
    hide RunPass, ReadShowed, GridProfile.EncodeEffectivePoint, WithinTolerance, SendFrames, TriggerRead;
    ResultOfStep(env, w.cache, w, points, i);
    CacheIsKeptOrRead(env, w.cache, w, points, i + 1, points[i].code);
  }

  /** The register reads back within the point's tolerance. */
  predicate InTolerance(fam: Family, regs: Registers, p: Point) {
    && p.code in regs && RegisterValue(fam, p.code, regs[p.code]).Some?
    && WithinTolerance(p.code, p.value, RegisterValue(fam, p.code, regs[p.code]).value)
  }

  /** From any of its reads on, the rest of the pass leaves such a register within tolerance. */
  lemma {:induction false} StaysInTolerance(env: Env, rb: map<Code, real>, w: World, points: seq<Point>, i: nat,
                                            m: nat, n: nat, wire: int)
    requires Distinct(points) && i < |points| && m <= n <= |points|
    requires WritesRegister(env.model, points[i], wire)
    requires InTolerance(env.Fam(), map[points[i].code := wire], points[i])
    requires InTolerance(env.Fam(), RunPass(env, rb, w, points[..m]).world.regs, points[i])
    ensures InTolerance(env.Fam(), RunPass(env, rb, w, points[..n]).world.regs, points[i])
  {
    hide PointStep, RegisterValue, WithinTolerance, WritesRegister;
    if m < n {
      StaysInTolerance(env, rb, w, points, i, m, n - 1, wire);
      assert points[..n][..n - 1] == points[..n - 1] && points[..n][n - 1] == points[n - 1];
      var before := RunPass(env, rb, w, points[..n - 1]).world;
      AnyStep(env, rb, before, points[n - 1]);
      if n - 1 == i { WriteIsStoredOrLost(env, rb, before, points[i], wire); }
    }
  }

  lemma ShownIsInTolerance(env: Env, rb: map<Code, real>, w: World, points: seq<Point>, j: nat, p: Point, v: real)
    requires j < |points| && ReadShowed(env, rb, w, points, j, p.code, v) && WithinTolerance(p.code, p.value, v)
    ensures InTolerance(env.Fam(), RunPass(env, rb, w, points[..j + 1]).world.regs, p)
  {
    hide RunPass, RegisterValue, WithinTolerance, PageOf;
  }

  lemma CoveredIsInTolerance(env: Env, p: Point)
    requires CoveredPoint(env, p)
    ensures InTolerance(env.Fam(), map[p.code := WireOf(env.Fam(), p.code, p.value)], p)
  {
    hide Covered, Ready, WithinTolerance, RegisterValue, WireOf, ReadBack;
    CoveredReadsBack(env.Fam(), p.code, p.value);
  }

  /** And then it is true: in every environment a covered point that is reported applied is held by
      the inverter within tolerance when the pass ends. */
  lemma AppliedIsHeld(env: Env, w: World, points: seq<Point>, i: nat)
    requires Distinct(points) && i < |points| && CoveredPoint(env, points[i])
    requires var report := RunPass(env, w.cache, w, points).report; i < |report| && report[i].result.Applied?
    ensures InTolerance(env.Fam(), RunPass(env, w.cache, w, points).world.regs, points[i])
  {
    var p, pass := points[i], RunPass(env, w.cache, w, points);
    hide RunPass, Covered, Ready, WithinTolerance, WritesRegister, WireOf, InTolerance, ReadShowed;
    AppliedWasRead(env, w, points, i);
    var j :| 0 <= j <= i && ReadShowed(env, w.cache, w, points, j, p.code, pass.report[i].readback);
    ShownIsInTolerance(env, w.cache, w, points, j, p, pass.report[i].readback);
    CoveredEncodes(env.model, p);
    CoveredIsInTolerance(env, p);
    StaysInTolerance(env, w.cache, w, points, i, j + 1, |points|, WireOf(env.Fam(), p.code, p.value));
    assert points[..|points|] == points;
  }

  // ------------------------------------------------------------ convergence

  /** The point is ready and within the quantisation bounds. */
  predicate CoveredPoint(env: Env, p: Point) { Ready(p) && Covered(env.Fam(), p.code, p.value) }

  lemma CoveredStep(env: Env, rb: map<Code, real>, w: World, p: Point)
    requires Healthy(env) && Resends(env, rb, p) && CoveredPoint(env, p)
    ensures var (v, r) := PointStep(env, rb, w, p);
            r.result == Applied && !Resends(env, v.cache, p)
  {
    hide Covered, WithinTolerance, WireOf, ReadBack, Reassert, WritesRegister, RegisterValue, Ready;
    var fam, c, x := env.Fam(), p.code, p.value;
    HasReadField(fam, c, x);
    CoveredEncodes(env.model, p);
    CoveredReadsBack(fam, c, x);
    ReassertWrites(env, w, p, rb[c], WireOf(fam, c, x), ReadBack(fam, c, x));
    assert c in ReadAll(fam, w.regs[c := WireOf(fam, c, x)]);
  }

  /** On a working link every covered point that is drifted is applied, whatever the other points
      are, and no point is applied that was not drifted. */
  lemma {:induction false} DriftedPointsAreApplied(env: Env, rb: map<Code, real>, w: World, points: seq<Point>)
    requires Healthy(env)
    ensures var pass := RunPass(env, rb, w, points);
            && !pass.cancelled && |pass.report| == |points|
            && (forall i :: 0 <= i < |points| && CoveredPoint(env, points[i]) && Resends(env, rb, points[i]) ==>
                  pass.report[i].result.Applied?)
            && (forall i :: 0 <= i < |points| && pass.report[i].result.Applied? ==> Resends(env, rb, points[i]))
  {
    hide PointStep, Resends, CoveredPoint;
    if points != [] {
      var n := |points| - 1;
      assert forall i :: 0 <= i < n ==> points[..n][i] == points[i];
      DriftedPointsAreApplied(env, rb, w, points[..n]);
      var before := RunPass(env, rb, w, points[..n]).world;
      HealthyStep(env, rb, before, points[n]);
      if !Resends(env, rb, points[n]) {
        NotApplied(env, rb, before, points[n]);
      } else if CoveredPoint(env, points[n]) {
        CoveredStep(env, rb, before, points[n]);
      }
    }
  }

  lemma NotApplied(env: Env, rb: map<Code, real>, w: World, p: Point)
    requires !Resends(env, rb, p)
    ensures !PointStep(env, rb, w, p).1.result.Applied?
  {
    hide Reassert, WithinTolerance;
  }

  /** On a working link a pass over any points either sends nothing and changes nothing, or leaves
      the cache showing what the inverter holds. */
  lemma {:induction false} PassSettles(env: Env, rb: map<Code, real>, w: World, points: seq<Point>)
    requires Healthy(env)
    ensures var v := RunPass(env, rb, w, points).world;
            (v == w || Settled(env.Fam(), v)) && (Settled(env.Fam(), w) ==> Settled(env.Fam(), v))
  {
    hide PointStep, ReadAll;
    if points != [] {
      var n := |points| - 1;
      PassSettles(env, rb, w, points[..n]);
      DriftedPointsAreApplied(env, rb, w, points[..n]);
      HealthyStep(env, rb, RunPass(env, rb, w, points[..n]).world, points[n]);
    }
  }

  /** A point a settled pass leaves alone: already in order, or covered. */
  predicate Settles(env: Env, rb: map<Code, real>, p: Point) { !Resends(env, rb, p) || CoveredPoint(env, p) }

  /** After a pass from a settled world no point of the list that was in order or is covered is
      drifted, whatever the other points are; codes outside the list are as they were. */
  lemma {:induction false} PassFixesCovered(env: Env, rb: map<Code, real>, w: World, points: seq<Point>)
    requires Healthy(env) && Settled(env.Fam(), w) && rb == w.cache && Distinct(points)
    ensures var v := RunPass(env, rb, w, points).world;
            && Settled(env.Fam(), v)
            && (forall i :: 0 <= i < |points| && Settles(env, rb, points[i]) ==> !Resends(env, v.cache, points[i]))
            && (forall c :: (forall p :: p in points ==> p.code != c) ==>
                  (c in v.cache <==> c in rb) && (c in v.cache ==> v.cache[c] == rb[c]))
  {
    hide PointStep, ReadAll, CoveredPoint, Settled, WithinTolerance;
    if points != [] {
      var n := |points| - 1;
      var p, prefix := points[n], points[..n];
      assert forall i :: 0 <= i < n ==> prefix[i] == points[i];
      PassFixesCovered(env, rb, w, prefix);
      DriftedPointsAreApplied(env, rb, w, prefix);
      var before := RunPass(env, rb, w, prefix).world;
      SettledStep(env, rb, before, p);
      if !Resends(env, rb, p) {
        QuietStep(env, rb, before, p);
      } else if CoveredPoint(env, p) {
        CoveredStep(env, rb, before, p);
      }
      assert forall q :: q in prefix ==> q.code != p.code;
      assert p in points;
      assert forall q :: q in prefix ==> q in points;
    }
  }

  /** The world after `k` passes, each over its own listing of the points. */
  function Passes(env: Env, w: World, orders: nat -> seq<Point>, k: nat): World {
    if k == 0 then w else After(env, Passes(env, w, orders, k - 1), orders(k - 1))
  }

  /** The point sends nothing: it is in order, or no frame encodes it. */
  predicate Idle(env: Env, rb: map<Code, real>, p: Point) {
    Resends(env, rb, p) ==> !GridProfile.EncodeEffectivePoint(env.model, p).Encoded?
  }

  lemma IdleStep(env: Env, rb: map<Code, real>, w: World, p: Point)
    requires Healthy(env)
    ensures var v := PointStep(env, rb, w, p).0;
            (Idle(env, rb, p) ==> v == w) && (!Idle(env, rb, p) ==> v.waits > w.waits)
  {
    hide GridProfile.EncodeEffectivePoint, WithinTolerance, SendFrames, Arriving;
    var e := GridProfile.EncodeEffectivePoint(env.model, p);
    if e.Encoded? {
      AllAccepted(env, w, e.frames);
      SendingOnlySends(env, w, e.frames);
    }
  }

  /** A pass changes nothing exactly when none of its points sends anything, in whatever order. */
  lemma {:induction false} PassIdleIff(env: Env, rb: map<Code, real>, w: World, points: seq<Point>)
    requires Healthy(env)
    ensures RunPass(env, rb, w, points).world == w <==> forall p :: p in points ==> Idle(env, rb, p)
    ensures RunPass(env, rb, w, points).world.waits >= w.waits
    ensures (exists p :: p in points && !Idle(env, rb, p)) ==> RunPass(env, rb, w, points).world.waits > w.waits
  {
    hide PointStep, Idle;
    if points != [] {
      var n := |points| - 1;
      PassIdleIff(env, rb, w, points[..n]);
      DriftedPointsAreApplied(env, rb, w, points[..n]);
      IdleStep(env, rb, RunPass(env, rb, w, points[..n]).world, points[n]);
      assert forall p :: p in points <==> p in points[..n] || p == points[n];
    }
  }

  /** After some passes the world is settled, or no pass has sent anything. */
  lemma {:induction false} SettledOrStuck(env: Env, w: World, orders: nat -> seq<Point>, k: nat)
    requires Healthy(env) && Listings(orders)
    ensures var v := Passes(env, w, orders, k);
            || Settled(env.Fam(), v)
            || (v == w && (k > 0 ==> forall p :: p in orders(0) ==> Idle(env, w.cache, p)))
  {
    hide RunPass, Settled, Idle;
    if k > 0 {
      var was := Passes(env, w, orders, k - 1);
      SettledOrStuck(env, w, orders, k - 1);
      PassSettles(env, was.cache, was, orders(k - 1));
      PassIdleIff(env, was.cache, was, orders(k - 1));
    }
  }

  /** The loop converges. On a working link, from the first pass on when the cache was up to date
      and from the second on whatever it was, no covered point is drifted any more, for ever, in
      whatever order each pass lists the points and whatever the other points are. */
  lemma CoveredPointsStayQuiet(env: Env, w: World, orders: nat -> seq<Point>, k: nat, p: Point)
    requires Healthy(env) && Listings(orders) && p in orders(0) && CoveredPoint(env, p)
    requires k >= (if Settled(env.Fam(), w) then 1 else 2)
    ensures !Resends(env, Passes(env, w, orders, k).cache, p)
  {
    hide CoveredPoint, Resends, Settled, RunPass, Idle;
    var was, points := Passes(env, w, orders, k - 1), orders(k - 1);
    assert p in points;
    SettledOrStuck(env, w, orders, k - 1);
    if Settled(env.Fam(), was) {
      PassFixesCovered(env, was.cache, was, points);
      var i :| 0 <= i < |points| && points[i] == p;
    } else {
      // nothing was sent so far and nothing will be, so no covered point was drifted
      PassIdleIff(env, was.cache, was, points);
      IdleCovered(env, was.cache, p);
    }
  }

  lemma IdleCovered(env: Env, rb: map<Code, real>, p: Point)
    requires CoveredPoint(env, p) && Idle(env, rb, p)
    ensures !Resends(env, rb, p)
  {
    hide Resends, Covered, Ready, GridProfile.EncodeEffectivePoint, WriteOf;
    CoveredEncodes(env.model, p);
  }

  /** The points the quantisation bounds say nothing about. */
  function Uncovered(env: Env, points: seq<Point>): seq<Point> {
    if points == [] then []
    else
      var p := points[|points| - 1];
      Uncovered(env, points[..|points| - 1]) + if CoveredPoint(env, p) then [] else [p]
  }

  /** From then on a pass sends exactly what it would send for the uncovered points alone. */
  lemma LaterPassesSendOnlyUncovered(env: Env, w: World, orders: nat -> seq<Point>, k: nat)
    requires Healthy(env) && Listings(orders)
    requires k >= (if Settled(env.Fam(), w) then 1 else 2)
    ensures var was := Passes(env, w, orders, k);
            After(env, was, orders(k)).sent == was.sent + FramesFor(env, was.cache, Uncovered(env, orders(k)))
  {
    hide CoveredPoint, Resends, Settled, RunPass, Passes, FramesFor, Uncovered;
    var was, points := Passes(env, w, orders, k), orders(k);
    SendsExactlyTheDrifted(env, was.cache, was, points);
    forall i | 0 <= i < |points| && CoveredPoint(env, points[i]) ensures !Resends(env, was.cache, points[i]) {
      assert points[i] in points;
      CoveredPointsStayQuiet(env, w, orders, k, points[i]);
    }
    OnlyUncoveredFrames(env, was.cache, points);
  }

  lemma FramesForOneMore(env: Env, rb: map<Code, real>, points: seq<Point>, p: Point)
    ensures FramesFor(env, rb, points + [p]) == FramesFor(env, rb, points) + FramesOf(env, rb, p)
  {
    hide FramesOf;
    assert (points + [p])[..|points|] == points;
  }

  lemma UncoveredOneMore(env: Env, points: seq<Point>, p: Point)
    ensures Uncovered(env, points + [p]) ==
              if CoveredPoint(env, p) then Uncovered(env, points) else Uncovered(env, points) + [p]
  {
    hide CoveredPoint;
    assert (points + [p])[..|points|] == points;
  }

  lemma {:induction false} OnlyUncoveredFrames(env: Env, rb: map<Code, real>, points: seq<Point>)
    requires forall i :: 0 <= i < |points| && CoveredPoint(env, points[i]) ==> !Resends(env, rb, points[i])
    ensures FramesFor(env, rb, points) == FramesFor(env, rb, Uncovered(env, points))
  {
    hide CoveredPoint, Resends, GridProfile.EncodeEffectivePoint;
    if points != [] {
      var n := |points| - 1;
      var before, p := points[..n], points[n];
      assert forall i :: 0 <= i < n ==> before[i] == points[i];
      OnlyUncoveredFrames(env, rb, before);
      assert points == before + [p];
      hide FramesFor, Uncovered;
      FramesForOneMore(env, rb, before, p);
      UncoveredOneMore(env, before, p);
      if !CoveredPoint(env, p) { FramesForOneMore(env, rb, Uncovered(env, before), p); }
    }
  }

  /** When every drifted point is covered, every pass after the first from a settled world sends no
      frame and changes nothing at all. */
  lemma {:induction false} SecondPassIsSilent(env: Env, w: World, orders: nat -> seq<Point>, k: nat)
    requires Healthy(env) && Listings(orders) && Settled(env.Fam(), w) && k >= 1
    requires forall p :: p in orders(0) ==> Settles(env, w.cache, p)
    ensures Passes(env, w, orders, k) == After(env, w, orders(0))
    ensures forall p :: p in orders(0) ==> !Resends(env, Passes(env, w, orders, k).cache, p)
  {
    hide Settles, Resends, Settled, RunPass;
    if k == 1 {
      assert Passes(env, w, orders, 0) == w;
      var points, w1 := orders(0), After(env, w, orders(0));
      PassFixesCovered(env, w.cache, w, points);
      forall p | p in points ensures !Resends(env, w1.cache, p) {
        var i :| 0 <= i < |points| && points[i] == p;
      }
    } else {
      SecondPassIsSilent(env, w, orders, k - 1);
      var was := Passes(env, w, orders, k - 1);
      QuietPass(env, was.cache, was, orders(k - 1));
    }
  }

  /** When every point is covered, every pass after the second is silent however stale the cache was. */
  lemma {:induction false} ConvergesFromAnywhere(env: Env, w: World, orders: nat -> seq<Point>, k: nat)
    requires Healthy(env) && Listings(orders) && k >= 2
    requires forall p :: p in orders(0) ==> CoveredPoint(env, p)
    ensures Passes(env, w, orders, k) == Passes(env, w, orders, 2)
  {
    hide CoveredPoint, Resends, Settled, RunPass;
    if k > 2 {
      ConvergesFromAnywhere(env, w, orders, k - 1);
      var was, points := Passes(env, w, orders, k - 1), orders(k - 1);
      forall p | p in points ensures !Resends(env, was.cache, p) {
        CoveredPointsStayQuiet(env, w, orders, k - 1, p);
      }
      QuietPass(env, was.cache, was, points);
    }
  }

  // ------------------------------------------------------------ exactly which points go quiet

  /** The inverter holds the point's wire number and the cache shows what it reads back as. */
  predicate Held(w: World, c: Code, wire: int, back: real) {
    c in w.regs && w.regs[c] == wire && c in w.cache && w.cache[c] == back
  }

  lemma HeldStep(env: Env, rb: map<Code, real>, w: World, q: Point, p: Point, wire: int, back: real)
    requires Healthy(env) && RegisterValue(env.Fam(), p.code, wire) == Some(back)
    requires Held(w, p.code, wire, back) && (q.code == p.code ==> q == p && WritesRegister(env.model, p, wire))
    ensures Held(PointStep(env, rb, w, q).0, p.code, wire, back)
  {
    hide RegisterValue, WritesRegister, WithinTolerance, Reassert;
    if q.code != p.code {
      HealthyStep(env, rb, w, q);
      var v := PointStep(env, rb, w, q).0;
      assert v.regs[p.code] == wire;
      assert p.code in ReadAll(env.Fam(), v.regs);
    } else if Resends(env, rb, p) {
      HoldingStep(env, rb, w, p, wire, back);
    }
  }

  lemma HoldingStep(env: Env, rb: map<Code, real>, w: World, p: Point, wire: int, back: real)
    requires Healthy(env) && RegisterValue(env.Fam(), p.code, wire) == Some(back)
    requires WritesRegister(env.model, p, wire) && Resends(env, rb, p)
    ensures var (v, r) := PointStep(env, rb, w, p);
            Held(v, p.code, wire, back) && r == ReportOf(p, back)
  {
    hide RegisterValue, WritesRegister, WithinTolerance, Reassert;
    ReassertWrites(env, w, p, rb[p.code], wire, back);
    assert p.code in ReadAll(env.Fam(), w.regs[p.code := wire]);
  }

  /** A pass that re-sends the point, or starts with it held, ends with it held. */
  lemma {:induction false} PassHolds(env: Env, rb: map<Code, real>, w: World, points: seq<Point>, i: nat,
                                     n: nat, wire: int, back: real)
    requires Healthy(env) && Distinct(points) && i < |points| && n <= |points|
    requires WritesRegister(env.model, points[i], wire)
    requires RegisterValue(env.Fam(), points[i].code, wire) == Some(back)
    requires Resends(env, rb, points[i]) || Held(w, points[i].code, wire, back)
    ensures var v := RunPass(env, rb, w, points[..n]).world;
            n > i || Held(w, points[i].code, wire, back) ==> Held(v, points[i].code, wire, back)
    decreases n
  {
    hide PointStep, Resends, Held, RegisterValue, WritesRegister;
    if n > 0 {
      assert points[..n][..n - 1] == points[..n - 1];
      PassHolds(env, rb, w, points, i, n - 1, wire, back);
      DriftedPointsAreApplied(env, rb, w, points[..n - 1]);
      var before := RunPass(env, rb, w, points[..n - 1]).world;
      if n - 1 == i && Resends(env, rb, points[i]) {
        HoldingStep(env, rb, before, points[i], wire, back);
      } else if n - 1 > i || Held(w, points[i].code, wire, back) {
        HeldStep(env, rb, before, points[n - 1], points[i], wire, back);
      }
    }
  }

  /** What becomes of a drifted point that encodes to a register with a plausible read-back, at
      any place in any profile, however each pass lists it: the first pass stores it, and every later
      pass finds it held, and finds it drifted again exactly when its read-back is out of tolerance. */
  lemma {:induction false} QuietIffReadBackInTolerance(env: Env, w: World, orders: nat -> seq<Point>, p: Point,
                                                       k: nat, wire: int, back: real)
    requires Healthy(env) && Listings(orders) && p in orders(0) && k >= 1
    requires WritesRegister(env.model, p, wire)
    requires RegisterValue(env.Fam(), p.code, wire) == Some(back)
    requires Resends(env, w.cache, p)
    ensures var v := Passes(env, w, orders, k);
            && Held(v, p.code, wire, back)
            && (Resends(env, v.cache, p) <==> !WithinTolerance(p.code, p.value, back))
  {
    hide RunPass, RegisterValue, WritesRegister, WithinTolerance;
    var was, points := Passes(env, w, orders, k - 1), orders(k - 1);
    if k > 1 { QuietIffReadBackInTolerance(env, w, orders, p, k - 1, wire, back); }
    var i :| 0 <= i < |points| && points[i] == p;
    assert points[..|points|] == points;
    PassHolds(env, was.cache, was, points, i, |points|, wire, back);
  }

  // ------------------------------------------------------------ where it does not converge

  lemma AverageReadsBack(n: int)
    requires 100 <= n <= 600
    ensures RegisterValue(FamilyDS3, AB, Ds3Wire(AB, n as real)) == Some(ReadBack(FamilyDS3, AB, n as real))
    ensures 0 <= Ds3Wire(AB, n as real) <= 0xFFFF
  {
    hide KindOf, Ds3Wire, Scaled;
    AverageIsVolt();
    VoltRegisters(AB, n as real);
    Ds3VoltRegister(n as real, (n as real / DS3_GRID_V).Floor);
    Ds3AverageBound(n as real);
  }

  lemma AverageEncodes(model: byte, p: Point, n: int)
    requires FamilyOf(model) == FamilyDS3 && p.code == AB && p.value == n as real && 100 <= n <= 600 && Ready(p)
    ensures WritesRegister(model, p, Ds3Wire(AB, n as real))
  {
    AverageIsWriteable(model);
    hide Ds3Wire, WriteOf, GridProfile.Writeable, L2.Wire;
    AverageReadsBack(n);
    assert EncodeSetProtection(model, AB, n as real).Frames?;
    EncodedWriteArrives(model, AB, n as real);
  }

  lemma AverageIsWriteable(model: byte)
    requires FamilyOf(model) == FamilyDS3
    ensures GridProfile.Writeable(model, AB)
  {
    GridProfile.ProbeFindsKnown(model, AB);
  }

  /** The exception: once a DS3 ten-minute average over-voltage has been re-sent, wherever it
      stands in the profile, all later passes find it in order exactly when its whole-volt value
      is a multiple of 67. Any other value is re-sent by every one of them, although the inverter
      holds its register all along. */
  lemma Ds3AverageConvergesIff(env: Env, w: World, orders: nat -> seq<Point>, p: Point, k: nat, n: int)
    requires Healthy(env) && env.Fam() == FamilyDS3 && Listings(orders) && p in orders(0) && k >= 1
    requires p.code == AB && p.value == n as real && 100 <= n <= 600 && Ready(p)
    requires Resends(env, w.cache, p)
    ensures var v := Passes(env, w, orders, k);
            && AB in v.regs && v.regs[AB] == Ds3Wire(AB, n as real)
            && (Resends(env, v.cache, p) <==> n % 67 != 0)
  {
    hide WithinTolerance, ReadBack, Ds3Wire, WritesRegister, Ready, RegisterValue, Passes, Resends;
    AverageReadsBack(n);
    AverageEncodes(env.model, p, n);
    Ds3AverageConfirmsIff(n);
    QuietIffReadBackInTolerance(env, w, orders, p, k, Ds3Wire(AB, n as real), ReadBack(FamilyDS3, AB, n as real));
  }
}
