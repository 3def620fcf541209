/** The desired state of one inverter: base profile, sparse overlay, range intersection,
    conflict check, capability filter, and the encoder at the end of it. */
module GridProfile {
  import opened Wrappers
  import opened Iteration
  import opened Bytes
  import opened Codes
  import opened Protection

  /** A profile or overlay entry: its native value and declared range. */
  datatype Point = Point(value: real, range: Option<Range>)
  datatype Entry = Entry(code: Code, point: Point)
  datatype EffectivePoint = EffectivePoint(code: Code, value: real, range: Option<Range>)

  // ------------------------------------------------------------ capability

  predicate HardReject(fam: Family, c: Code) { fam == FamilyQS1 && (c == CA || c == DC || c == CG) }

  /** Capability, as the source decides it: table lookups, then a probe of the encoder with 50. */
  predicate Writeable(model: byte, c: Code) {
    && HasLongName(c)
    && (FamilyOf(model) == FamilyDS3 || FamilyOf(model) == FamilyQS1)
    && !HardReject(FamilyOf(model), c)
    && var probe := EncodeSetProtection(model, c, 50.0);
       !(probe.Failed? && (probe.error.UnsupportedParam? || probe.error.UnsupportedFamily?))
  }

  /** The family's encoder has a branch for the parameter. */
  predicate Known(fam: Family, c: Code) {
    match fam
    case FamilyDS3 => Ds3Sub(c).Some?
    case FamilyQS1 => Qs1Builder(c).Some? || c == CV
    case _ => false
  }

  lemma Ds3KnowsNames(c: Code)
    ensures Ds3Sub(c).Some? ==> HasLongName(c)
    ensures KindOf(c).Volt? ==> Ds3Sub(c).Some?
  {
  }

  lemma Qs1KnowsNames(c: Code)
    ensures Qs1Builder(c).Some? || c == CV ==> HasLongName(c)
    ensures KindOf(c).Volt? ==> Qs1Builder(c).Some?
  {
  }

  /** The encoder answers "unsupported" only for parameters it has no branch for, and for those
      it does whenever the value passes the envelope. */
  lemma UnsupportedIffUnknown(model: byte, c: Code, v: real)
    ensures var e := EncodeSetProtection(model, c, v);
            e.Failed? && (e.error.UnsupportedParam? || e.error.UnsupportedFamily?)
            <==> !Known(FamilyOf(model), c) && EnvelopeError(c, v).None?
  {
    hide Ds3Sub, Qs1Builder, Ds3Wire, Qs1Wire, KindOf, Envelope, Qs1Frame, Qs1ModeFrames, L2.Wire;
  }

  /** The probe value lies outside the voltage envelope, yet the probe's verdict is the
      encoder table's. */
  lemma ProbeFindsKnown(model: byte, c: Code)
    ensures Writeable(model, c) <==> Known(FamilyOf(model), c) && !HardReject(FamilyOf(model), c)
  {
    hide Ds3Sub, Qs1Builder, KindOf, FamilyOf, EncodeSetProtection;
    UnsupportedIffUnknown(model, c, 50.0);
    Ds3KnowsNames(c);
    Qs1KnowsNames(c);
  }

  /** The probe with one value speaks for all: a writable parameter is never "unsupported". */
  lemma WriteableIsSupported(model: byte, c: Code, v: real)
    requires Writeable(model, c)
    ensures var e := EncodeSetProtection(model, c, v);
            e.Failed? ==> !e.error.UnsupportedParam? && !e.error.UnsupportedFamily?
  {
    hide Known, HardReject, FamilyOf, EncodeSetProtection;
    ProbeFindsKnown(model, c);
    UnsupportedIffUnknown(model, c, v);
  }

  /** A parameter is writable exactly when the device does not reject it and some value of it
      can be encoded. */
  lemma WriteableIffEncodable(model: byte, c: Code)
    ensures Writeable(model, c) <==>
              !HardReject(FamilyOf(model), c) && exists v :: EncodeSetProtection(model, c, v).Frames?
  {
    hide HardReject, FamilyOf, Ds3Sub, Qs1Builder, KindOf, Ds3Wire, Qs1Wire, EncodeDS3, EncodeQS1, Writeable;
    ProbeFindsKnown(model, c);
    if Known(FamilyOf(model), c) {
      Ds3KnowsNames(c);
      Qs1KnowsNames(c);
      var v := Typical(c);
      TypicalWire(c);
      TypicalEncodes(FamilyOf(model), c);
      assert EncodeSetProtection(model, c, v).Frames?;
    }
    if v :| EncodeSetProtection(model, c, v).Frames? {
      EncodableIsKnown(model, c, v);
    }
  }

  lemma EncodableIsKnown(model: byte, c: Code, v: real)
    ensures EncodeSetProtection(model, c, v).Frames? ==> Known(FamilyOf(model), c)
  {
    hide Ds3Sub, Qs1Builder, Ds3Wire, Qs1Wire, KindOf, Envelope, Qs1Frame, Qs1ModeFrames, L2.Wire, FamilyOf;
  }

  /** The safety envelope in numbers: volts, hertz, seconds and slope; the mode has none. */
  predicate InEnvelope(c: Code, v: real) {
    match KindOf(c)
    case Volt => 100.0 <= v <= 600.0
    case Freq => 40.0 <= v <= 70.0
    case Time => 0.0 <= v <= 1000.0
    case Slope => 0.0 <= v <= 200.0
    case _ => true
  }

  /** The number that goes over the wire fits its field. */
  predicate FitsWire(fam: Family, c: Code, v: real)
    requires v > 0.0
  {
    if fam == FamilyDS3 then 0 <= Ds3Wire(c, v) <= 0xFFFF
    else if Qs1Builder(c).None? then 0 <= Trunc(v) <= 0xFF
    else 0 <= Qs1Wire(c, v) <= if Qs1Builder(c).value.width == 3 then 0xFFFFFF else 0xFFFF
  }

  /** A value is encoded exactly when it is positive, inside the envelope, the family has a branch for
      the parameter, and its wire number fits. */
  lemma EncodesIff(model: byte, c: Code, v: real)
    ensures EncodeSetProtection(model, c, v).Frames? <==>
              v > 0.0 && InEnvelope(c, v) && Known(FamilyOf(model), c) && FitsWire(FamilyOf(model), c, v)
  {
    hide Ds3Sub, Qs1Builder, Ds3Wire, Qs1Wire, KindOf, Qs1Frame, Qs1ModeFrames, L2.Wire, FamilyOf;
    hide EnvelopeError, InEnvelope;
    EnvelopeIff(c, v);
  }

  lemma EnvelopeIff(c: Code, v: real)
    ensures EnvelopeError(c, v).None? <==> v > 0.0 && InEnvelope(c, v)
  {
    hide KindOf;
  }

  /** The range an overlay value without one is held to: that of its physical quantity. */
  lemma DefaultRangeByQuantity(c: Code)
    ensures DefaultRange(c) ==
              if KindOf(c).Volt? || c == BN || c == BO then Some(Range(100.0, 600.0))
              else if KindOf(c).Freq? || c == DC then Some(Range(40.0, 70.0))
              else if KindOf(c).Time? || c == AS then Some(Range(0.0, 1000.0))
              else if KindOf(c).Slope? then Some(Range(0.0, 200.0))
              else None
  {
    UnnamedCodes();
    hide KindOf;
  }

  lemma UnnamedCodes()
    ensures KindOf(BN).NotWritable? && KindOf(BO).NotWritable? && KindOf(DC).NotWritable? && KindOf(AS).NotWritable?
  {
  }

  /** A value every family can put on the wire. */
  function Typical(c: Code): (v: real)
    ensures v > 0.0 && EnvelopeError(c, v).None?
  {
    match KindOf(c) case Volt => 230.0 case Freq => 50.0 case Time => 1.0 case _ => 10.0
  }

  lemma TypicalWire(c: Code)
    ensures HasLongName(c) ==> 0 <= Ds3Wire(c, Typical(c)) <= 0xFFFF
    ensures HasLongName(c) && !KindOf(c).Slope? ==>
              0 <= Qs1Wire(c, Typical(c)) <= if KindOf(c).Freq? || c == AB then 0xFFFFFF else 0xFFFF
  {
    hide KindOf;
    match KindOf(c)
    case Volt =>
      assert Ds3Wire(c, 230.0) == 858;
      assert Qs1Wire(c, 230.0) == if c == AB then 735264 else 1225;
    case Freq => assert Ds3Wire(c, 50.0) == 5000 && Qs1Wire(c, 50.0) == 1_000_000;
    case Time => assert 0 <= Ds3Wire(c, 1.0) <= 100 && Qs1Wire(c, 1.0) == 100;
    case _ =>
  }

  lemma Qs1Widths(c: Code)
    ensures Qs1Builder(c).Some? ==>
              !KindOf(c).Slope? && (Qs1Builder(c).value.width == 3 <==> KindOf(c).Freq? || c == AB)
  {
  }

  lemma TypicalEncodes(fam: Family, c: Code)
    requires HasLongName(c)
    ensures fam == FamilyDS3 && Ds3Sub(c).Some? ==> EncodeDS3(c, Typical(c), DS3_UNICAST).Frames?
    ensures fam == FamilyQS1 && (Qs1Builder(c).Some? || c == CV) ==> EncodeQS1(c, Typical(c), QS1_UNICAST).Frames?
  {
    hide Ds3Sub, Qs1Builder, Ds3Wire, Qs1Wire, Qs1Frame, Qs1ModeFrames, L2.Wire, KindOf;
    TypicalWire(c);
    Qs1Widths(c);
    if c == CV { ModeIsMode(); }
  }

  lemma ModeIsMode()
    ensures KindOf(CV).Mode?
  {
  }

  // ------------------------------------------------------------ ranges

  /** The per-code physical envelope; None where the source knows no generic bound. */
  function DefaultRange(c: Code): Option<Range> {
    if c == BN || c == BO then Some(VOLTS)
    else if c == DC then Some(HERTZ)
    else if c == AS then Some(SECONDS)
    else Envelope(c)
  }

  function IntersectRanges(a: Option<Range>, b: Option<Range>): Option<Range> {
    if a.None? then b
    else if b.None? then a
    else
      var lo := if b.value.min > a.value.min then b.value.min else a.value.min;
      var hi := if b.value.max < a.value.max then b.value.max else a.value.max;
      Some(if lo > hi then Range(lo, lo) else Range(lo, hi))
  }

  predicate WellFormed(r: Option<Range>) { r.Some? ==> r.value.min <= r.value.max }

  predicate Within(v: real, r: Option<Range>) { r.Some? ==> r.value.Has(v) }

  /** Every value of `inner` lies in `outer`. */
  ghost predicate Inside(inner: Option<Range>, outer: Option<Range>) {
    forall v :: Within(v, inner) ==> Within(v, outer)
  }

  ghost predicate Overlap(a: Option<Range>, b: Option<Range>) { exists v :: Within(v, a) && Within(v, b) }

  /** The intersection is exact when the ranges share a point, and always well formed unless
      one of them is passed through alone. */
  lemma IntersectExact(a: Option<Range>, b: Option<Range>, v: real)
    requires WellFormed(a) && WellFormed(b)
    ensures WellFormed(IntersectRanges(a, b))
    ensures Overlap(a, b) ==> (Within(v, IntersectRanges(a, b)) <==> Within(v, a) && Within(v, b))
    ensures !Overlap(a, b) ==> a.Some? && b.Some? && !(Within(v, a) && Within(v, b))
                               && IntersectRanges(a, b).value.min == IntersectRanges(a, b).value.max
  {
    if a.Some? && b.Some? {
      var lo := if b.value.min > a.value.min then b.value.min else a.value.min;
      var hi := if b.value.max < a.value.max then b.value.max else a.value.max;
      if lo <= hi {
        assert Within(lo, a) && Within(lo, b);
      }
    } else if a.Some? {
      assert Within(a.value.min, a) && Within(a.value.min, b);
    } else if b.Some? {
      assert Within(b.value.min, a) && Within(b.value.min, b);
    } else {
      assert Within(0.0, a) && Within(0.0, b);
    }
  }

  /** Disjoint ranges fall back to one point. It stays inside the base range exactly when the
      overlay does not start above the base; an overlay wholly above escapes upwards. */
  lemma IntersectStaysInBaseIff(base: Range, overlay: Range)
    requires base.min <= base.max && overlay.min <= overlay.max
    ensures Inside(IntersectRanges(Some(base), Some(overlay)), Some(base)) <==> overlay.min <= base.max
  {
    var r := IntersectRanges(Some(base), Some(overlay));
    assert Within(r.value.min, r);
  }

  // ------------------------------------------------------------ merging

  function Clamp(v: real, r: Option<Range>): real {
    if r.None? || r.value.min > r.value.max then v
    else if v < r.value.min then r.value.min
    else if v > r.value.max then r.value.max
    else v
  }

  function Index(entries: seq<Entry>): map<Code, Point> {
    if entries == [] then map[]
    else Index(entries[..|entries| - 1])[entries[|entries| - 1].code := entries[|entries| - 1].point]
  }

  /** The last entry of each code is the one that counts. */
  lemma {:induction false} IndexIsLast(entries: seq<Entry>, c: Code)
    ensures c in Index(entries) <==> exists i :: 0 <= i < |entries| && entries[i].code == c
    ensures c in Index(entries) ==>
              exists i :: 0 <= i < |entries| && entries[i] == Entry(c, Index(entries)[c])
                          && forall j :: i < j < |entries| ==> entries[j].code != c
  {
    if entries != [] {
      var n := |entries| - 1;
      IndexIsLast(entries[..n], c);
      if entries[n].code != c && c in Index(entries) {
        var i :| 0 <= i < n && entries[..n][i] == Entry(c, Index(entries[..n])[c])
                 && forall j :: i < j < n ==> entries[..n][j].code != c;
        assert forall j :: i < j < n ==> entries[j] == entries[..n][j];
        assert entries[i] == Entry(c, Index(entries)[c]);
      }
    }
  }

  /** An overlay entry under the intersected range. */
  function Overlaid(base: map<Code, Point>, e: Entry): Point {
    var rng := DefaultRange(e.code);
    var rng := if e.code in base then IntersectRanges(rng, base[e.code].range) else rng;
    Point(e.point.value, IntersectRanges(rng, e.point.range))
  }

  function Merge(base: map<Code, Point>, overlay: seq<Entry>): map<Code, Point> {
    if overlay == [] then base
    else
      var e := overlay[|overlay| - 1];
      Merge(base, overlay[..|overlay| - 1])[e.code := Overlaid(base, e)]
  }

  function Effective(p: Point): real { Clamp(p.value, p.range) }

  // ------------------------------------------------------------ conflicts

  datatype Rule = Rule(left: Code, right: Code)

  const CONFLICT_RULES := [Rule(DH, DI), Rule(CB, CC), Rule(BN, BO), Rule(BP, BQ), Rule(CA, AF)]

  predicate Violated(r: Rule, v: map<Code, real>) {
    r.left in v && r.right in v && !(v[r.left] < v[r.right])
  }

  method CheckConflicts(v: map<Code, real>) returns (out: seq<Rule>)
    ensures forall r :: r in out <==> r in CONFLICT_RULES && Violated(r, v)
  {
    out := [];
    for i := 0 to |CONFLICT_RULES|
      invariant forall r :: r in out <==> exists k :: 0 <= k < i && CONFLICT_RULES[k] == r && Violated(r, v)
    {
      if Violated(CONFLICT_RULES[i], v) { out := out + [CONFLICT_RULES[i]]; }
    }
  }

  // ------------------------------------------------------------ the desired profile

  datatype Desired = NoBase | Conflicts(rules: seq<Rule>) | Profile(points: seq<EffectivePoint>)

  /** What `points` must be for a merged map: one point per writable code, with its effective
      value and range, in any order. */
  ghost predicate PointsOf(model: byte, merged: map<Code, Point>, points: seq<EffectivePoint>) {
    && (forall i, j :: 0 <= i < j < |points| ==> points[i].code != points[j].code)
    && (forall p :: p in points <==>
          p.code in merged && Writeable(model, p.code)
          && p.value == Effective(merged[p.code]) && p.range == merged[p.code].range)
  }

  method IndexEntries(entries: seq<Entry>) returns (m: map<Code, Point>)
    ensures m == Index(entries)
  {
    m := map[];
    for i := 0 to |entries|
      invariant m == Index(entries[..i])
    {
      assert entries[..i + 1][..i] == entries[..i];
      m := m[entries[i].code := entries[i].point];
    }
    assert entries[..|entries|] == entries;
  }

  method ApplyOverlay(base: map<Code, Point>, overlay: seq<Entry>) returns (merged: map<Code, Point>)
    ensures merged == Merge(base, overlay)
  {
    merged := base;
    for i := 0 to |overlay|
      invariant merged == Merge(base, overlay[..i])
    {
      assert overlay[..i + 1][..i] == overlay[..i];
      var code := overlay[i].code;
      var rng := DefaultRange(code);
      if code in base { rng := IntersectRanges(rng, base[code].range); }
      rng := IntersectRanges(rng, overlay[i].point.range);
      merged := merged[code := Point(overlay[i].point.value, rng)];
    }
    assert overlay[..|overlay|] == overlay;
  }

  method CollectPoints(model: byte, merged: map<Code, Point>) returns (points: seq<EffectivePoint>)
    ensures PointsOf(model, merged, points)
  {
    hide Writeable, Effective;
    var order := Enumerate(merged.Keys);
    points := [];
    for i := 0 to |order|
      invariant forall a, b :: 0 <= a < b < |points| ==> points[a].code != points[b].code
      invariant forall p :: p in points ==> exists k :: 0 <= k < i && order[k] == p.code
      invariant forall p :: p in points <==>
                  p.code in order[..i] && p.code in merged && Writeable(model, p.code)
                  && p.value == Effective(merged[p.code]) && p.range == merged[p.code].range
    {
      var code := order[i];
      assert code in merged;
      if Writeable(model, code) {
        var p := EffectivePoint(code, Effective(merged[code]), merged[code].range);
        forall a | 0 <= a < |points| ensures points[a].code != code {
          assert points[a] in points;
        }
        points := points + [p];
      }
      assert order[..i + 1] == order[..i] + [code];
    }
    assert order[..|order|] == order;
  }

  /** `base` is the active profile's points, None when no base is active; `overlay` is empty
      when the inverter has none. */
  method BuildDesired(model: byte, base: Option<seq<Entry>>, overlay: seq<Entry>) returns (d: Desired)
    ensures d.NoBase? <==> base.None?
    ensures base.Some? ==>
              var merged := Merge(Index(base.value), overlay);
              var eff := map c | c in merged :: Effective(merged[c]);
              && (d.Conflicts? <==> exists r :: r in CONFLICT_RULES && Violated(r, eff))
              && (d.Conflicts? ==> forall r :: r in d.rules <==> r in CONFLICT_RULES && Violated(r, eff))
              && (d.Profile? ==> PointsOf(model, merged, d.points))
  {
    if base.None? { return NoBase; }
    var basePoints := IndexEntries(base.value);
    var merged := ApplyOverlay(basePoints, overlay);
    var eff := map c | c in merged :: Effective(merged[c]);
    var out := CheckConflicts(eff);
    if out != [] {
      assert out[0] in out;
      return Conflicts(out);
    }
    var points := CollectPoints(model, merged);
    d := Profile(points);
  }

  // ------------------------------------------------------------ properties of the result

  /** Any two values of a desired profile satisfy every conflict rule. */
  lemma DesiredIsConflictFree(model: byte, merged: map<Code, Point>, points: seq<EffectivePoint>, r: Rule,
                              p: EffectivePoint, q: EffectivePoint)
    requires PointsOf(model, merged, points) && p in points && q in points
    requires r in CONFLICT_RULES && !Violated(r, map c | c in merged :: Effective(merged[c]))
    requires p.code == r.left && q.code == r.right
    ensures p.value < q.value
  {
  }

  /** Spelled out: in a desired profile each frequency-watt curve starts below its end, the voltage
      and frequency windows for entering service are not empty, and over-frequency curtailment
      starts below the trip. */
  lemma DesiredIsOrdered(model: byte, merged: map<Code, Point>, points: seq<EffectivePoint>,
                         p: EffectivePoint, q: EffectivePoint)
    requires PointsOf(model, merged, points) && p in points && q in points
    requires forall r :: r in CONFLICT_RULES ==> !Violated(r, map c | c in merged :: Effective(merged[c]))
    ensures p.code == DH && q.code == DI ==> p.value < q.value
    ensures p.code == CB && q.code == CC ==> p.value < q.value
    ensures p.code == BN && q.code == BO ==> p.value < q.value
    ensures p.code == BP && q.code == BQ ==> p.value < q.value
    ensures p.code == CA && q.code == AF ==> p.value < q.value
  {
    var eff := map c | c in merged :: Effective(merged[c]);
    assert CONFLICT_RULES[0] == Rule(DH, DI) && CONFLICT_RULES[1] == Rule(CB, CC) && CONFLICT_RULES[2] == Rule(BN, BO);
    assert CONFLICT_RULES[3] == Rule(BP, BQ) && CONFLICT_RULES[4] == Rule(CA, AF);
    forall r | r in CONFLICT_RULES && p.code == r.left && q.code == r.right ensures p.value < q.value {
      assert !Violated(r, eff);
    }
  }

  /** A merged entry comes from the base or from the overlay's last word on its code. */
  lemma {:induction false} MergeSource(base: map<Code, Point>, overlay: seq<Entry>, c: Code)
    ensures var m := Merge(base, overlay);
            (c in m <==> c in base || c in Index(overlay)) &&
            (c in m ==> m[c] == if c in Index(overlay) then Overlaid(base, Entry(c, Index(overlay)[c])) else base[c])
  {
    if overlay != [] { MergeSource(base, overlay[..|overlay| - 1], c); }
  }

  lemma DefaultRangeWellFormed(c: Code)
    ensures WellFormed(DefaultRange(c))
  {
    hide KindOf;
  }

  /** Where the default, base and overlay ranges share a point, an overlay value as merged lies
      in all three. */
  lemma OverlayValueInAllRanges(base: map<Code, Point>, e: Entry, shared: real)
    requires e.code in base && WellFormed(base[e.code].range) && WellFormed(e.point.range)
    requires Within(shared, DefaultRange(e.code)) && Within(shared, base[e.code].range) && Within(shared, e.point.range)
    ensures var v := Effective(Overlaid(base, e));
            Within(v, DefaultRange(e.code)) && Within(v, base[e.code].range) && Within(v, e.point.range)
  {
    DefaultRangeWellFormed(e.code);
    hide DefaultRange;
    var d, b, o := DefaultRange(e.code), base[e.code].range, e.point.range;
    var db := IntersectRanges(d, b);
    var v := Effective(Overlaid(base, e));
    IntersectExact(d, b, shared);
    IntersectExact(db, o, shared);
    assert Overlap(d, b) && Within(shared, db) && Overlap(db, o);
    IntersectExact(db, o, v);
    IntersectExact(d, b, v);
    assert Within(v, IntersectRanges(db, o));
  }

  /** The overlay does not always stay within the certified base range: its merged value does
      exactly when neither the default nor the overlay range, where there is one, starts above
      the end of the base range. An overlay range may be missing, or even malformed. */
  lemma OverlayWithinBaseIff(base: map<Code, Point>, e: Entry)
    requires e.code in base && base[e.code].range.Some? && WellFormed(base[e.code].range)
    ensures var d, b, o := DefaultRange(e.code), base[e.code].range.value, e.point.range;
            b.Has(Effective(Overlaid(base, e)))
            <==> (d.Some? ==> d.value.min <= b.max) && (o.Some? ==> o.value.min <= b.max)
  {
    DefaultRangeWellFormed(e.code);
    hide DefaultRange;
    var d, b, o := DefaultRange(e.code), base[e.code].range, e.point.range;
    var db := IntersectRanges(d, b);
    assert db.value.min <= db.value.max;
    var r := IntersectRanges(db, o);
    assert r.value.min <= r.value.max;
    assert r.value.Has(Effective(Overlaid(base, e)));
  }

  /** An emitted point carries the overlay's last word on its code, or else the base entry. */
  lemma EmittedOverlay(model: byte, base: seq<Entry>, overlay: seq<Entry>,
                       points: seq<EffectivePoint>, p: EffectivePoint)
    requires PointsOf(model, Merge(Index(base), overlay), points) && p in points
    ensures p.code in Index(overlay) ==>
              p.value == Effective(Overlaid(Index(base), Entry(p.code, Index(overlay)[p.code])))
    ensures p.code !in Index(overlay) ==> p.code in Index(base) && p.value == Effective(Index(base)[p.code])
  {
    hide Writeable, Overlaid, Effective, Merge, Index;
    MergeSource(Index(base), overlay, p.code);
  }

  /** Of the profile as emitted: an overlay value stays in the certified base range exactly when
      neither its own range nor the default one starts above the end of it. */
  lemma EmittedOverlayWithinBaseIff(model: byte, base: seq<Entry>, overlay: seq<Entry>,
                                    points: seq<EffectivePoint>, p: EffectivePoint)
    requires PointsOf(model, Merge(Index(base), overlay), points) && p in points
    requires p.code in Index(overlay) && p.code in Index(base)
    requires Index(base)[p.code].range.Some? && WellFormed(Index(base)[p.code].range)
    ensures var d, b, o := DefaultRange(p.code), Index(base)[p.code].range.value, Index(overlay)[p.code].range;
            b.Has(p.value) <==> (d.Some? ==> d.value.min <= b.max) && (o.Some? ==> o.value.min <= b.max)
  {
    hide PointsOf, Merge, Index, DefaultRange, Overlaid, Effective;
    EmittedOverlay(model, base, overlay, points, p);
    OverlayWithinBaseIff(Index(base), Entry(p.code, Index(overlay)[p.code]));
  }

  /** Of the profile as emitted: where the three ranges share a point the overlay value lies in
      all of them, and a value the overlay does not set lies in its base range. */
  lemma EmittedValueInItsRanges(model: byte, base: seq<Entry>, overlay: seq<Entry>,
                                points: seq<EffectivePoint>, p: EffectivePoint, shared: real)
    requires PointsOf(model, Merge(Index(base), overlay), points) && p in points
    requires p.code in Index(base) && WellFormed(Index(base)[p.code].range)
    ensures p.code !in Index(overlay) ==> Within(p.value, Index(base)[p.code].range)
    ensures p.code in Index(overlay) ==>
              var d, b, o := DefaultRange(p.code), Index(base)[p.code].range, Index(overlay)[p.code].range;
              WellFormed(o) && Within(shared, d) && Within(shared, b) && Within(shared, o) ==>
                Within(p.value, d) && Within(p.value, b) && Within(p.value, o)
  {
    hide PointsOf, Merge, Index, DefaultRange, Overlaid, Effective, Within, WellFormed;
    EmittedOverlay(model, base, overlay, points, p);
    if p.code in Index(overlay) {
      var e := Entry(p.code, Index(overlay)[p.code]);
      var d, b, o := DefaultRange(p.code), Index(base)[p.code].range, e.point.range;
      if WellFormed(o) && Within(shared, d) && Within(shared, b) && Within(shared, o) {
        OverlayValueInAllRanges(Index(base), e, shared);
      }
    } else {
      BaseValueInRange(Index(base)[p.code]);
    }
  }

  /** A base-only value lies in its declared range whenever that range is well formed. */
  lemma BaseValueInRange(p: Point)
    ensures Within(Effective(p), p.range) <==> WellFormed(p.range) || Within(p.value, p.range)
  {
  }

  // ------------------------------------------------------------ which value is emitted

  function Distance(x: real, y: real): real { if x < y then y - x else x - y }

  /** `v` is the value with property `ok` that is nearest to `raw`. */
  ghost predicate Nearest(v: real, raw: real, ok: real -> bool) {
    ok(v) && forall x :: ok(x) ==> Distance(raw, v) <= Distance(raw, x)
  }

  /** Clamping yields the nearest value of a well-formed range, and leaves the value alone when there
      is no range or it is malformed. */
  lemma ClampIsNearest(raw: real, r: Option<Range>)
    ensures if WellFormed(r) then Nearest(Clamp(raw, r), raw, x => Within(x, r)) else Clamp(raw, r) == raw
  {
  }

  /** The lower end of a range, or nothing to go by. */
  predicate StartsAtMost(r: Option<Range>, v: real) { r.Some? ==> r.value.min <= v }

  predicate StartsAt(r: Option<Range>, v: real) { r.Some? && r.value.min == v }

  /** Which value a merged overlay entry gets. Where its ranges share a point: the value of their
      intersection that is nearest to what the overlay asks for. Where they share none: the highest
      of their lower ends, whatever the overlay asks for. */
  lemma OverlaidValue(base: map<Code, Point>, e: Entry)
    requires WellFormed(e.point.range) && (e.code in base ==> WellFormed(base[e.code].range))
    ensures var d, b, o := DefaultRange(e.code), if e.code in base then base[e.code].range else None, e.point.range;
            var v := Effective(Overlaid(base, e));
            if exists x :: InAll(x, d, b, o) then Nearest(v, e.point.value, x => InAll(x, d, b, o))
            else
              && StartsAtMost(d, v) && StartsAtMost(b, v) && StartsAtMost(o, v)
              && (StartsAt(d, v) || StartsAt(b, v) || StartsAt(o, v))
  {
    DefaultRangeWellFormed(e.code);
    hide DefaultRange;
    var d, b, o := DefaultRange(e.code), if e.code in base then base[e.code].range else None, e.point.range;
    var db := IntersectRanges(d, b);
    var r := IntersectRanges(db, o);
    IntersectThree(d, b, o);
    ClampIsNearest(e.point.value, r);
    assert Overlaid(base, e) == Point(e.point.value, r);
  }

  predicate InAll(x: real, d: Option<Range>, b: Option<Range>, o: Option<Range>) {
    Within(x, d) && Within(x, b) && Within(x, o)
  }

  /** Intersecting one range after the other: exact where they share a point, else the point at the
      highest of their lower ends. */
  lemma IntersectThree(d: Option<Range>, b: Option<Range>, o: Option<Range>)
    requires WellFormed(d) && WellFormed(b) && WellFormed(o)
    ensures var r := IntersectRanges(IntersectRanges(d, b), o);
            && WellFormed(r)
            && if exists x :: InAll(x, d, b, o) then forall x :: Within(x, r) <==> InAll(x, d, b, o)
               else
                 && r.Some? && r.value.min == r.value.max
                 && StartsAtMost(d, r.value.min) && StartsAtMost(b, r.value.min) && StartsAtMost(o, r.value.min)
                 && (StartsAt(d, r.value.min) || StartsAt(b, r.value.min) || StartsAt(o, r.value.min))
  {
    var r := IntersectRanges(IntersectRanges(d, b), o);
    if r.None? { assert InAll(0.0, d, b, o); }
    if r.Some? && !(exists x :: InAll(x, d, b, o)) {
      assert !InAll(r.value.min, d, b, o) && !InAll(r.value.max, d, b, o);
    }
  }

  /** Of the profile as emitted: a code the overlay does not set is emitted with its base value, moved
      only as far as its declared range requires; one it sets is emitted with the overlay's value,
      moved only as far as the three ranges require. A value that lies in its ranges is not moved. */
  lemma EmittedValueIsNearest(model: byte, base: seq<Entry>, overlay: seq<Entry>,
                              points: seq<EffectivePoint>, p: EffectivePoint)
    requires PointsOf(model, Merge(Index(base), overlay), points) && p in points
    ensures p.code !in Index(overlay) ==>
              && p.code in Index(base)
              && var q := Index(base)[p.code];
                 if WellFormed(q.range) then Nearest(p.value, q.value, x => Within(x, q.range)) else p.value == q.value
    ensures p.code in Index(overlay) ==>
              var o := Index(overlay)[p.code];
              var b := if p.code in Index(base) then Index(base)[p.code].range else None;
              var d := DefaultRange(p.code);
              && (WellFormed(o.range) && WellFormed(b) && (exists x :: InAll(x, d, b, o.range)) ==>
                    Nearest(p.value, o.value, x => InAll(x, d, b, o.range)))
              && (InAll(o.value, d, b, o.range) ==> p.value == o.value)
    ensures p.code !in Index(overlay) && Within(Index(base)[p.code].value, Index(base)[p.code].range) ==>
              p.value == Index(base)[p.code].value
  {
    hide PointsOf, Merge, Index, DefaultRange, Overlaid, Effective;
    EmittedOverlay(model, base, overlay, points, p);
    if p.code in Index(overlay) {
      var e := Entry(p.code, Index(overlay)[p.code]);
      var b := if p.code in Index(base) then Index(base)[p.code].range else None;
      if WellFormed(e.point.range) && WellFormed(b) { OverlaidValue(Index(base), e); }
      if InAll(e.point.value, DefaultRange(p.code), b, e.point.range) {
        assert Distance(e.point.value, e.point.value) == 0.0;
      }
    } else {
      var q := Index(base)[p.code];
      ClampIsNearest(q.value, q.range);
      EffectiveIsClamp(q);
    }
  }

  lemma EffectiveIsClamp(p: Point)
    ensures Effective(p) == Clamp(p.value, p.range)
  {
  }

  // ------------------------------------------------------------ encoding

  datatype PointEncoded = Encoded(frames: seq<seq<byte>>) | Unsupported | BadRange | Rejected(error: Error)

  /** The encoder's own pass over a point: capability again, clamp again, then the codec. */
  function EncodeEffectivePoint(model: byte, p: EffectivePoint): PointEncoded {
    if !Writeable(model, p.code) then Unsupported
    else if !WellFormed(p.range) then BadRange
    else
      match EncodeSetProtection(model, p.code, Clamp(p.value, p.range))
      case Frames(fs) => Encoded(fs)
      case Failed(e) => if e.UnsupportedFamily? || e.UnsupportedParam? then Unsupported else Rejected(e)
  }

  /** For a desired point the second clamp is the identity: unless its range is malformed, what
      is encoded is the very value that was conflict-checked, and capability never fails again. */
  lemma SecondClampIsIdentity(model: byte, merged: map<Code, Point>, points: seq<EffectivePoint>, p: EffectivePoint)
    requires PointsOf(model, merged, points) && p in points
    ensures Clamp(p.value, p.range) == p.value
    ensures EncodeEffectivePoint(model, p) ==
              if !WellFormed(p.range) then BadRange
              else match EncodeSetProtection(model, p.code, p.value)
                   case Frames(fs) => Encoded(fs)
                   case Failed(e) => Rejected(e)
  {
    WriteableIsSupported(model, p.code, p.value);
  }
}
