/** Building grid-protection frames for both families. */
module Protection {
  import opened Wrappers
  import opened Bytes
  import opened Codes
  import L2

  const DS3_UNICAST: byte := 0xAA
  const DS3_BROADCAST: byte := 0xAB
  const QS1_UNICAST: byte := 0x1C
  const QS1_BROADCAST: byte := 0x2C
  const C3_UNICAST: byte := 0xC3
  const SUB_MAX_POWER_DS3: byte := 0x27
  const SUB_MAX_POWER_QS1: byte := 0x8C

  datatype Error = NotPositive | OutsideEnvelope | UnsupportedFamily | UnsupportedParam
                 | UnsupportedBroadcast | WireRange | ModeRange
  datatype Encoded = Frames(frames: seq<seq<byte>>) | Failed(error: Error)

  // ------------------------------------------------------------ DS3

  const DS3_GRID_V := 0.268

  function Ds3Mode(v: real): int {
    var m := Trunc(v);
    if m == 0xF then 0 else if m == 3 || m == 4 || m == 0xD then 1 else 2
  }

  function Ds3Wire(c: Code, v: real): int {
    match KindOf(c)
    case Volt => Trunc(v / DS3_GRID_V)
    case Freq => Trunc(v * 100.0)
    case Slope => Trunc(v * 163.68)
    case Mode => Ds3Mode(v)
    case _ => if c == CG then Trunc(v + 0.5) else if c == AG then Trunc(v * 50.0) else Trunc(v * 100.0)
  }

  function Ds3Sub(c: Code): Option<byte> {
    match c
    case CB => Some(0x2B) case CC => Some(0x2A) case DH => Some(0x56) case DI => Some(0x55)
    case DD => Some(0x2D) case CG => Some(0x2E) case CV => Some(0x28) case AG => Some(0x25)
    case AI => Some(0x01) case AH => Some(0x02) case AD => Some(0x03) case AQ => Some(0x04)
    case AY => Some(0x05) case AC => Some(0x06)
    case AK => Some(0x09) case AJ => Some(0x0A) case AF => Some(0x0B) case AE => Some(0x0C)
    case BC => Some(0x0F) case BB => Some(0x10) case BE => Some(0x11) case BD => Some(0x12)
    case BI => Some(0x15) case BH => Some(0x16) case BK => Some(0x17) case BJ => Some(0x18)
    case AB => Some(0x42) case BQ => Some(0x23) case BP => Some(0x24)
    case _ => None
  }

  function EncodeDS3(c: Code, v: real, opcode: byte): Encoded {
    if Ds3Sub(c).None? then Failed(UnsupportedParam)
    else
      var wire := Ds3Wire(c, v);
      if wire < 0 || wire > 0xFFFF then Failed(WireRange)
      else Frames([L2.Wire(opcode, [Ds3Sub(c).value, 0, 0, wire / 256, wire % 256])])
  }

  // ------------------------------------------------------------ QS1

  const QS1_FREQ_DIV := 50_000_000.0
  const QS1_VOLT := 5.328     // 1.332 * 4
  const QS1_AVG_OV := 3196.8  // 1.332 * 600 * 4

  /** The two frame builders: sub under the shared opcode with a byte count, or sub as the
      command byte itself. */
  datatype Builder = NewOne(sub: byte, width: nat) | SubAsCmd(sub: byte, width: nat)

  function Qs1Builder(c: Code): Option<Builder> {
    match c
    case CA => Some(NewOne(0x62, 3)) case CB => Some(NewOne(0x68, 3)) case CC => Some(NewOne(0x65, 3))
    case DH => Some(NewOne(0xA1, 3)) case DI => Some(NewOne(0xA4, 3))
    case BQ => Some(NewOne(0x4E, 3)) case BP => Some(NewOne(0x51, 3))
    case AI => Some(NewOne(0x90, 2)) case AH => Some(NewOne(0x8E, 2))
    case AQ => Some(SubAsCmd(0x11, 2)) case AD => Some(SubAsCmd(0x12, 2))
    case AC => Some(SubAsCmd(0x13, 2)) case AY => Some(SubAsCmd(0x14, 2))
    case AJ => Some(SubAsCmd(0x58, 3)) case AK => Some(SubAsCmd(0x57, 3))
    case AE => Some(SubAsCmd(0x5A, 3)) case AF => Some(SubAsCmd(0x59, 3))
    case BB => Some(NewOne(0x36, 2)) case BC => Some(NewOne(0x38, 2)) case BD => Some(NewOne(0x3A, 2))
    case BE => Some(NewOne(0x3C, 2)) case BH => Some(NewOne(0x3E, 2)) case BI => Some(NewOne(0x40, 2))
    case BJ => Some(NewOne(0x42, 2)) case BK => Some(NewOne(0x44, 2))
    case AB => Some(NewOne(0x7D, 3))
    case AG => Some(SubAsCmd(0x5D, 2))
    case _ => None
  }

  /** Frequencies divide, so the source only calls this with a positive value. */
  function Qs1Wire(c: Code, v: real): int
    requires v > 0.0
  {
    match KindOf(c)
    case Freq => Trunc(QS1_FREQ_DIV / v)
    case Volt => if c == AB then Trunc(v * QS1_AVG_OV) else Trunc(v * QS1_VOLT)
    case _ => Trunc(v * 100.0)
  }

  function BigEndian(wire: nat, width: nat): seq<byte> {
    if width == 3 then [wire / 0x10000 % 256, wire / 256 % 256, wire % 256] else [wire / 256 % 256, wire % 256]
  }

  /** The five body bytes of a single-frame QS1 write. */
  function Qs1Body(b: Builder, wire: nat): (body: seq<byte>)
    ensures |body| == 5
  {
    if b.NewOne?
    then [b.sub, if b.width == 3 then 3 else 2] + BigEndian(wire, b.width) + if b.width == 3 then [] else [0]
    else BigEndian(wire, b.width) + if b.width == 3 then [0, 0] else [0, 0, 0]
  }

  function Qs1Frame(b: Builder, wire: nat, opcode: byte): seq<byte> {
    L2.Wire(if b.NewOne? then opcode else b.sub, Qs1Body(b, wire))
  }

  function Qs1ModeFrames(mode: nat, opcode: byte): seq<seq<byte>>
    requires mode < 256
  {
    if mode == 0xF then [ModeFrame(opcode, 0x5F, 0x30), ModeFrame(opcode, 0x5F, 0x0F), ModeFrame(opcode, 0x99, 0)]
    else if mode == 3 || mode == 4 || mode == 0xD then
      [ModeFrame(opcode, 0x5F, 0x10), ModeFrame(opcode, 0x5F, if mode == 0xD then 4 else mode),
       ModeFrame(opcode, 0x99, 1)]
    else [ModeFrame(opcode, 0x5F, 0x20), ModeFrame(opcode, 0x5F, if mode == 0xE then 1 else mode)]
  }

  function ModeFrame(opcode: byte, sub: byte, v: byte): seq<byte> { L2.Wire(opcode, [sub, 1, v, 0, 0]) }

  function EncodeQS1(c: Code, v: real, opcode: byte): Encoded
    requires v > 0.0
  {
    var b := Qs1Builder(c);
    if b.Some? then
      var wire := Qs1Wire(c, v);
      if wire < 0 || wire > (if b.value.width == 3 then 0xFFFFFF else 0xFFFF) then Failed(WireRange)
      else Frames([Qs1Frame(b.value, wire, opcode)])
    else if c == CV then
      var mode := Trunc(v);
      if mode < 0 || mode > 0xFF then Failed(ModeRange) else Frames(Qs1ModeFrames(mode, opcode))
    else Failed(UnsupportedParam)
  }

  // ------------------------------------------------------------ dispatch

  function EnvelopeError(c: Code, v: real): Option<Error> {
    if v <= 0.0 then Some(NotPositive)
    else if Envelope(c).Some? && !Envelope(c).value.Has(v) then Some(OutsideEnvelope)
    else None
  }

  function EncodeSetProtection(model: byte, c: Code, v: real): Encoded {
    if EnvelopeError(c, v).Some? then Failed(EnvelopeError(c, v).value)
    else match FamilyOf(model)
      case FamilyDS3 => EncodeDS3(c, v, DS3_UNICAST)
      case FamilyQS1 => EncodeQS1(c, v, QS1_UNICAST)
      case _ => Failed(UnsupportedFamily)
  }

  function EncodeSetProtectionBroadcast(model: byte, c: Code, v: real): Encoded {
    if EnvelopeError(c, v).Some? then Failed(EnvelopeError(c, v).value)
    else match FamilyOf(model)
      case FamilyDS3 => EncodeDS3(c, v, DS3_BROADCAST)
      case FamilyQS1 =>
        if c == CV || (Qs1Builder(c).Some? && Qs1Builder(c).value.SubAsCmd?) then Failed(UnsupportedBroadcast)
        else EncodeQS1(c, v, QS1_BROADCAST)
      case _ => Failed(UnsupportedFamily)
  }

  // ------------------------------------------------------------ classification

  predicate IsYC600Cmd(cmd: byte) { 0x11 <= cmd <= 0x14 || 0x57 <= cmd <= 0x5A || cmd == 0x5D }

  predicate IsProtectionWrite(frame: seq<byte>) {
    |frame| >= 5 &&
    var cmd, sub := frame[3], frame[4];
    || (cmd == DS3_UNICAST && sub != SUB_MAX_POWER_DS3)
    || (cmd == QS1_UNICAST && sub != SUB_MAX_POWER_QS1)
    || IsYC600Cmd(cmd)
  }

  predicate IsSetPower(frame: seq<byte>) {
    |frame| >= 5 &&
    var cmd, sub := frame[3], frame[4];
    || (cmd == DS3_UNICAST && sub == SUB_MAX_POWER_DS3)
    || (cmd == QS1_UNICAST && sub == SUB_MAX_POWER_QS1)
    || cmd == C3_UNICAST
  }

  /** A well-formed frame on the wire: it parses to its command and a five-byte body under an
      exact, non-wrapping length and checksum. */
  ghost predicate WellFormed(frame: seq<byte>) {
    var p := L2.ParseL2(frame);
    && p.Ok? && |p.frame.body| == 5 && p.frame.kind == 6
    && frame == L2.Wire(p.frame.cmd, p.frame.body)
    && 256 * p.frame.chkHi + p.frame.chkLo == 6 + p.frame.cmd + Sum(p.frame.body)
  }

  lemma BodyOfFive(cmd: byte, body: seq<byte>)
    requires |body| == 5
    ensures |L2.Wire(cmd, body)| == 13 && WellFormed(L2.Wire(cmd, body))
    ensures var f := L2.Wire(cmd, body); f[3] == cmd && f[4] == body[0]
  {
    L2.BuildThenParse(cmd, body);
  }

  ghost predicate GoodUnicast(frame: seq<byte>) {
    WellFormed(frame) && IsProtectionWrite(frame) && !IsSetPower(frame)
  }

  lemma ModeFramesGood(mode: nat)
    requires mode < 256
    ensures forall f :: f in Qs1ModeFrames(mode, QS1_UNICAST) ==> GoodUnicast(f)
  {
    hide WellFormed, L2.Wire;
    forall sub: byte, v: byte | sub == 0x5F || sub == 0x99 ensures GoodUnicast(ModeFrame(QS1_UNICAST, sub, v)) {
      BodyOfFive(QS1_UNICAST, [sub, 1, v, 0, 0]);
    }
  }

  lemma Qs1SubsDistinct(c: Code)
    requires Qs1Builder(c).Some?
    ensures var b := Qs1Builder(c).value;
            if b.NewOne? then b.sub != SUB_MAX_POWER_QS1
            else IsYC600Cmd(b.sub) && b.sub != DS3_UNICAST && b.sub != QS1_UNICAST && b.sub != C3_UNICAST
  {
  }

  lemma Qs1FrameGood(c: Code, wire: nat, opcode: byte)
    requires Qs1Builder(c).Some?
    ensures WellFormed(Qs1Frame(Qs1Builder(c).value, wire, opcode))
    ensures opcode == QS1_UNICAST ==> GoodUnicast(Qs1Frame(Qs1Builder(c).value, wire, opcode))
  {
    Qs1SubsDistinct(c);
    var b := Qs1Builder(c).value;
    BodyOfFive(if b.NewOne? then opcode else b.sub, Qs1Body(b, wire));
  }

  lemma Ds3FrameGood(c: Code, wire: nat)
    requires Ds3Sub(c).Some? && wire <= 0xFFFF
    ensures GoodUnicast(L2.Wire(DS3_UNICAST, [Ds3Sub(c).value, 0, 0, wire / 256, wire % 256]))
  {
    hide L2.Wire, WellFormed;
    BodyOfFive(DS3_UNICAST, [Ds3Sub(c).value, 0, 0, wire / 256, wire % 256]);
  }

  /** Every frame the unicast encoder produces, for any model, parameter and value, is well
      formed on the wire and is recognised as a protection write, never as a set-power. */
  lemma UnicastFramesGood(model: byte, c: Code, v: real)
    ensures var e := EncodeSetProtection(model, c, v);
            e.Frames? ==> 1 <= |e.frames| <= 3 && forall f :: f in e.frames ==> GoodUnicast(f)
  {
    hide Ds3Sub, Ds3Wire, Qs1Wire, Qs1Builder, L2.Wire, Qs1Frame, Envelope, GoodUnicast, ModeFrame;
    if EncodeSetProtection(model, c, v).Frames? {
      if FamilyOf(model) == FamilyDS3 {
        Ds3FrameGood(c, Ds3Wire(c, v));
      } else if Qs1Builder(c).Some? {
        Qs1FrameGood(c, Qs1Wire(c, v), QS1_UNICAST);
      } else {
        ModeFramesGood(Trunc(v));
      }
    }
  }

  /** `b` is `u` under another opcode: same body, its own exact checksum. */
  ghost predicate SameBodyOtherOpcode(u: seq<byte>, b: seq<byte>, from: byte, to: byte) {
    && WellFormed(u) && WellFormed(b)
    && L2.ParseL2(u).frame.cmd == from && L2.ParseL2(b).frame.cmd == to
    && L2.ParseL2(u).frame.body == L2.ParseL2(b).frame.body
    && |u| == |b| && u[..3] == b[..3]
  }

  /** Whenever a parameter can be broadcast, it is one frame that differs from the unicast one
      only in opcode and checksum; and it can be broadcast exactly when the unicast encodes and
      the family has a clean opcode swap for it. */
  lemma BroadcastDiffersInOpcode(model: byte, c: Code, v: real)
    ensures var u, b := EncodeSetProtection(model, c, v), EncodeSetProtectionBroadcast(model, c, v);
            && (b.Frames? ==>
                  && u.Frames? && |b.frames| == |u.frames| == 1
                  && (FamilyOf(model) == FamilyDS3 ==>
                        SameBodyOtherOpcode(u.frames[0], b.frames[0], DS3_UNICAST, DS3_BROADCAST))
                  && (FamilyOf(model) == FamilyQS1 ==>
                        SameBodyOtherOpcode(u.frames[0], b.frames[0], QS1_UNICAST, QS1_BROADCAST)))
            && (b.Frames? <==> u.Frames? && !(b.Failed? && b.error.UnsupportedBroadcast?))
  {
    hide EnvelopeError, FamilyOf, EncodeDS3, EncodeQS1, Qs1Builder, SameBodyOtherOpcode;
    EnvelopeErrorKinds(c, v);
    if EnvelopeError(c, v).None? {
      Ds3Swap(c, v);
      if c != CV && (Qs1Builder(c).Some? ==> Qs1Builder(c).value.NewOne?) { Qs1Swap(c, v); }
    }
  }

  lemma EnvelopeErrorKinds(c: Code, v: real)
    ensures EnvelopeError(c, v).Some? ==> !EnvelopeError(c, v).value.UnsupportedBroadcast?
    ensures v > 0.0 || EnvelopeError(c, v).Some?
  {
  }

  lemma Ds3Swap(c: Code, v: real)
    ensures var u, b := EncodeDS3(c, v, DS3_UNICAST), EncodeDS3(c, v, DS3_BROADCAST);
            if u.Frames?
            then b.Frames? && |u.frames| == |b.frames| == 1
                 && SameBodyOtherOpcode(u.frames[0], b.frames[0], DS3_UNICAST, DS3_BROADCAST)
            else b.Failed? && !b.error.UnsupportedBroadcast?
  {
    hide Ds3Sub, Ds3Wire, SameBodyOtherOpcode, L2.Wire;
    if EncodeDS3(c, v, DS3_UNICAST).Frames? {
      var wire := Ds3Wire(c, v);
      SwapOpcode(DS3_UNICAST, DS3_BROADCAST, [Ds3Sub(c).value, 0, 0, wire / 256, wire % 256]);
    }
  }

  lemma Qs1Swap(c: Code, v: real)
    requires v > 0.0 && c != CV && (Qs1Builder(c).Some? ==> Qs1Builder(c).value.NewOne?)
    ensures var u, b := EncodeQS1(c, v, QS1_UNICAST), EncodeQS1(c, v, QS1_BROADCAST);
            if u.Frames?
            then b.Frames? && |u.frames| == |b.frames| == 1
                 && SameBodyOtherOpcode(u.frames[0], b.frames[0], QS1_UNICAST, QS1_BROADCAST)
            else b.Failed? && !b.error.UnsupportedBroadcast?
  {
    hide Qs1Builder, Qs1Wire, Qs1Body, SameBodyOtherOpcode, L2.Wire;
    if EncodeQS1(c, v, QS1_UNICAST).Frames? {
      SwapOpcode(QS1_UNICAST, QS1_BROADCAST, Qs1Body(Qs1Builder(c).value, Qs1Wire(c, v)));
    }
  }

  lemma SwapOpcode(from: byte, to: byte, body: seq<byte>)
    requires |body| == 5
    ensures SameBodyOtherOpcode(L2.Wire(from, body), L2.Wire(to, body), from, to)
  {
    BodyOfFive(from, body);
    BodyOfFive(to, body);
    L2.BuildThenParse(from, body);
    L2.BuildThenParse(to, body);
  }
}
