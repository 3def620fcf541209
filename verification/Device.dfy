/** The inverter at the other end: it stores the register a protection write addresses and
    answers protection reads from its registers. */
module Device {
  import opened Wrappers
  import opened Bytes
  import opened Codes
  import opened Protection
  import opened ProtectionRead
  import opened Quantisation
  import L2

  type Registers = map<Code, int>

  // ------------------------------------------------------------ taking a write

  function Ds3CodeOf(sub: byte): Option<Code> {
    match sub
    case 0x2B => Some(CB) case 0x2A => Some(CC) case 0x56 => Some(DH) case 0x55 => Some(DI)
    case 0x2D => Some(DD) case 0x2E => Some(CG) case 0x28 => Some(CV) case 0x25 => Some(AG)
    case 0x01 => Some(AI) case 0x02 => Some(AH) case 0x03 => Some(AD) case 0x04 => Some(AQ)
    case 0x05 => Some(AY) case 0x06 => Some(AC)
    case 0x09 => Some(AK) case 0x0A => Some(AJ) case 0x0B => Some(AF) case 0x0C => Some(AE)
    case 0x0F => Some(BC) case 0x10 => Some(BB) case 0x11 => Some(BE) case 0x12 => Some(BD)
    case 0x15 => Some(BI) case 0x16 => Some(BH) case 0x17 => Some(BK) case 0x18 => Some(BJ)
    case 0x42 => Some(AB) case 0x23 => Some(BQ) case 0x24 => Some(BP)
    case _ => None
  }

  function Qs1CodeOfSub(sub: byte): Option<Code> {
    match sub
    case 0x62 => Some(CA) case 0x68 => Some(CB) case 0x65 => Some(CC) case 0xA1 => Some(DH) case 0xA4 => Some(DI)
    case 0x4E => Some(BQ) case 0x51 => Some(BP) case 0x90 => Some(AI) case 0x8E => Some(AH)
    case 0x36 => Some(BB) case 0x38 => Some(BC) case 0x3A => Some(BD) case 0x3C => Some(BE)
    case 0x3E => Some(BH) case 0x40 => Some(BI) case 0x42 => Some(BJ) case 0x44 => Some(BK)
    case 0x7D => Some(AB)
    case _ => None
  }

  function Qs1CodeOfCommand(cmd: byte): Option<Code> {
    match cmd
    case 0x11 => Some(AQ) case 0x12 => Some(AD) case 0x13 => Some(AC) case 0x14 => Some(AY)
    case 0x58 => Some(AJ) case 0x57 => Some(AK) case 0x5A => Some(AE) case 0x59 => Some(AF)
    case 0x5D => Some(AG)
    case _ => None
  }

  function Unsigned(b: seq<byte>): nat {
    if b == [] then 0 else 256 * Unsigned(b[..|b| - 1]) + b[|b| - 1]
  }

  datatype Write = Write(code: Code, raw: int)

  function Ds3Payload(body: seq<byte>): Option<Write>
    requires |body| == 5
  {
    match Ds3CodeOf(body[0])
    case Some(c) => Some(Write(c, Unsigned(body[3..5])))
    case None => None
  }

  /** Under the shared opcode: the register, a byte count, then that many bytes. */
  function Qs1Payload(body: seq<byte>): Option<Write>
    requires |body| == 5
  {
    match Qs1CodeOfSub(body[0])
    case Some(c) => if body[1] <= 3 then Some(Write(c, Unsigned(body[2..2 + body[1]]))) else None
    case None => None
  }

  /** The register a unicast frame addresses and the number it stores there; None for a frame
      that is no single-register protection write. */
  function WriteOf(fam: Family, frame: seq<byte>): Option<Write> {
    var p := L2.ParseL2(frame);
    if !p.Ok? || |p.frame.body| != 5 then None
    else
      var cmd, body := p.frame.cmd, p.frame.body;
      if fam == FamilyDS3 then (if cmd == DS3_UNICAST then Ds3Payload(body) else None)
      else if fam != FamilyQS1 then None
      else if cmd == QS1_UNICAST then Qs1Payload(body)
      else
        match Qs1CodeOfCommand(cmd)
        case Some(c) => Some(Write(c, Unsigned(body[..if 0x57 <= cmd <= 0x5A then 3 else 2])))
        case None => None
  }

  /** The same for a broadcast frame: an inverter listens to its own family's opcode only. */
  function BroadcastWriteOf(fam: Family, frame: seq<byte>): Option<Write> {
    var p := L2.ParseL2(frame);
    if !p.Ok? || |p.frame.body| != 5 then None
    else
      match fam
      case FamilyDS3 => if p.frame.cmd == DS3_BROADCAST then Ds3Payload(p.frame.body) else None
      case FamilyQS1 => if p.frame.cmd == QS1_BROADCAST then Qs1Payload(p.frame.body) else None
      case _ => None
  }

  function Store(fam: Family, regs: Registers, frame: seq<byte>): Registers {
    match WriteOf(fam, frame)
    case Some(w) => regs[w.code := w.raw]
    case None => regs
  }

  lemma Ds3SubsInvert(c: Code)
    requires Ds3Sub(c).Some?
    ensures Ds3CodeOf(Ds3Sub(c).value) == Some(c)
  {
  }

  lemma Qs1SubsInvert(c: Code)
    requires Qs1Builder(c).Some?
    ensures var b := Qs1Builder(c).value;
            && (b.width == 2 || b.width == 3)
            && (b.NewOne? ==> Qs1CodeOfSub(b.sub) == Some(c))
            && (b.SubAsCmd? ==>
                  && Qs1CodeOfCommand(b.sub) == Some(c) && b.sub != QS1_UNICAST
                  && (b.width == 3 <==> 0x57 <= b.sub <= 0x5A))
  {
  }

  lemma BigEndianInvert(wire: nat, width: nat)
    requires (width == 2 && wire <= 0xFFFF) || (width == 3 && wire <= 0xFFFFFF)
    ensures |BigEndian(wire, width)| == width && Unsigned(BigEndian(wire, width)) == wire
  {
    var b := BigEndian(wire, width);
    assert b[..1] == [b[0]] && b[..1][..0] == [];
    assert Unsigned(b[..1]) == b[0];
    assert b[..2][..1] == b[..1];
    assert Unsigned(b[..2]) == 256 * (b[0] as int) + b[1];
    if width == 3 { ThreeBytes(wire); } else { assert b[..2] == b; }
  }

  lemma ThreeBytes(wire: nat)
    requires wire <= 0xFFFFFF
    ensures 256 * (256 * (wire / 0x10000 % 256) + wire / 256 % 256) + wire % 256 == wire
  {
    assert wire / 256 == 256 * (wire / 0x10000) + wire / 256 % 256;
  }

  lemma Ds3WriteArrives(c: Code, wire: nat)
    requires Ds3Sub(c).Some? && wire <= 0xFFFF
    ensures var frame := L2.Wire(DS3_UNICAST, [Ds3Sub(c).value, 0, 0, wire / 256, wire % 256]);
            WriteOf(FamilyDS3, frame) == Some(Write(c, wire))
  {
    hide Ds3Sub, Ds3CodeOf, Qs1CodeOfSub, Qs1CodeOfCommand, L2.Wire, L2.ParseL2;
    var body := [Ds3Sub(c).value, 0, 0, wire / 256, wire % 256];
    Ds3SubsInvert(c);
    L2.BuildThenParse(DS3_UNICAST, body);
    BigEndianInvert(wire, 2);
    assert body[3..5] == BigEndian(wire, 2);
  }

  lemma Qs1WriteArrives(c: Code, wire: nat)
    requires Qs1Builder(c).Some? && wire <= if Qs1Builder(c).value.width == 3 then 0xFFFFFF else 0xFFFF
    ensures WriteOf(FamilyQS1, Qs1Frame(Qs1Builder(c).value, wire, QS1_UNICAST)) == Some(Write(c, wire))
  {
    hide Qs1Builder, Ds3CodeOf, Qs1CodeOfSub, Qs1CodeOfCommand, L2.Wire, L2.ParseL2, Unsigned;
    var b := Qs1Builder(c).value;
    Qs1SubsInvert(c);
    L2.BuildThenParse(if b.NewOne? then QS1_UNICAST else b.sub, Qs1Body(b, wire));
    BigEndianInvert(wire, b.width);
    if b.NewOne? {
      assert Qs1Body(b, wire)[2..2 + b.width] == BigEndian(wire, b.width);
    } else {
      assert Qs1Body(b, wire)[..b.width] == BigEndian(wire, b.width);
    }
  }

  /** Whatever parameter and value the encoder accepts, its one frame makes the inverter store
      exactly that parameter's register with exactly the value's wire number. The QS1 mode,
      which takes several frames to undocumented registers, is the one exception. */
  lemma EncodedWriteArrives(model: byte, c: Code, v: real)
    requires EncodeSetProtection(model, c, v).Frames? && !(FamilyOf(model) == FamilyQS1 && Qs1Builder(c).None?)
    ensures v > 0.0 && |EncodeSetProtection(model, c, v).frames| == 1
    ensures var fam := FamilyOf(model);
            WriteOf(fam, EncodeSetProtection(model, c, v).frames[0]) == Some(Write(c, WireOf(fam, c, v)))
  {
    hide Ds3Sub, Qs1Builder, Ds3Wire, Qs1Wire, Qs1Frame, L2.Wire, WriteOf, Envelope;
    if FamilyOf(model) == FamilyDS3 {
      Ds3WriteArrives(c, Ds3Wire(c, v));
    } else {
      Qs1WriteArrives(c, Qs1Wire(c, v));
    }
  }

  /** A broadcast encoding stores, in every inverter of its family, exactly what the unicast one
      would; inverters of the other family do not hear it. */
  lemma BroadcastWriteArrives(model: byte, c: Code, v: real, other: Family)
    ensures var e, fam := EncodeSetProtectionBroadcast(model, c, v), FamilyOf(model);
            e.Frames? ==>
              && v > 0.0 && |e.frames| == 1
              && BroadcastWriteOf(fam, e.frames[0]) == Some(Write(c, WireOf(fam, c, v)))
              && (other != fam ==> BroadcastWriteOf(other, e.frames[0]).None?)
  {
    hide EncodeSetProtectionBroadcast, EncodeSetProtection, Ds3Payload, Qs1Payload, Qs1CodeOfCommand;
    hide L2.ParseL2, WireOf, Qs1Builder;
    BroadcastDiffersInOpcode(model, c, v);
    BroadcastFamilies(model, c, v);
    if EncodeSetProtectionBroadcast(model, c, v).Frames? { EncodedWriteArrives(model, c, v); }
  }

  lemma BroadcastFamilies(model: byte, c: Code, v: real)
    ensures EncodeSetProtectionBroadcast(model, c, v).Frames? ==>
              || FamilyOf(model) == FamilyDS3
              || (FamilyOf(model) == FamilyQS1 && Qs1Builder(c).Some?)
  {
    hide Ds3Sub, Qs1Builder, Ds3Wire, Qs1Wire, Envelope, L2.Wire;
  }

  // ------------------------------------------------------------ answering a read

  /** What a register reads back as, if the reply carries it and it is plausible. */
  function RegisterValue(fam: Family, c: Code, raw: int): Option<real> {
    match ReadFieldOf(fam, c)
    case None => None
    case Some(f) => if Sane(Scaled(f.1, AsRead(f.0, raw))) then Some(Scaled(f.1, AsRead(f.0, raw))) else None
  }

  function ReadAll(fam: Family, regs: Registers): map<Code, real> {
    map c | c in regs && RegisterValue(fam, c, regs[c]).Some? :: RegisterValue(fam, c, regs[c]).value
  }

  lemma HasReadField(fam: Family, c: Code, v: real)
    requires Covered(fam, c, v)
    ensures v > 0.0 && ReadFieldOf(fam, c).Some?
  {
    hide Ds3Sub, Qs1Builder, KindOf, ReadFieldOf;
  }

  /** A covered write reads back as its quantised value, within tolerance. */
  lemma CoveredReadsBack(fam: Family, c: Code, v: real)
    requires Covered(fam, c, v)
    ensures RegisterValue(fam, c, WireOf(fam, c, v)) == Some(ReadBack(fam, c, v))
    ensures WithinTolerance(c, v, ReadBack(fam, c, v))
  {
    hide Ds3Sub, Qs1Builder, KindOf, Envelope, Scaled, WireOf, Sane;
    HasReadField(fam, c, v);
    CoveredConfirms(fam, c, v);
  }

  /** A reply page reports the registers: each of its fields with a known register holds it. */
  ghost predicate Carries(fam: Family, f: seq<byte>, table: seq<Field>, regs: Registers) {
    forall i :: 0 <= i < |table| && table[i].Register? && table[i].code in regs ==>
      FieldCarries(fam, f, table[i], regs[table[i].code])
  }

  ghost predicate FieldCarries(fam: Family, f: seq<byte>, fld: Field, raw: int)
    requires fld.Register?
  {
    && BaseOf(fam) + fld.off + fld.width.Bytes() <= |f|
    && ReadBE(f, BaseOf(fam) + fld.off, fld.width.Bytes()) == AsRead(fld.width, raw)
  }

  lemma {:induction false} TableReadsRegister(fam: Family, f: seq<byte>, table: seq<Field>, regs: Registers, c: Code)
    requires Carries(fam, f, table, regs) && c in regs && HasLongName(c) && ReadFieldOf(fam, c).Some?
    requires forall i :: 0 <= i < |table| ==> Agrees(fam, table[i])
    ensures var out := TableValues(f, BaseOf(fam), table);
            && (c in out <==> c in CodesOf(table) && RegisterValue(fam, c, regs[c]).Some?)
            && (c in out ==> Some(out[c]) == RegisterValue(fam, c, regs[c]))
  {
    hide ReadFieldOf, HasLongName, RegisterValue, FieldValue, Agrees, FieldCarries, Sane;
    if table != [] {
      var n := |table| - 1;
      assert forall i :: 0 <= i < n ==> table[..n][i] == table[i];
      TableReadsRegister(fam, f, table[..n], regs, c);
      assert CodesOf(table) == CodesOf(table[..n]) + {table[n].code};
      if table[n].code == c {
        assert Agrees(fam, table[n]);
        LastFieldRead(fam, f, table[n], regs[c]);
      }
    }
  }

  lemma LastFieldRead(fam: Family, f: seq<byte>, fld: Field, raw: int)
    requires HasLongName(fld.code) && Agrees(fam, fld) && ReadFieldOf(fam, fld.code).Some?
    requires fld.Register? ==> FieldCarries(fam, f, fld, raw)
    ensures var v := FieldValue(f, BaseOf(fam), fld);
            v.Some? && RegisterValue(fam, fld.code, raw) == if Sane(v.value) then v else None
  {
    hide ReadFieldOf, HasLongName, Scaled, ReadBE, AsRead;
  }

  /** Decoding any reply page that reports the registers yields, for each readable writable
      code of the page, exactly what its register reads back as, and drops it exactly when
      that is implausible. */
  lemma PageReadsRegisters(fam: Family, f: seq<byte>, regs: Registers, c: Code)
    requires (fam == FamilyDS3 || fam == FamilyQS1) && L2.ParseL2(f).Ok?
    requires c in regs && HasLongName(c) && ReadFieldOf(fam, c).Some?
    requires Carries(fam, f, TableOf(fam, PageKey(fam, f)), regs) && c in CodesOf(TableOf(fam, PageKey(fam, f)))
    ensures c in DecodeFrame(fam, f) <==> c in ReadAll(fam, regs)
    ensures c in DecodeFrame(fam, f) ==> DecodeFrame(fam, f)[c] == ReadAll(fam, regs)[c]
  {
    assert |f| >= 8;
    hide TableOf, PageKey, RegisterValue, HasLongName, ReadFieldOf, L2.ParseL2, TableValues;
    var table := TableOf(fam, PageKey(fam, f));
    forall i | 0 <= i < |table| ensures Agrees(fam, table[i]) {
      if HasLongName(table[i].code) { TablesAgree(fam, PageKey(fam, f), i); }
    }
    TableReadsRegister(fam, f, table, regs, c);
  }
}
