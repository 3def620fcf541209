/** Decoding the paged protection read-back. */
module ProtectionRead {
  import opened Wrappers
  import opened Bytes
  import opened Codes
  import L2

  const PAGE_A: byte := 0xDD
  const PAGE_B: byte := 0xDE
  const PAGE_C: byte := 0xD9
  const QS1_PAGE_A: byte := 0xDB
  const SANE_MAX := 2000.0

  datatype Scale =
    | DsVolt | DsHundredth | DsRecovery | DsVoltAvg | DsDroop | DsMaxPower | DsMode
    | QsVolt | QsFreq | QsHundredth | QsAvgOv | QsDroop | QsMaxPower | Identity

  /** A raw register to its native value. */
  function Scaled(s: Scale, raw: int): real {
    match s
    case DsVolt => Trunc(raw as real * 0.268 + 0.5) as real
    case DsHundredth => raw as real * 0.01
    case DsRecovery => raw as real / 50.0
    case DsVoltAvg => Trunc(raw as real * 0.268) as real
    case DsDroop => raw as real * 6000.0 / 2208898.0 * 100.0
    case DsMaxPower => raw as real * 0.06027
    case DsMode => if raw == 1 then 13.0 else if raw == 2 then 14.0 else 15.0
    case QsVolt => if raw == 0 then 0.0 else Trunc(raw as real / 1.332 / 4.0 + 0.5) as real
    case QsFreq => if raw == 0 then 0.0 else 50_000_000.0 / raw as real
    case QsHundredth => raw as real / 100.0
    case QsAvgOv => if raw == 0 then 0.0 else Round(DivTrunc(raw, 600) as real / 1.3315 / 4.0) as real
    case QsDroop => raw as real * 0.169
    case QsMaxPower => raw as real * 256.0 / 7395.0
    case Identity => raw as real
  }

  /** Go's integer division. */
  function DivTrunc(a: int, b: nat): int
    requires b > 0
  {
    if a >= 0 then a / b else -((-a) / b)
  }

  /** Big-endian registers: one and three bytes unsigned, two bytes signed. */
  function ReadBE(f: seq<byte>, i: nat, width: nat): int
    requires width == 1 || width == 2 || width == 3
    requires i + width <= |f|
  {
    var b0: int := f[i];
    if width == 1 then b0
    else if width == 3 then 0x10000 * b0 + 0x100 * (f[i + 1] as int) + f[i + 2]
    else
      var v := 0x100 * b0 + f[i + 1];
      if v >= 0x8000 then v - 0x10000 else v
  }

  datatype Width = One | Two | Three {
    function Bytes(): nat { match this case One => 1 case Two => 2 case Three => 3 }
  }

  /** A register field, or one of QS1's packed enums: the mode nibble gated by a page-variant
      flag, and the flag byte's bit groups. */
  datatype Field =
    | Register(code: Code, off: nat, width: Width, scale: Scale)
    | ModeNibble(code: Code)
    | FlagBits(code: Code, divisor: nat, modulus: nat)

  /** The field's value in a page, if the page is long enough to carry it. */
  function FieldValue(f: seq<byte>, base: nat, fld: Field): Option<real> {
    match fld
    case Register(_, off, width, scale) =>
      if base + off + width.Bytes() > |f| then None
      else Some(Scaled(scale, ReadBE(f, base + off, width.Bytes())))
    case ModeNibble(_) =>
      if base + 0x3F >= |f| || base + 0x4A >= |f| then None
      else if f[base + 0x4A] == 0x66 then Some((f[base + 0x3F] / 16 % 4 + 12) as real)
      else if f[base + 0x4A] == 0 then Some((f[base + 0x3F] % 16) as real)
      else None
    case FlagBits(_, divisor, modulus) =>
      if base + 1 >= |f| || divisor == 0 || modulus == 0 then None
      else Some((f[base + 1] / divisor % modulus) as real)
  }

  predicate Sane(v: real) { 0.0 <= v <= SANE_MAX }

  const DS3_PAGE_A: seq<Field> := [
    Register(AI, 0x01, Two, DsVolt), Register(AH, 0x03, Two, DsVolt), Register(AD, 0x05, Two, DsVolt),
    Register(AQ, 0x07, Two, DsVolt), Register(AY, 0x09, Two, DsVolt), Register(AC, 0x0B, Two, DsVolt),
    Register(AK, 0x11, Two, DsHundredth), Register(AJ, 0x13, Two, DsHundredth),
    Register(AF, 0x15, Two, DsHundredth), Register(AE, 0x17, Two, DsHundredth),
    Register(BC, 0x1D, Two, DsHundredth), Register(BB, 0x1F, Two, DsHundredth),
    Register(BE, 0x21, Two, DsHundredth), Register(BD, 0x23, Two, DsHundredth),
    Register(BI, 0x29, Three, DsHundredth), Register(BH, 0x2C, Three, DsHundredth),
    Register(BK, 0x4C, Three, DsHundredth), Register(BJ, 0x4F, Three, DsHundredth),
    Register(AS, 0x39, Two, Identity), Register(BO, 0x3D, Two, DsVolt), Register(BN, 0x3F, Two, DsVolt),
    Register(BQ, 0x41, Two, DsHundredth), Register(BP, 0x43, Two, DsHundredth), Register(AG, 0x45, Two, DsRecovery)]

  const DS3_PAGE_B: seq<Field> := [
    Register(DA, 0x03, Two, DsMaxPower), Register(CV, 0x05, One, DsMode),
    Register(DC, 0x06, Two, DsHundredth), Register(CC, 0x08, Two, DsHundredth), Register(CB, 0x0A, Two, DsHundredth),
    Register(DD, 0x0C, Two, DsDroop), Register(AB, 0x31, Two, DsVoltAvg),
    Register(DI, 0x3F, Two, DsHundredth), Register(DH, 0x41, Two, DsHundredth)]

  const QS1_TABLE_A: seq<Field> := [
    FlagBits(AT, 64, 4), FlagBits(AU, 16, 4), FlagBits(AV, 2, 4), FlagBits(AW, 1, 2),
    Register(AX, 0x03, Two, Identity),
    Register(AQ, 0x05, Two, QsVolt), Register(AD, 0x07, Two, QsVolt), Register(AC, 0x09, Two, QsVolt),
    Register(AY, 0x0B, Two, QsVolt), Register(AZ, 0x0D, Two, QsVolt), Register(BA, 0x0F, Two, QsVolt),
    Register(AJ, 0x11, Three, QsFreq), Register(AK, 0x14, Three, QsFreq),
    Register(AE, 0x17, Three, QsFreq), Register(AF, 0x1A, Three, QsFreq),
    Register(BB, 0x1D, Two, QsHundredth), Register(BC, 0x1F, Two, QsHundredth),
    Register(BD, 0x21, Two, QsHundredth), Register(BE, 0x23, Two, QsHundredth),
    Register(BF, 0x25, Two, QsHundredth), Register(BG, 0x27, Two, QsHundredth),
    Register(BH, 0x29, Two, QsHundredth), Register(BI, 0x2B, Two, QsHundredth),
    Register(BJ, 0x2D, Two, QsHundredth), Register(BK, 0x2F, Two, QsHundredth),
    Register(AG, 0x31, Two, QsHundredth), Register(AS, 0x33, Two, QsHundredth),
    Register(AH, 0x35, Two, QsVolt), Register(AI, 0x37, Two, QsVolt),
    Register(BL, 0x39, Two, QsHundredth), Register(BM, 0x3B, Two, QsHundredth)]

  const QS1_TABLE_B: seq<Field> := [
    Register(BN, 0x01, Two, QsVolt), Register(BO, 0x03, Two, QsVolt),
    Register(BP, 0x05, Three, QsFreq), Register(BQ, 0x08, Three, QsFreq),
    Register(AB, 0x19, Three, QsAvgOv), Register(DD, 0x45, Two, QsDroop), Register(DA, 0x47, Two, QsMaxPower),
    ModeNibble(CV),
    Register(CC, 0x25, Three, QsFreq), Register(CB, 0x28, Three, QsFreq)]

  const QS1_TABLE_C: seq<Field> := [
    Register(DC, 0x01, Three, QsFreq), Register(DH, 0x0C, Three, QsFreq), Register(DI, 0x0F, Three, QsFreq)]

  /** The byte that identifies a page: DS3 tags it at [4], QS1 uses the command at [3]. */
  function PageKey(fam: Family, f: seq<byte>): byte
    requires |f| >= 5
  {
    if fam == FamilyDS3 then f[4] else f[3]
  }

  /** The field table of a page and the byte its offsets count from; no fields for an unknown page. */
  function TableOf(fam: Family, key: byte): seq<Field> {
    match fam
    case FamilyDS3 => if key == PAGE_A then DS3_PAGE_A else if key == PAGE_B then DS3_PAGE_B else []
    case FamilyQS1 =>
      if key == QS1_PAGE_A then QS1_TABLE_A else if key == PAGE_B then QS1_TABLE_B
      else if key == PAGE_C then QS1_TABLE_C else []
    case _ => []
  }

  function BaseOf(fam: Family): nat { if fam == FamilyDS3 then 4 else 3 }

  /** The plausible values of the first `n` fields of a table. */
  function TableValues(f: seq<byte>, base: nat, table: seq<Field>): map<Code, real> {
    if table == [] then map[]
    else
      var fld := table[|table| - 1];
      var v := FieldValue(f, base, fld);
      var before := TableValues(f, base, table[..|table| - 1]);
      if v.Some? && Sane(v.value) then before[fld.code := v.value] else before
  }

  /** What one received frame says on its own. */
  function DecodeFrame(fam: Family, f: seq<byte>): map<Code, real> {
    if !L2.ParseL2(f).Ok? then map[] else TableValues(f, BaseOf(fam), TableOf(fam, PageKey(fam, f)))
  }

  function DecodeFrames(fam: Family, frames: seq<seq<byte>>): map<Code, real> {
    if frames == [] then map[]
    else DecodeFrames(fam, frames[..|frames| - 1]) + DecodeFrame(fam, frames[|frames| - 1])
  }

  datatype Reading = Reading(values: map<Code, real>) | NoFields | UnsupportedFamily

  /** One page into the values read so far. */
  method DecodePage(f: seq<byte>, base: nat, table: seq<Field>, before: map<Code, real>)
    returns (values: map<Code, real>)
    ensures values == before + TableValues(f, base, table)
  {
    values := before;
    for k := 0 to |table|
      invariant values == before + TableValues(f, base, table[..k])
    {
      assert table[..k + 1][..k] == table[..k];
      var v := FieldValue(f, base, table[k]);
      if v.Some? && Sane(v.value) { values := values[table[k].code := v.value]; }
    }
    assert table[..|table|] == table;
  }

  method DecodeProtectionReply(model: byte, frames: seq<seq<byte>>) returns (r: Reading)
    ensures var fam := FamilyOf(model);
            r == if fam != FamilyDS3 && fam != FamilyQS1 then UnsupportedFamily
                 else if DecodeFrames(fam, frames) == map[] then NoFields
                 else Reading(DecodeFrames(fam, frames))
  {
    var fam := FamilyOf(model);
    if fam != FamilyDS3 && fam != FamilyQS1 { return UnsupportedFamily; }
    var values: map<Code, real> := map[];
    for i := 0 to |frames|
      invariant values == DecodeFrames(fam, frames[..i])
    {
      assert frames[..i + 1][..i] == frames[..i];
      var f := frames[i];
      if L2.ParseL2(f).Ok? {
        values := DecodePage(f, BaseOf(fam), TableOf(fam, PageKey(fam, f)), values);
      }
    }
    assert frames[..|frames|] == frames;
    r := if values == map[] then NoFields else Reading(values);
  }

  function CodesOf(table: seq<Field>): set<Code> {
    set i | 0 <= i < |table| :: table[i].code
  }

  /** A page yields only its own table's codes, each with a plausible value. */
  lemma {:induction false} TableValuesCodes(f: seq<byte>, base: nat, table: seq<Field>)
    ensures TableValues(f, base, table).Keys <= CodesOf(table)
    ensures forall c :: c in TableValues(f, base, table) ==> 0.0 <= TableValues(f, base, table)[c] <= 2000.0
  {
    if table != [] {
      TableValuesCodes(f, base, table[..|table| - 1]);
      assert CodesOf(table) == CodesOf(table[..|table| - 1]) + {table[|table| - 1].code};
    }
  }

  /** The field carries the code with a plausible value. */
  predicate Plausible(f: seq<byte>, base: nat, fld: Field, c: Code) {
    fld.code == c && FieldValue(f, base, fld).Some? && 0.0 <= FieldValue(f, base, fld).value <= 2000.0
  }

  /** Conversely, a page yields every code that one of its fields carries with a plausible value, and
      the value is that of the last such field. */
  lemma {:induction false} TableValuesExact(f: seq<byte>, base: nat, table: seq<Field>, c: Code)
    ensures c in TableValues(f, base, table) <==> exists i :: 0 <= i < |table| && Plausible(f, base, table[i], c)
    ensures c in TableValues(f, base, table) ==>
              exists i :: 0 <= i < |table| && Plausible(f, base, table[i], c)
                          && TableValues(f, base, table)[c] == FieldValue(f, base, table[i]).value
                          && forall j :: i < j < |table| ==> !Plausible(f, base, table[j], c)
  {
    hide FieldValue;
    if table != [] {
      var n := |table| - 1;
      TableValuesExact(f, base, table[..n], c);
      assert forall i :: 0 <= i < n ==> table[..n][i] == table[i];
      if Plausible(f, base, table[n], c) {
        assert TableValues(f, base, table)[c] == FieldValue(f, base, table[n]).value;
      } else {
        assert c in TableValues(f, base, table) <==> c in TableValues(f, base, table[..n]);
      }
    }
  }

  /** Which page of a family carries a code. */
  function PageOf(fam: Family, c: Code): byte {
    if fam == FamilyDS3 then
      match c
      case DA => PAGE_B case CV => PAGE_B case DC => PAGE_B case CC => PAGE_B case CB => PAGE_B
      case DD => PAGE_B case AB => PAGE_B case DI => PAGE_B case DH => PAGE_B
      case _ => PAGE_A
    else
      match c
      case BN => PAGE_B case BO => PAGE_B case BP => PAGE_B case BQ => PAGE_B case AB => PAGE_B
      case DD => PAGE_B case DA => PAGE_B case CV => PAGE_B case CC => PAGE_B case CB => PAGE_B
      case DC => PAGE_C case DH => PAGE_C case DI => PAGE_C
      case _ => QS1_PAGE_A
  }

  lemma TableOnItsPage(fam: Family, key: byte, i: nat)
    requires i < |TableOf(fam, key)|
    ensures PageOf(fam, TableOf(fam, key)[i].code) == key
  {
    hide PageOf;
    if fam == FamilyDS3 {
      if key == PAGE_A { Ds3PageACodes(i); } else { Ds3PageBCodes(i); }
    } else if key == QS1_PAGE_A {
      Qs1PageACodes(i);
    } else if key == PAGE_B {
      Qs1PageBCodes(i);
    } else {
      Qs1PageCCodes(i);
    }
  }

  lemma Ds3PageACodes(i: nat)
    requires i < |DS3_PAGE_A|
    ensures PageOf(FamilyDS3, DS3_PAGE_A[i].code) == PAGE_A
  {
  }

  lemma Ds3PageBCodes(i: nat)
    requires i < |DS3_PAGE_B|
    ensures PageOf(FamilyDS3, DS3_PAGE_B[i].code) == PAGE_B
  {
  }

  lemma Qs1PageACodes(i: nat)
    requires i < |QS1_TABLE_A|
    ensures PageOf(FamilyQS1, QS1_TABLE_A[i].code) == QS1_PAGE_A
  {
  }

  lemma Qs1PageBCodes(i: nat)
    requires i < |QS1_TABLE_B|
    ensures PageOf(FamilyQS1, QS1_TABLE_B[i].code) == PAGE_B
  {
  }

  lemma Qs1PageCCodes(i: nat)
    requires i < |QS1_TABLE_C|
    ensures PageOf(FamilyQS1, QS1_TABLE_C[i].code) == PAGE_C
  {
  }

  /** The per-page code tables of a family are disjoint. */
  lemma PagesDisjoint(fam: Family, k1: byte, k2: byte)
    requires k1 != k2
    ensures CodesOf(TableOf(fam, k1)) !! CodesOf(TableOf(fam, k2))
  {
    forall c | c in CodesOf(TableOf(fam, k1)) ensures c !in CodesOf(TableOf(fam, k2)) {
      var i :| 0 <= i < |TableOf(fam, k1)| && TableOf(fam, k1)[i].code == c;
      TableOnItsPage(fam, k1, i);
      if c in CodesOf(TableOf(fam, k2)) {
        var j :| 0 <= j < |TableOf(fam, k2)| && TableOf(fam, k2)[j].code == c;
        TableOnItsPage(fam, k2, j);
      }
    }
  }
}
