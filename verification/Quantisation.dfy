/** Writing a value and reading it back: what the wire registers lose. */
module Quantisation {
  import opened Wrappers
  import opened Bytes
  import opened Codes
  import opened Protection
  import opened ProtectionRead

  /** The register a code is read back from; None where no reply page carries it. */
  function ReadFieldOf(fam: Family, c: Code): Option<(Width, Scale)> {
    match fam
    case FamilyDS3 =>
      (match KindOf(c)
       case Volt => Some((Two, if c == AB then DsVoltAvg else DsVolt))
       case Freq => if c == CA then None else Some((Two, DsHundredth))
       case Time =>
         if c == CG then None
         else if c == AG then Some((Two, DsRecovery))
         else Some((if c == BH || c == BI || c == BJ || c == BK then Three else Two, DsHundredth))
       case Slope => Some((Two, DsDroop))
       case Mode => Some((One, DsMode))
       case NotWritable => None)
    case FamilyQS1 =>
      (match KindOf(c)
       case Volt => Some(if c == AB then (Three, QsAvgOv) else (Two, QsVolt))
       case Freq => if c == CA then None else Some((Three, QsFreq))
       case Time => if c == CG then None else Some((Two, QsHundredth))
       case Slope => Some((Two, QsDroop))
       case _ => None)
    case _ => None
  }

  /** The field tables agree: where a writable code has a register, it is this one. */
  lemma TablesAgree(fam: Family, key: byte, i: nat)
    requires (fam == FamilyDS3 || fam == FamilyQS1) && i < |TableOf(fam, key)|
    requires HasLongName(TableOf(fam, key)[i].code)
    ensures Agrees(fam, TableOf(fam, key)[i])
  {
    if fam == FamilyDS3 {
      if key == PAGE_A { Ds3PageAAgrees(i); } else { Ds3PageBAgrees(i); }
    } else {
      if key == QS1_PAGE_A {
        Qs1TableAAgrees(i);
      } else if key == PAGE_B {
        Qs1TableBAgrees(i);
      } else {
        Qs1TableCAgrees(i);
      }
    }
  }

  predicate Agrees(fam: Family, f: Field) {
    HasLongName(f.code) ==> ReadFieldOf(fam, f.code) == if f.Register? then Some((f.width, f.scale)) else None
  }

  lemma Ds3PageAAgrees(i: nat)
    requires i < |DS3_PAGE_A|
    ensures Agrees(FamilyDS3, DS3_PAGE_A[i])
  {
    if i < 12 { Ds3PageAFirst(i); } else { Ds3PageARest(i); }
  }

  lemma Ds3PageAFirst(i: nat)
    requires i < 12
    ensures Agrees(FamilyDS3, DS3_PAGE_A[i])
  {
  }

  lemma Ds3PageARest(i: nat)
    requires 12 <= i < |DS3_PAGE_A|
    ensures Agrees(FamilyDS3, DS3_PAGE_A[i])
  {
  }

  lemma Ds3PageBAgrees(i: nat)
    requires i < |DS3_PAGE_B|
    ensures Agrees(FamilyDS3, DS3_PAGE_B[i])
  {
  }

  lemma Qs1TableAAgrees(i: nat)
    requires i < |QS1_TABLE_A|
    ensures Agrees(FamilyQS1, QS1_TABLE_A[i])
  {
    if i < 16 { Qs1TableAFirst(i); } else { Qs1TableARest(i); }
  }

  lemma Qs1TableAFirst(i: nat)
    requires i < 16
    ensures Agrees(FamilyQS1, QS1_TABLE_A[i])
  {
  }

  lemma Qs1TableARest(i: nat)
    requires 16 <= i < |QS1_TABLE_A|
    ensures Agrees(FamilyQS1, QS1_TABLE_A[i])
  {
  }

  lemma Qs1TableBAgrees(i: nat)
    requires i < |QS1_TABLE_B|
    ensures Agrees(FamilyQS1, QS1_TABLE_B[i])
  {
  }

  lemma Qs1TableCAgrees(i: nat)
    requires i < |QS1_TABLE_C|
    ensures Agrees(FamilyQS1, QS1_TABLE_C[i])
  {
  }

  /** Where the page that carries a readable code has it. */
  function FieldIndex(fam: Family, c: Code): nat {
    if fam == FamilyDS3 then
      match c
      case AI => 0 case AH => 1 case AD => 2 case AQ => 3 case AY => 4 case AC => 5 case AK => 6 case AJ => 7
      case AF => 8 case AE => 9 case BC => 10 case BB => 11 case BE => 12 case BD => 13 case BI => 14 case BH => 15
      case BK => 16 case BJ => 17 case BQ => 21 case BP => 22 case AG => 23
      case CV => 1 case CC => 3 case CB => 4 case DD => 5 case AB => 6 case DI => 7 case DH => 8
      case _ => 0
    else
      match c
      case AQ => 5 case AD => 6 case AC => 7 case AY => 8 case AJ => 11 case AK => 12 case AE => 13 case AF => 14
      case BB => 15 case BC => 16 case BD => 17 case BE => 18 case BH => 21 case BI => 22 case BJ => 23 case BK => 24
      case AG => 25 case AH => 27 case AI => 28
      case BP => 2 case BQ => 3 case AB => 4 case DD => 5 case CC => 8 case CB => 9
      case DH => 1 case DI => 2
      case _ => 0
  }

  /** Conversely, every code with a read field sits on its page, in that field's form. */
  lemma ReadFieldsAreOnPages(fam: Family, c: Code)
    requires ReadFieldOf(fam, c).Some?
    ensures OnItsPage(fam, c)
  {
    hide OnItsPage;
    match KindOf(c)
    case Volt => if fam == FamilyDS3 { Ds3VoltOnPage(c); } else { Qs1VoltOnPage(c); }
    case Freq => if fam == FamilyDS3 { Ds3FreqOnPage(c); } else { Qs1FreqOnPage(c); }
    case Time => if fam == FamilyDS3 { Ds3TimeOnPage(c); } else { Qs1TimeOnPage(c); }
    case _ => SlopeAndModeOnPage(fam, c);
  }

  predicate OnItsPage(fam: Family, c: Code) {
    var table, i := TableOf(fam, PageOf(fam, c)), FieldIndex(fam, c);
    && i < |table| && table[i].code == c && table[i].Register?
    && ReadFieldOf(fam, c) == Some((table[i].width, table[i].scale))
  }

  lemma VoltCodes(c: Code)
    requires KindOf(c).Volt?
    ensures c == AB || c == AI || c == AH || c == AD || c == AQ || c == AY || c == AC
  {
  }

  lemma Ds3VoltOnPage(c: Code)
    requires KindOf(c).Volt? && ReadFieldOf(FamilyDS3, c).Some?
    ensures OnItsPage(FamilyDS3, c)
  {
    VoltCodes(c);
    VoltRegisters(c, 1.0);
    hide KindOf, ReadFieldOf;
  }

  lemma Ds3FreqOnPage(c: Code)
    requires KindOf(c).Freq? && ReadFieldOf(FamilyDS3, c).Some?
    ensures OnItsPage(FamilyDS3, c)
  {
  }

  lemma Ds3TimeOnPage(c: Code)
    requires KindOf(c).Time? && ReadFieldOf(FamilyDS3, c).Some?
    ensures OnItsPage(FamilyDS3, c)
  {
  }

  lemma Qs1VoltOnPage(c: Code)
    requires KindOf(c).Volt? && ReadFieldOf(FamilyQS1, c).Some?
    ensures OnItsPage(FamilyQS1, c)
  {
    VoltCodes(c);
    VoltRegisters(c, 1.0);
    hide KindOf, ReadFieldOf;
  }

  lemma Qs1FreqOnPage(c: Code)
    requires KindOf(c).Freq? && ReadFieldOf(FamilyQS1, c).Some?
    ensures OnItsPage(FamilyQS1, c)
  {
  }

  lemma Qs1TimeOnPage(c: Code)
    requires KindOf(c).Time? && ReadFieldOf(FamilyQS1, c).Some?
    ensures OnItsPage(FamilyQS1, c)
  {
  }

  lemma SlopeAndModeOnPage(fam: Family, c: Code)
    requires (KindOf(c).Slope? || KindOf(c).Mode?) && ReadFieldOf(fam, c).Some?
    ensures OnItsPage(fam, c)
  {
    assert c == DD || c == CV;
  }

  /** What a register of this width holds after a write, as the reader sees it. */
  function AsRead(w: Width, wire: int): int {
    match w
    case One => wire % 0x100
    case Two => if wire % 0x10000 >= 0x8000 then wire % 0x10000 - 0x10000 else wire % 0x10000
    case Three => wire % 0x1000000
  }

  function WireOf(fam: Family, c: Code, v: real): int
    requires v > 0.0
  {
    if fam == FamilyDS3 then Ds3Wire(c, v) else Qs1Wire(c, v)
  }

  /** The value read back after writing `v`. */
  function ReadBack(fam: Family, c: Code, v: real): real
    requires v > 0.0 && ReadFieldOf(fam, c).Some?
  {
    var f := ReadFieldOf(fam, c).value;
    Scaled(f.1, AsRead(f.0, WireOf(fam, c, v)))
  }

  function Abs(x: real): real { if x < 0.0 then -x else x }

  function CodeTolerance(c: Code): real {
    match c
    case AE => 0.06 case AJ => 0.06 case AF => 0.06 case AK => 0.06 case BP => 0.06 case BQ => 0.06
    case DH => 0.06 case DI => 0.06 case CB => 0.06 case CC => 0.06 case CA => 0.06 case DC => 0.06
    case DD => 0.20
    case AC => 0.50 case AQ => 0.50 case AD => 0.50 case AY => 0.50 case AB => 0.50 case BN => 0.50 case BO => 0.50
    case BB => 0.06 case BD => 0.06 case BC => 0.06 case BE => 0.06 case BJ => 0.06 case BH => 0.06
    case BK => 0.06 case BI => 0.06 case AG => 0.06 case AS => 0.06
    case CG => 0.10
    case _ => 0.10
  }

  predicate WithinTolerance(c: Code, a: real, b: real) { Abs(a - b) <= CodeTolerance(c) }

  /** The tolerance by physical quantity, its bound included: 0.06 Hz and s, half a volt (a tenth for the
      two thresholds the table does not list), a fifth for the slope, a tenth for the rest. */
  lemma ToleranceByQuantity(c: Code, a: real, b: real)
    requires HasLongName(c)
    ensures WithinTolerance(c, a, b) <==>
              Abs(a - b) <= match KindOf(c)
                            case Freq => 0.06
                            case Time => if c == CG then 0.1 else 0.06
                            case Volt => if c == AH || c == AI then 0.1 else 0.5
                            case Slope => 0.2
                            case _ => 0.1
  {
  }

  // ------------------------------------------------------------ frequencies

  lemma FreqRegisters(c: Code, v: real)
    requires KindOf(c).Freq? && c != CA && v > 0.0
    ensures ReadFieldOf(FamilyDS3, c) == Some((Two, DsHundredth)) && Ds3Wire(c, v) == Trunc(v * 100.0)
    ensures ReadFieldOf(FamilyQS1, c) == Some((Three, QsFreq)) && Qs1Wire(c, v) == Trunc(QS1_FREQ_DIV / v)
  {
    hide KindOf;
  }

  lemma Ds3FreqBound(c: Code, v: real)
    requires KindOf(c).Freq? && c != CA && HERTZ.Has(v)
    ensures ReadFieldOf(FamilyDS3, c).Some? && v - 0.01 < ReadBack(FamilyDS3, c, v) <= v
  {
    hide KindOf, ReadFieldOf, Ds3Wire, Qs1Wire;
    FreqRegisters(c, v);
    var w := (v * 100.0).Floor;
    assert 4000 <= w <= 7000;
  }

  /** Dividing a floored quotient back overshoots by at most Hz^2 / (5e7 - Hz). */
  lemma DivideBack(v: real, w: int)
    requires HERTZ.Has(v) && w == (QS1_FREQ_DIV / v).Floor
    ensures 0 < w < 0x1000000
    ensures v <= QS1_FREQ_DIV / w as real <= v + v * v / (QS1_FREQ_DIV - v)
  {
    var q := QS1_FREQ_DIV / v;
    QuotientRange(v, q);
    var r := w as real;
    assert r <= q < r + 1.0;
    BackNotBelow(v, q, r, QS1_FREQ_DIV / r);
    OverTimes(v);
    assert QS1_FREQ_DIV / r * r == QS1_FREQ_DIV;
    BackNotAbove(v, q, r, QS1_FREQ_DIV / r, v + v * v / (QS1_FREQ_DIV - v));
  }

  lemma QuotientRange(v: real, q: real)
    requires HERTZ.Has(v) && q == QS1_FREQ_DIV / v
    ensures q * v == QS1_FREQ_DIV && 700_000.0 <= q <= 1_250_000.0
  {
    assert q * v == QS1_FREQ_DIV;
    if q < 700_000.0 {
      MulLess(q, 700_000.0, v);
    } else if q > 1_250_000.0 {
      MulLess(1_250_000.0, q, v);
    }
  }

  /** r <= q, so D / r >= D / q = v. */
  lemma BackNotBelow(v: real, q: real, r: real, back: real)
    requires v > 0.0 && 0.0 < r <= q && q * v == QS1_FREQ_DIV && back == QS1_FREQ_DIV / r
    ensures v <= back
  {
    assert back * r == QS1_FREQ_DIV;
    MulAtMost(r, q, v);
    LessByFactor(v, back, r);
  }

  /** r > q - 1 = (D - v) / v, so D / r is at most the bound. */
  lemma BackNotAbove(v: real, q: real, r: real, back: real, over: real)
    requires HERTZ.Has(v) && 0.0 < r && 1.0 < q < r + 1.0
    requires over * (QS1_FREQ_DIV - v) == v * QS1_FREQ_DIV
    ensures q * v == QS1_FREQ_DIV && back * r == QS1_FREQ_DIV ==> back <= over
  {
    if q * v != QS1_FREQ_DIV || back * r != QS1_FREQ_DIV { return; }
    assert (q - 1.0) * v == QS1_FREQ_DIV - v;
    MulAssoc(over, q - 1.0, v);
    CancelMul(over * (q - 1.0), QS1_FREQ_DIV, v);
    FactorPositive(over, QS1_FREQ_DIV - v);
    MulLess(q - 1.0, r, over);
    LessByFactor(back, over, r);
  }

  lemma FactorPositive(a: real, k: real)
    requires k > 0.0 && a * k > 0.0
    ensures a > 0.0
  {
    if a <= 0.0 { MulAtMost(a, 0.0, k); }
  }

  lemma MulAtMost(a: real, b: real, k: real)
    requires a <= b && k > 0.0
    ensures k * a <= k * b
  {
    if a < b { MulLess(a, b, k); }
  }

  lemma LessByFactor(a: real, b: real, k: real)
    requires a * k <= b * k && k > 0.0
    ensures a <= b
  {
    if b < a { MulLess(b, a, k); }
  }

  lemma MulLess(a: real, b: real, k: real)
    requires a < b && k > 0.0
    ensures a * k < b * k && k * a < k * b
  {
    assert (b - a) * k > 0.0;
  }

  lemma MulAssoc(a: real, b: real, c: real)
    ensures a * b * c == a * (b * c)
  {
  }

  lemma CancelMul(a: real, b: real, k: real)
    requires a * k == b * k && k > 0.0
    ensures a == b
  {
    if a < b { MulLess(a, b, k); }
    if b < a { MulLess(b, a, k); }
  }

  lemma OverTimes(v: real)
    requires HERTZ.Has(v)
    ensures (v + v * v / (QS1_FREQ_DIV - v)) * (QS1_FREQ_DIV - v) == v * QS1_FREQ_DIV
  {
    var d := QS1_FREQ_DIV - v;
    assert v * v / d * d == v * v;
    assert (v + v * v / d) * d == v * d + v * v / d * d;
    assert v * d + v * v == v * (d + v);
  }

  lemma Qs1FreqBound(c: Code, v: real)
    requires KindOf(c).Freq? && c != CA && HERTZ.Has(v)
    ensures ReadFieldOf(FamilyQS1, c).Some? && v <= ReadBack(FamilyQS1, c, v) <= v + v * v / (QS1_FREQ_DIV - v)
  {
    hide KindOf, ReadFieldOf, Ds3Wire, Qs1Wire;
    FreqRegisters(c, v);
    var q := QS1_FREQ_DIV / v;
    QuotientRange(v, q);
    DivideBack(v, q.Floor);
    assert WireOf(FamilyQS1, c, v) == q.Floor;
    assert AsRead(Three, q.Floor) == q.Floor;
  }

  /** The QS1 overshoot is below a ten-thousandth of a hertz over the whole envelope. */
  lemma OvershootSmall(v: real)
    requires HERTZ.Has(v)
    ensures v * v / (QS1_FREQ_DIV - v) <= 0.0001
  {
    var d := QS1_FREQ_DIV - v;
    var q := v * v / d;
    assert q * d == v * v;
    assert v * v <= 4900.0 by { if v < 70.0 { MulLess(v, 70.0, v); MulLess(v, 70.0, 70.0); } }
    if q > 0.0001 { MulLess(0.0001, q, d); }
  }

  // ------------------------------------------------------------ times

  /** One register step of a time parameter. */
  function TimeStep(fam: Family, c: Code): real { if fam == FamilyDS3 && c == AG then 0.02 else 0.01 }

  /** A time reads back within one step below the written value exactly when its register is
      not misread as negative; two-byte registers from 0x8000 on always are. */
  lemma TimeBound(fam: Family, c: Code, v: real)
    requires (fam == FamilyDS3 || fam == FamilyQS1) && KindOf(c).Time? && c != CG
    requires v > 0.0 && WireOf(fam, c, v) <= 0xFFFF
    ensures var rb := ReadBack(fam, c, v);
            && (v - TimeStep(fam, c) < rb <= v <==> WireOf(fam, c, v) < 0x8000 || ReadFieldOf(fam, c).value.0 == Three)
            && (rb < 0.0 <==> !(v - TimeStep(fam, c) < rb <= v))
  {
    hide *;
    TimeRegisters(fam, c, v);
    var f, step, w := ReadFieldOf(fam, c).value, TimeStep(fam, c), WireOf(fam, c, v);
    var raw, rb := AsRead(f.0, w), ReadBack(fam, c, v);
    TimeReadBack(fam, c, v);
    TimeWire(v, step, w);
    AsReadSmall(f.0, w);
    AsReadSmall(Two, w);
    TimeArith(v, step, w, raw, rb);
  }

  lemma TimeWire(v: real, step: real, w: int)
    requires (step == 0.01 || step == 0.02) && v > 0.0 && w == Trunc(v / step)
    ensures 0 <= w
  {
  }

  lemma AsReadSmall(width: Width, w: int)
    requires 0 <= w <= 0xFFFF && !width.One?
    ensures AsRead(width, w) == if width.Three? || w < 0x8000 then w else w - 0x10000
  {
  }

  lemma TimeReadBack(fam: Family, c: Code, v: real)
    requires (fam == FamilyDS3 || fam == FamilyQS1) && KindOf(c).Time? && c != CG && v > 0.0
    ensures ReadFieldOf(fam, c).Some?
    ensures ReadBack(fam, c, v) == AsRead(ReadFieldOf(fam, c).value.0, WireOf(fam, c, v)) as real * TimeStep(fam, c)
  {
    hide KindOf, ReadFieldOf, WireOf, Scaled, TimeStep, Trunc;
    TimeRegisters(fam, c, v);
  }

  lemma TimeArith(v: real, step: real, w: int, raw: int, rb: real)
    requires (step == 0.01 || step == 0.02) && v > 0.0 && w == Trunc(v / step) && w <= 0xFFFF
    requires rb == raw as real * step && (raw == w || raw == AsRead(Two, w))
    ensures v - step < rb <= v <==> raw == w
    ensures rb < 0.0 <==> raw != w
  {
    var q := v / step;
    assert q * step == v;
  }

  /** The two time scales: a fiftieth of a second for the DS3 recovery time, else a hundredth. */
  lemma TimeRegisters(fam: Family, c: Code, v: real)
    requires (fam == FamilyDS3 || fam == FamilyQS1) && KindOf(c).Time? && c != CG && v > 0.0
    ensures ReadFieldOf(fam, c).Some? && WireOf(fam, c, v) == Trunc(v / TimeStep(fam, c))
    ensures var f := ReadFieldOf(fam, c).value;
            && (f.0.Two? || f.0.Three?)
            && forall raw :: Scaled(f.1, raw) == raw as real * TimeStep(fam, c)
    ensures TimeStep(fam, c) == 0.01 || TimeStep(fam, c) == 0.02
  {
    hide KindOf;
  }

  // ------------------------------------------------------------ voltages

  lemma FloorIs(x: real, k: int)
    requires k as real <= x < k as real + 1.0
    ensures x.Floor == k
  {
  }

  /** Truncating volts / 0.268: the register lies within one 0.268 V step below. */
  lemma Ds3VoltRegister(v: real, w: int)
    requires VOLTS.Has(v) && w == (v / DS3_GRID_V).Floor
    ensures w as real * 0.268 <= v < w as real * 0.268 + 0.268
    ensures 373 <= w <= 2239
  {
    var q := v / DS3_GRID_V;
    assert q * 0.268 == v;
    assert w as real <= q < w as real + 1.0;
  }

  lemma VoltRegisters(c: Code, v: real)
    requires KindOf(c).Volt? && v > 0.0
    ensures ReadFieldOf(FamilyDS3, c) == Some((Two, if c == AB then DsVoltAvg else DsVolt))
    ensures ReadFieldOf(FamilyQS1, c) == Some(if c == AB then (Three, QsAvgOv) else (Two, QsVolt))
    ensures Ds3Wire(c, v) == Trunc(v / DS3_GRID_V)
    ensures Qs1Wire(c, v) == if c == AB then Trunc(v * QS1_AVG_OV) else Trunc(v * QS1_VOLT)
  {
    hide KindOf;
  }

  lemma Ds3VoltArith(n: int, w: int)
    requires 100 <= n <= 600 && w == (n as real / DS3_GRID_V).Floor
    ensures 0 < w < 0x8000 && Scaled(DsVolt, w) == n as real
  {
    Ds3VoltRegister(n as real, w);
    var x := w as real * 0.268 + 0.5;
    FloorIs(x, n);
    assert Scaled(DsVolt, w) == Trunc(x) as real;
  }

  lemma Ds3VoltExact(c: Code, n: int)
    requires KindOf(c).Volt? && c != AB && 100 <= n <= 600
    ensures ReadFieldOf(FamilyDS3, c).Some? && ReadBack(FamilyDS3, c, n as real) == n as real
  {
    hide KindOf, ReadFieldOf, Ds3Wire, Qs1Wire, Scaled;
    VoltRegisters(c, n as real);
    var q := n as real / DS3_GRID_V;
    assert q >= 0.0;
    Ds3VoltArith(n, q.Floor);
    assert AsRead(Two, q.Floor) == q.Floor;
  }

  lemma Qs1AverageArith(n: int, w: int)
    requires 100 <= n <= 600 && w == (n as real * QS1_AVG_OV).Floor
    ensures 0 < w < 0x1000000 && Scaled(QsAvgOv, w) == n as real
  {
    assert w as real <= n as real * 3196.8 < w as real + 1.0;
    var q := w / 600;
    assert 600 * q <= w < 600 * q + 600;
    var x := q as real / 1.3315 / 4.0;
    assert x * 5.326 == q as real;
    FloorIs(x + 0.5, n);
  }

  lemma Qs1VoltArith(n: int, w: int)
    requires 100 <= n <= 600 && w == (n as real * QS1_VOLT).Floor
    ensures 0 < w < 0x8000 && Scaled(QsVolt, w) == n as real
  {
    assert w as real <= n as real * 5.328 < w as real + 1.0;
    var x := w as real / 1.332 / 4.0;
    assert x * 5.328 == w as real;
    FloorIs(x + 0.5, n);
  }

  lemma Qs1VoltExact(c: Code, n: int)
    requires KindOf(c).Volt? && 100 <= n <= 600
    ensures ReadFieldOf(FamilyQS1, c).Some? && ReadBack(FamilyQS1, c, n as real) == n as real
  {
    hide KindOf, ReadFieldOf, Ds3Wire, Qs1Wire, Scaled;
    VoltRegisters(c, n as real);
    if c == AB {
      var w := (n as real * QS1_AVG_OV).Floor;
      Qs1AverageArith(n, w);
      assert AsRead(Three, w) == w;
    } else {
      var w := (n as real * QS1_VOLT).Floor;
      Qs1VoltArith(n, w);
      assert AsRead(Two, w) == w;
    }
  }

  /** The DS3 ten-minute average over-voltage truncates on the way back as well. */
  lemma Ds3AverageBound(v: real)
    requires VOLTS.Has(v)
    ensures v - 1.268 < ReadBack(FamilyDS3, AB, v) <= v
  {
    hide KindOf, ReadFieldOf, Ds3Wire, Qs1Wire, Scaled, AsRead;
    AverageIsVolt();
    VoltRegisters(AB, v);
    var w := (v / DS3_GRID_V).Floor;
    Ds3VoltRegister(v, w);
    AsReadSmall(Two, w);
    AverageScaled(w);
  }

  lemma AverageScaled(w: nat)
    ensures Scaled(DsVoltAvg, w) == (w as real * 0.268).Floor as real
  {
  }

  lemma AverageIsVolt()
    ensures KindOf(AB).Volt?
  {
  }

  /** A whole-volt average threshold confirms exactly when it is a multiple of 67 V; every
      other one reads back at least a volt low. */
  lemma Ds3AverageConfirmsIff(n: int)
    requires 100 <= n <= 600
    ensures WithinTolerance(AB, n as real, ReadBack(FamilyDS3, AB, n as real)) <==> n % 67 == 0
  {
    hide KindOf, ReadFieldOf, Ds3Wire, Qs1Wire;
    AverageIsVolt();
    VoltRegisters(AB, n as real);
    var w := (n as real / DS3_GRID_V).Floor;
    Ds3VoltRegister(n as real, w);
    assert AsRead(Two, w) == w;
    assert ReadBack(FamilyDS3, AB, n as real) == (w as real * 0.268).Floor as real;
    Ds3AverageArith(n, w);
  }

  lemma Ds3AverageArith(n: int, w: int)
    requires w as real * 0.268 <= n as real < w as real * 0.268 + 0.268
    ensures Abs(n as real - (w as real * 0.268).Floor as real) <= 0.5 <==> n % 67 == 0
  {
    var r := (w as real * 0.268).Floor;
    if n % 67 == 0 {
      var k := n / 67;
      assert (250 * k) as real * 0.268 == n as real;
      assert w == 250 * k;
      FloorIs(w as real * 0.268, n);
    } else if r == n {
      assert 67 * w == 250 * n;
      Coprime(n, w);
    } else {
      assert r <= n - 1;
    }
  }

  lemma Coprime(n: int, w: int)
    requires 67 * w == 250 * n
    ensures n % 67 == 0
  {
    // 250 * 63 = 15750 = 67 * 235 + 5, and 5 * 27 = 135 = 2 * 67 + 1
    var k := 63 * 27 * w - (235 * 27 + 2) * n;
    assert 67 * k == n;
  }

  // ------------------------------------------------------------ what a confirmation can rely on

  predicate Whole(v: real) { v == v.Floor as real }

  /** The parameters and values for which writing and reading back are close enough to confirm:
      every frequency, every time whose register does not read back negative, every whole volt
      (for the DS3 average over-voltage only multiples of 67), and the three DS3 modes that
      read back as themselves. The DS3 slope and the QS1 mode are not among them. */
  predicate Covered(fam: Family, c: Code, v: real) {
    && v > 0.0 && (Envelope(c).Some? ==> Envelope(c).value.Has(v))
    && (if fam == FamilyDS3 then Ds3Sub(c).Some? else fam == FamilyQS1 && Qs1Builder(c).Some?)
    && ReadFieldOf(fam, c).Some?
    && match KindOf(c)
       case Freq => true
       case Time => WireOf(fam, c, v) <= 0xFFFF && (WireOf(fam, c, v) < 0x8000 || ReadFieldOf(fam, c).value.0 == Three)
       case Volt => Whole(v) && (fam == FamilyDS3 && c == AB ==> v.Floor % 67 == 0)
       case Mode => v == 13.0 || v == 14.0 || v == 15.0
       case _ => false
  }

  lemma CoveredIsWhole(fam: Family, c: Code, v: real)
    requires KindOf(c).Volt? && Covered(fam, c, v)
    ensures v == v.Floor as real && 100 <= v.Floor <= 600 && (fam == FamilyDS3 || fam == FamilyQS1)
    ensures fam == FamilyDS3 && c == AB ==> v.Floor % 67 == 0
  {
    hide ReadFieldOf, WireOf, Ds3Sub, Qs1Builder;
  }

  lemma TolerancePositive(c: Code)
    ensures CodeTolerance(c) > 0.0
  {
  }

  lemma CoveredVolt(fam: Family, c: Code, v: real)
    requires KindOf(c).Volt? && Covered(fam, c, v)
    ensures WithinTolerance(c, v, ReadBack(fam, c, v)) && Sane(ReadBack(fam, c, v))
  {
    CoveredIsWhole(fam, c, v);
    hide ReadBack, KindOf, Covered, CodeTolerance;
    var n := v.Floor;
    TolerancePositive(c);
    if fam == FamilyQS1 {
      Qs1VoltExact(c, n);
    } else if c == AB {
      Ds3AverageConfirmsIff(n);
      Ds3AverageBound(v);
    } else {
      Ds3VoltExact(c, n);
    }
  }

  /** A covered write reads back within the code's tolerance and is not dropped as implausible. */
  lemma CoveredConfirms(fam: Family, c: Code, v: real)
    requires Covered(fam, c, v)
    ensures WithinTolerance(c, v, ReadBack(fam, c, v)) && Sane(ReadBack(fam, c, v))
  {
    hide ReadFieldOf, ReadBack, WireOf, WithinTolerance, Sane, Whole, Ds3Sub, Qs1Builder, KindOf;
    match KindOf(c)
    case Freq => CoveredFreq(fam, c, v);
    case Time => CoveredTime(fam, c, v);
    case Volt => CoveredVolt(fam, c, v);
    case Mode => CoveredMode(fam, c, v);
    case _ =>
  }

  lemma CoveredFreq(fam: Family, c: Code, v: real)
    requires KindOf(c).Freq? && Covered(fam, c, v)
    ensures WithinTolerance(c, v, ReadBack(fam, c, v)) && Sane(ReadBack(fam, c, v))
  {
    hide ReadFieldOf, ReadBack, Ds3Sub, Qs1Builder, KindOf, CodeTolerance;
    FreqEnvelope(c);
    NotCA(fam, c);
    ToleranceFloor(c);
    if fam == FamilyDS3 {
      Ds3FreqBound(c, v);
    } else {
      Qs1FreqBound(c, v);
      OvershootSmall(v);
    }
  }

  lemma FreqEnvelope(c: Code)
    requires KindOf(c).Freq?
    ensures Envelope(c) == Some(HERTZ)
  {
    hide KindOf;
  }

  lemma NotCA(fam: Family, c: Code)
    requires ReadFieldOf(fam, c).Some?
    ensures c != CA
  {
  }

  lemma CoveredMode(fam: Family, c: Code, v: real)
    requires KindOf(c).Mode? && Covered(fam, c, v)
    ensures WithinTolerance(c, v, ReadBack(fam, c, v)) && Sane(ReadBack(fam, c, v))
  {
    assert c == CV;
    assert ReadBack(fam, c, v) == v;
  }

  lemma ToleranceFloor(c: Code)
    ensures CodeTolerance(c) >= 0.06
  {
  }

  lemma CoveredTime(fam: Family, c: Code, v: real)
    requires KindOf(c).Time? && Covered(fam, c, v)
    ensures WithinTolerance(c, v, ReadBack(fam, c, v)) && Sane(ReadBack(fam, c, v))
  {
    TimeBound(fam, c, v);
    assert WireOf(fam, c, v) >= 0;
  }
}
