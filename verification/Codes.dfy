/** Grid-protection parameters, inverter families, and the physical kind of each parameter.
    A parameter is named by its two-letter code; the firmware's long name of a writable
    parameter is a one-to-one relabelling of it. */
module Codes {
  import opened Wrappers
  import opened Bytes

  datatype Code =
    | AB | AC | AD | AE | AF | AG | AH | AI | AJ | AK | AQ | AS | AT | AU | AV | AW | AX | AY | AZ
    | BA | BB | BC | BD | BE | BF | BG | BH | BI | BJ | BK | BL | BM | BN | BO | BP | BQ
    | CA | CB | CC | CG | CV | DA | DC | DD | DH | DI
    | Other(name: string)

  datatype Family = FamilyDS3 | FamilyQS1 | FamilyYC600 | FamilyYC1000 | FamilyQT2 | FamilyUnknown

  const MODEL_QS1: byte := 0x08
  const MODEL_QS1A: byte := 0x18
  const MODEL_DS3: byte := 0x20
  const MODEL_DS3H: byte := 0x21
  const MODEL_DS3L: byte := 0x22
  const MODEL_QS2: byte := 0x36

  function FamilyOf(model: byte): Family {
    if model == MODEL_DS3 || model == MODEL_DS3H || model == MODEL_DS3L || model == MODEL_QS2 then FamilyDS3
    else if model == MODEL_QS1 || model == MODEL_QS1A then FamilyQS1
    else if model == 0x05 || model == 0x07 || model == 0x17 then FamilyYC600
    else if model == 0x06 then FamilyYC1000
    else if model == 0x32 then FamilyQT2
    else FamilyUnknown
  }

  datatype Kind = Volt | Freq | Time | Slope | Mode | NotWritable

  /** The physical quantity of a writable parameter; NotWritable for codes with no long name. */
  function KindOf(c: Code): Kind {
    match c
    case AB => Volt case AC => Volt case AD => Volt case AH => Volt case AI => Volt case AQ => Volt case AY => Volt
    case AE => Freq case AF => Freq case AJ => Freq case AK => Freq case BP => Freq case BQ => Freq
    case CA => Freq case CB => Freq case CC => Freq case DH => Freq case DI => Freq
    case AG => Time case BB => Time case BC => Time case BD => Time case BE => Time
    case BH => Time case BI => Time case BJ => Time case BK => Time case CG => Time
    case DD => Slope
    case CV => Mode
    case _ => NotWritable
  }

  predicate HasLongName(c: Code) { !KindOf(c).NotWritable? }

  datatype Range = Range(min: real, max: real) {
    predicate Has(v: real) { min <= v <= max }
  }

  const VOLTS := Range(100.0, 600.0)
  const HERTZ := Range(40.0, 70.0)
  const SECONDS := Range(0.0, 1000.0)
  const SLOPES := Range(0.0, 200.0)

  /** The write-side safety envelope of a parameter; None for the mode enum. */
  function Envelope(c: Code): Option<Range> {
    match KindOf(c)
    case Volt => Some(VOLTS)
    case Freq => Some(HERTZ)
    case Time => Some(SECONDS)
    case Slope => Some(SLOPES)
    case _ => None
  }

  /** A Go conversion of a float to an integer. */
  function Trunc(v: real): int { if v >= 0.0 then v.Floor else -((-v).Floor) }

  /** Round half away from zero. */
  function Round(v: real): int { if v >= 0.0 then (v + 0.5).Floor else -((-v + 0.5).Floor) }
}
