/** Set-power frames: the per-panel output cap on the wire, and back. */
module SetPower {
  import opened Wrappers
  import opened Bytes
  import opened Codes
  import opened Protection
  import opened ProtectionRead
  import opened Quantisation
  import L2

  const C3_BROADCAST: byte := 0xA3
  const MIN_PANEL: int := 20
  const MAX_PANEL: int := 500
  const DSP_SCALE: int := 7395
  const REG_MAX_DS3: int := 0x474C

  datatype Encoded = Frame(frame: seq<byte>) | WattsOutOfRange | UnsupportedModel

  predicate Allowed(watts: int) { MIN_PANEL <= watts <= MAX_PANEL }

  /** The output-cap register of a read-back family. */
  function CapRegister(fam: Family, watts: nat): nat {
    if fam == FamilyDS3 then
      assert watts as real / 0.06027 >= 0.0;
      var v := Round(watts as real / 0.06027);
      if v > REG_MAX_DS3 then REG_MAX_DS3 else v
    else watts * DSP_SCALE / 256
  }

  function Ds3Body(reg: nat): seq<byte> { [SUB_MAX_POWER_DS3, 0, 0, reg / 256 % 256, reg % 256] }

  function Qs1CapBody(reg: nat): seq<byte> { [SUB_MAX_POWER_QS1, 2, reg / 256 % 256, reg % 256, 0] }

  function C3Register(model: byte, watts: nat): nat {
    var v := watts * DSP_SCALE / 0x4000;
    if model == 0x07 || model == 0x17 then v / 4 else v
  }

  function EncodeSetPower(model: byte, watts: nat, broadcast: bool): Encoded {
    match FamilyOf(model)
    case FamilyDS3 =>
      if !Allowed(watts) then WattsOutOfRange
      else Frame(L2.Wire(if broadcast then DS3_BROADCAST else DS3_UNICAST, Ds3Body(CapRegister(FamilyDS3, watts))))
    case FamilyQS1 =>
      if !Allowed(watts) then WattsOutOfRange
      else Frame(L2.Wire(if broadcast then QS1_BROADCAST else QS1_UNICAST, Qs1CapBody(CapRegister(FamilyQS1, watts))))
    case FamilyQT2 => UnsupportedModel
    case FamilyUnknown => UnsupportedModel
    case _ =>
      if !Allowed(watts) then WattsOutOfRange
      else Frame(L2.Wire(if broadcast then C3_BROADCAST else C3_UNICAST, [C3Register(model, watts) % 256, 0, 0, 0, 0]))
  }

  datatype Decoded = Decoded(fam: Family, watts: real, broadcast: bool)

  function DecodeSetPower(f: seq<byte>): Option<Decoded> {
    if |f| < 9 then None
    else if (f[3] == DS3_UNICAST || f[3] == DS3_BROADCAST) && f[4] == SUB_MAX_POWER_DS3 then
      Some(Decoded(FamilyDS3, Scaled(DsMaxPower, 256 * (f[7] as int) + f[8]), f[3] == DS3_BROADCAST))
    else if (f[3] == QS1_UNICAST || f[3] == QS1_BROADCAST) && f[4] == SUB_MAX_POWER_QS1 then
      Some(Decoded(FamilyQS1, Scaled(QsMaxPower, 256 * (f[6] as int) + f[7]), f[3] == QS1_BROADCAST))
    else None
  }

  function CapScale(fam: Family): Scale { if fam == FamilyDS3 then DsMaxPower else QsMaxPower }

  /** The register stays clear of both the saturation limit and the sign bit, and its native
      value lies within 0.04 W of the wattage. */
  lemma CapRegisterClose(fam: Family, watts: nat)
    requires Allowed(watts) && (fam == FamilyDS3 || fam == FamilyQS1)
    ensures 0 < CapRegister(fam, watts) < REG_MAX_DS3
    ensures Abs(Scaled(CapScale(fam), CapRegister(fam, watts)) - watts as real) < 0.04
  {
    if fam == FamilyDS3 {
      var q := watts as real / 0.06027;
      assert q * 0.06027 == watts as real;
      var r := (q + 0.5).Floor;
      assert r as real <= q + 0.5 < r as real + 1.0;
      assert CapRegister(fam, watts) == r;
    } else {
      var r := watts * DSP_SCALE / 256;
      assert 256 * r <= watts * DSP_SCALE < 256 * r + 256;
      var back := r as real * 256.0 / 7395.0;
      assert back * 7395.0 == r as real * 256.0;
    }
  }

  lemma RoundsTo(x: real, watts: nat)
    requires watts > 0 && Abs(x - watts as real) < 0.04
    ensures Round(x) == watts
  {
    FloorIs(x + 0.5, watts);
  }

  lemma CapRegisterRounds(fam: Family, watts: nat)
    requires Allowed(watts) && (fam == FamilyDS3 || fam == FamilyQS1)
    ensures 0 < CapRegister(fam, watts) < REG_MAX_DS3
    ensures Round(Scaled(CapScale(fam), CapRegister(fam, watts))) == watts
  {
    hide CapRegister, Scaled, Round;
    CapRegisterClose(fam, watts);
    RoundsTo(Scaled(CapScale(fam), CapRegister(fam, watts)), watts);
  }

  lemma Ds3FrameDecodes(reg: nat, broadcast: bool)
    requires reg < 0x10000
    ensures var f := L2.Wire(if broadcast then DS3_BROADCAST else DS3_UNICAST, Ds3Body(reg));
            && Protection.WellFormed(f)
            && DecodeSetPower(f) == Some(Decoded(FamilyDS3, Scaled(DsMaxPower, reg), broadcast))
            && (!broadcast ==> IsSetPower(f) && !IsProtectionWrite(f))
  {
    hide L2.Wire, Scaled, Protection.WellFormed;
    FrameBytes(if broadcast then DS3_BROADCAST else DS3_UNICAST, Ds3Body(reg));
  }

  lemma Qs1FrameDecodes(reg: nat, broadcast: bool)
    requires reg < 0x10000
    ensures var f := L2.Wire(if broadcast then QS1_BROADCAST else QS1_UNICAST, Qs1CapBody(reg));
            && Protection.WellFormed(f)
            && DecodeSetPower(f) == Some(Decoded(FamilyQS1, Scaled(QsMaxPower, reg), broadcast))
            && (!broadcast ==> IsSetPower(f) && !IsProtectionWrite(f))
  {
    hide L2.Wire, Scaled, Protection.WellFormed;
    FrameBytes(if broadcast then QS1_BROADCAST else QS1_UNICAST, Qs1CapBody(reg));
  }

  /** Every frame for an allowed wattage, on either read-back family, unicast or broadcast,
      decodes back to its family, to its addressing, and to exactly that wattage; the unicast
      one is recognised as set-power and never as a protection write. */
  lemma SetPowerRoundTrip(model: byte, watts: nat, broadcast: bool)
    requires FamilyOf(model) == FamilyDS3 || FamilyOf(model) == FamilyQS1
    ensures EncodeSetPower(model, watts, broadcast).Frame? <==> 20 <= watts <= 500
    ensures 20 <= watts <= 500 ==>
              var f := EncodeSetPower(model, watts, broadcast).frame;
              var d := DecodeSetPower(f);
              && Protection.WellFormed(f)
              && d.Some? && d.value.fam == FamilyOf(model) && d.value.broadcast == broadcast
              && Round(d.value.watts) == watts
              && (!broadcast ==> IsSetPower(f) && !IsProtectionWrite(f))
  {
    hide FamilyOf, CapRegister, Scaled, Round, L2.Wire;
    hide Protection.WellFormed, DecodeSetPower, IsSetPower, IsProtectionWrite;
    if Allowed(watts) {
      CapRegisterRounds(FamilyOf(model), watts);
      Ds3FrameDecodes(CapRegister(FamilyOf(model), watts), broadcast);
      Qs1FrameDecodes(CapRegister(FamilyOf(model), watts), broadcast);
    }
  }

  lemma FrameBytes(cmd: byte, body: seq<byte>)
    requires |body| == 5
    ensures var f := L2.Wire(cmd, body);
            && |f| == 13 && Protection.WellFormed(f)
            && f[3] == cmd && f[4] == body[0] && f[5] == body[1]
            && f[6] == body[2] && f[7] == body[3] && f[8] == body[4]
  {
    BodyOfFive(cmd, body);
  }

  // ------------------------------------------------------------ reading the cap back

  /** A field with a code no later field of the table repeats decides that code's value. */
  lemma {:induction false} LastFieldWins(f: seq<byte>, base: nat, table: seq<Field>, i: nat)
    requires i < |table| && forall j :: i < j < |table| ==> table[j].code != table[i].code
    requires FieldValue(f, base, table[i]).Some? && Sane(FieldValue(f, base, table[i]).value)
    ensures table[i].code in TableValues(f, base, table)
    ensures TableValues(f, base, table)[table[i].code] == FieldValue(f, base, table[i]).value
  {
    hide FieldValue, Sane;
    var n := |table| - 1;
    if i < n {
      assert table[..n][i] == table[i];
      LastFieldWins(f, base, table[..n], i);
    }
  }

  /** Where a family's pages hold the cap: the page, and the field's index in its table. */
  function CapIndex(fam: Family): nat { if fam == FamilyDS3 then 0 else 6 }

  function CapOffset(fam: Family): nat { if fam == FamilyDS3 then 0x03 else 0x47 }

  lemma CapField(fam: Family)
    requires fam == FamilyDS3 || fam == FamilyQS1
    ensures var table := TableOf(fam, PAGE_B);
            && CapIndex(fam) < |table|
            && table[CapIndex(fam)] == Register(DA, CapOffset(fam), Two, CapScale(fam))
            && forall j :: CapIndex(fam) < j < |table| ==> table[j].code != DA
  {
  }

  /** A page that carries the register a set-power frame wrote reads back as DA within 0.04 W
      of the wattage. */
  lemma CapReadsBack(fam: Family, f: seq<byte>, watts: nat)
    requires Allowed(watts) && (fam == FamilyDS3 || fam == FamilyQS1)
    requires L2.ParseL2(f).Ok? && PageKey(fam, f) == PAGE_B && BaseOf(fam) + CapOffset(fam) + 2 <= |f|
    requires ReadBE(f, BaseOf(fam) + CapOffset(fam), 2) == CapRegister(fam, watts)
    ensures DA in DecodeFrame(fam, f)
    ensures Abs(DecodeFrame(fam, f)[DA] - watts as real) < 0.04
  {
    CapField(fam);
    CapRegisterClose(fam, watts);
    hide Scaled, CapRegister, TableOf, L2.ParseL2, ReadBE, PageKey, TableValues;
    LastFieldWins(f, BaseOf(fam), TableOf(fam, PAGE_B), CapIndex(fam));
  }
}

/** The output-cap loop: remember what each inverter was told, compare every read-back with it,
    adopt a cap nobody recorded, and re-send a drifted one at a bounded rate. */
module PowerCap {
  import opened Wrappers
  import opened Bytes
  import opened Codes
  import opened Protection
  import opened ProtectionRead
  import opened Quantisation
  import opened SetPower
  import L2

  type Uid = string

  const DRIFT_TOLERANCE := 2.0
  const REASSERT_INTERVAL: int := 600_000   // milliseconds

  /** A routed envelope, as far as the cap loop looks at it. */
  datatype Envelope = Send(peer: Uid, frame: seq<byte>) | Broadcast(frame: seq<byte>) | OtherBody

  datatype Entry =
    | Attempt(uid: Uid, at: int, readback: real, intent: int, frame: seq<byte>, routed: bool)
    | Forgot(uid: Uid)   // the throttle of a removed inverter

  /** Recorded caps, the last re-assert time per inverter, and the attempts so far. */
  datatype State = State(intents: map<Uid, int>, reassertAt: map<Uid, int>, log: seq<Entry>)

  /** The store and the router during one page: can the intent be read, can an adopted one be
      written, is a route configured, does the send go through. */
  datatype Io = Io(readable: bool, writable: bool, configured: bool, routes: bool)

  // ------------------------------------------------------------ recording

  /** Whom a decoded set-power frame addresses: the family's members for a broadcast opcode
      (nobody when they cannot be listed), else the peer of a Send. */
  function Targets(env: Envelope, d: Decoded, members: Family -> Option<seq<Uid>>): seq<Uid> {
    if d.broadcast then (match members(d.fam) case Some(us) => us case None => [])
    else if env.Send? then [env.peer]
    else []
  }

  function Recorded(intents: map<Uid, int>, uids: seq<Uid>, watts: int, stores: Uid -> bool): map<Uid, int> {
    if uids == [] then intents
    else
      var before, u := Recorded(intents, uids[..|uids| - 1], watts, stores), uids[|uids| - 1];
      if u != "" && stores(u) then before[u := watts] else before
  }

  function RecordIntent(intents: map<Uid, int>, env: Envelope, members: Family -> Option<seq<Uid>>, stores: Uid -> bool)
    : map<Uid, int>
  {
    if env.OtherBody? || DecodeSetPower(env.frame).None? then intents
    else
      var d := DecodeSetPower(env.frame).value;
      Recorded(intents, Targets(env, d, members), Round(d.watts), stores)
  }

  // ------------------------------------------------------------ checking

  function ToUint16(n: int): nat { n % 0x10000 }

  predicate Throttled(reassertAt: map<Uid, int>, uid: Uid, now: int) {
    uid in reassertAt && now - reassertAt[uid] < REASSERT_INTERVAL
  }

  function CheckDrift(s: State, uid: Uid, model: byte, page: map<Code, real>, now: int, io: Io): State {
    if DA !in page || !io.readable then s
    else if uid !in s.intents then
      if Allowed(Round(page[DA])) && io.writable then s.(intents := s.intents[uid := Round(page[DA])]) else s
    else
      var intent := s.intents[uid];
      var e := EncodeSetPower(model, ToUint16(intent), false);
      if Abs(page[DA] - intent as real) <= DRIFT_TOLERANCE then s
      else if !io.configured || !e.Frame? || Throttled(s.reassertAt, uid, now) then s
      else s.(reassertAt := s.reassertAt[uid := now],
              log := s.log + [Attempt(uid, now, page[DA], intent, e.frame, io.routes)])
  }

  /** What a single reply page decodes to; nothing for a family without read-back. */
  function PageValues(model: byte, frame: seq<byte>): map<Code, real> {
    if FamilyOf(model) == FamilyDS3 || FamilyOf(model) == FamilyQS1 then DecodeFrame(FamilyOf(model), frame) else map[]
  }

  class CapKeeper {
    var intents: map<Uid, int>
    var reassertAt: map<Uid, int>
    var log: seq<Entry>

    ghost function View(): State
      reads this
    {
      State(intents, reassertAt, log)
    }

    constructor ()
      ensures View() == State(map[], map[], [])
    {
      intents, reassertAt, log := map[], map[], [];
    }

    method RecordCapIntent(env: Envelope, members: Family -> Option<seq<Uid>>, stores: Uid -> bool)
      modifies `intents
      ensures intents == RecordIntent(old(intents), env, members, stores)
    {
      if env.OtherBody? { return; }
      var d := DecodeSetPower(env.frame);
      if d.None? { return; }
      var uids := Targets(env, d.value, members);
      var w := Round(d.value.watts);
      for i := 0 to |uids|
        invariant intents == Recorded(old(intents), uids[..i], w, stores)
      {
        assert uids[..i + 1][..i] == uids[..i];
        if uids[i] != "" && stores(uids[i]) { intents := intents[uids[i] := w]; }
      }
      assert uids[..|uids|] == uids;
    }

    method CheckCapDrift(uid: Uid, model: byte, page: map<Code, real>, now: int, io: Io)
      modifies this
      ensures View() == CheckDrift(old(View()), uid, model, page, now, io)
    {
      if DA !in page || !io.readable { return; }
      if uid !in intents {
        var w := Round(page[DA]);
        if !Allowed(w) { return; }
        if io.writable { intents := intents[uid := w]; }
        return;
      }
      var intent := intents[uid];
      if Abs(page[DA] - intent as real) <= DRIFT_TOLERANCE { return; }
      if !io.configured { return; }
      var e := EncodeSetPower(model, ToUint16(intent), false);
      if !e.Frame? { return; }
      if uid in reassertAt && now - reassertAt[uid] < REASSERT_INTERVAL { return; }
      reassertAt := reassertAt[uid := now];
      log := log + [Attempt(uid, now, page[DA], intent, e.frame, io.routes)];
    }

    /** The inverter's inventory rows are deleted. */
    method ForgetIntent(uid: Uid)
      modifies `intents
      ensures intents == old(intents) - {uid}
    {
      intents := intents - {uid};
    }

    /** The ingestor is told that the inverter is gone. */
    method ForgetThrottle(uid: Uid)
      modifies `reassertAt, `log
      ensures reassertAt == old(reassertAt) - {uid} && log == old(log) + [Forgot(uid)]
    {
      reassertAt := reassertAt - {uid};
      log := log + [Forgot(uid)];
    }
  }

  // ------------------------------------------------------------ one event

  lemma {:induction false} RecordedAt(intents: map<Uid, int>, uids: seq<Uid>, watts: int, stores: Uid -> bool, u: Uid)
    ensures var r := Recorded(intents, uids, watts, stores);
            if u in uids && u != "" && stores(u) then u in r && r[u] == watts
            else (u in r <==> u in intents) && (u in r ==> r[u] == intents[u])
  {
    if uids != [] { RecordedAt(intents, uids[..|uids| - 1], watts, stores, u); }
  }

  /** A set-power frame for any allowed wattage makes exactly that wattage the intent of exactly
      the inverters it addresses, and leaves every other intent alone. */
  lemma RoutedFrameSetsIntent(intents: map<Uid, int>, env: Envelope, model: byte, watts: nat, broadcast: bool,
                              members: Family -> Option<seq<Uid>>, stores: Uid -> bool, u: Uid)
    requires FamilyOf(model) == FamilyDS3 || FamilyOf(model) == FamilyQS1
    requires Allowed(watts) && !env.OtherBody? && env.frame == EncodeSetPower(model, watts, broadcast).frame
    ensures var after := RecordIntent(intents, env, members, stores);
            var addressed := if broadcast then members(FamilyOf(model)).Some? && u in members(FamilyOf(model)).value
                             else env.Send? && u == env.peer;
            if addressed && u != "" && stores(u) then u in after && after[u] == watts
            else (u in after <==> u in intents) && (u in after ==> after[u] == intents[u])
  {
    hide FamilyOf, EncodeSetPower, DecodeSetPower, Recorded, Round;
    hide Protection.WellFormed, IsSetPower, IsProtectionWrite;
    SetPowerRoundTrip(model, watts, broadcast);
    var d := DecodeSetPower(env.frame).value;
    RecordedAt(intents, Targets(env, d, members), watts, stores, u);
  }

  /** A page carrying the register the cap was written to never counts as drift. */
  lemma OwnReadBackIsNoDrift(s: State, uid: Uid, model: byte, frame: seq<byte>, now: int, io: Io)
    requires var fam := FamilyOf(model);
             && (fam == FamilyDS3 || fam == FamilyQS1)
             && uid in s.intents && Allowed(s.intents[uid])
             && L2.ParseL2(frame).Ok? && PageKey(fam, frame) == PAGE_B && BaseOf(fam) + CapOffset(fam) + 2 <= |frame|
             && ReadBE(frame, BaseOf(fam) + CapOffset(fam), 2) == CapRegister(fam, s.intents[uid])
    ensures DA in PageValues(model, frame)
    ensures CheckDrift(s, uid, model, PageValues(model, frame), now, io) == s
  {
    hide FamilyOf, EncodeSetPower, CapRegister, DecodeFrame, ReadBE;
    CapReadsBack(FamilyOf(model), frame, s.intents[uid]);
  }

  /** Adoption never overwrites a recorded intent, and adopts only an allowed wattage; a drifted
      read-back never changes one either. */
  lemma PageKeepsIntents(s: State, uid: Uid, model: byte, page: map<Code, real>, now: int, io: Io, u: Uid)
    ensures var t := CheckDrift(s, uid, model, page, now, io);
            if u in s.intents then u in t.intents && t.intents[u] == s.intents[u]
            else u in t.intents <==> u == uid && DA in page && io.readable && io.writable && Allowed(Round(page[DA]))
  {
    hide EncodeSetPower, Round;
  }

  // ------------------------------------------------------------ whole runs

  datatype Event =
    | Routed(env: Envelope, members: Family -> Option<seq<Uid>>, stores: Uid -> bool)
    | Page(uid: Uid, model: byte, frame: seq<byte>, now: int, io: Io)
    | RowsDeleted(uid: Uid)     // the store drops a removed inverter's intent
    | CachesDropped(uid: Uid)   // the ingestor drops its throttle

  function Next(s: State, e: Event): State {
    match e
    case Routed(env, members, stores) => s.(intents := RecordIntent(s.intents, env, members, stores))
    case Page(uid, model, frame, now, io) => CheckDrift(s, uid, model, PageValues(model, frame), now, io)
    case RowsDeleted(uid) => s.(intents := s.intents - {uid})
    case CachesDropped(uid) => s.(reassertAt := s.reassertAt - {uid}, log := s.log + [Forgot(uid)])
  }

  function Run(es: seq<Event>): State {
    if es == [] then State(map[], map[], []) else Next(Run(es[..|es| - 1]), es[|es| - 1])
  }

  /** What an inverter is meant to hold, seen from its own events only: the last cap routed to
      it, else the first allowed one read back; nothing once its rows are deleted. */
  function Meant(es: seq<Event>, u: Uid): Option<int> {
    if es == [] then None
    else
      var before := Meant(es[..|es| - 1], u);
      match es[|es| - 1]
      case Routed(env, members, stores) =>
        if !env.OtherBody? && DecodeSetPower(env.frame).Some? && u != "" && stores(u)
           && u in Targets(env, DecodeSetPower(env.frame).value, members)
        then Some(Round(DecodeSetPower(env.frame).value.watts)) else before
      case Page(uid, model, frame, _, io) =>
        var page := PageValues(model, frame);
        if before.None? && uid == u && DA in page && io.readable && io.writable && Allowed(Round(page[DA]))
        then Some(Round(page[DA])) else before
      case RowsDeleted(uid) => if uid == u then None else before
      case CachesDropped(_) => before
  }

  lemma {:induction false} IntentIsMeant(es: seq<Event>, u: Uid)
    ensures Meant(es, u) == if u in Run(es).intents then Some(Run(es).intents[u]) else None
  {
    hide DecodeSetPower, PageValues, Round, Targets, CheckDrift, Recorded;
    if es != [] {
      var s, e := Run(es[..|es| - 1]), es[|es| - 1];
      IntentIsMeant(es[..|es| - 1], u);
      match e
      case Routed(env, members, stores) =>
        if !env.OtherBody? && DecodeSetPower(env.frame).Some? {
          var d := DecodeSetPower(env.frame).value;
          RecordedAt(s.intents, Targets(env, d, members), Round(d.watts), stores, u);
        }
      case Page(uid, model, frame, now, io) =>
        PageKeepsIntents(s, uid, model, PageValues(model, frame), now, io, u);
        AdoptedValue(s, uid, model, PageValues(model, frame), now, io);
      case _ =>
    }
  }

  lemma AdoptedValue(s: State, uid: Uid, model: byte, page: map<Code, real>, now: int, io: Io)
    ensures var t := CheckDrift(s, uid, model, page, now, io);
            uid !in s.intents && uid in t.intents ==> DA in page && t.intents[uid] == Round(page[DA])
  {
    hide EncodeSetPower, Round;
  }

  /** A decoded cap, like an adopted one, survives the sixteen-bit conversion on its way out. */
  lemma {:induction false} MeantFits(es: seq<Event>, u: Uid)
    ensures Meant(es, u).Some? ==> 0 <= Meant(es, u).value < 0x10000
  {
    hide DecodeSetPower, PageValues, Round, Targets;
    if es != [] {
      MeantFits(es[..|es| - 1], u);
      var e := es[|es| - 1];
      if e.Routed? && !e.env.OtherBody? { DecodedFits(e.env.frame); }
    }
  }

  lemma DecodedFits(f: seq<byte>)
    ensures DecodeSetPower(f).Some? ==> 0 <= Round(DecodeSetPower(f).value.watts) < 0x10000
  {
    if DecodeSetPower(f).Some? {
      var raw := if DecodeSetPower(f).value.fam == FamilyDS3
      then 256 * (f[7] as int) + f[8] else 256 * (f[6] as int) + f[7];
      assert 0 <= raw < 0x10000;
      NativeFits(DecodeSetPower(f).value.fam, raw);
    }
  }

  lemma NativeFits(fam: Family, raw: nat)
    requires raw < 0x10000
    ensures 0 <= Round(Scaled(CapScale(fam), raw)) < 0x10000
  {
    assert 0.0 <= Scaled(CapScale(fam), raw) <= 4000.0;
  }

  lemma IntentsFit(es: seq<Event>)
    ensures forall u :: u in Run(es).intents ==> 0 <= Run(es).intents[u] < 0x10000
  {
    hide Run, Meant;
    forall u | u in Run(es).intents ensures 0 <= Run(es).intents[u] < 0x10000 {
      IntentIsMeant(es, u);
      MeantFits(es, u);
    }
  }

  /** The last attempt to an inverter since it was last forgotten. */
  function LastAttempt(log: seq<Entry>, u: Uid): Option<int> {
    if log == [] then None
    else
      var e := log[|log| - 1];
      if e.uid == u then (if e.Attempt? then Some(e.at) else None) else LastAttempt(log[..|log| - 1], u)
  }

  ghost predicate ThrottleMatchesLog(s: State) {
    forall u :: LastAttempt(s.log, u) == if u in s.reassertAt then Some(s.reassertAt[u]) else None
  }

  /** Each attempt comes at least the interval after the previous one to the same inverter. */
  ghost predicate Spaced(log: seq<Entry>) {
    forall j :: 0 <= j < |log| && log[j].Attempt? ==> SpacedAt(log, j)
  }

  predicate SpacedAt(log: seq<Entry>, j: nat)
    requires j < |log| && log[j].Attempt?
  {
    var before := LastAttempt(log[..j], log[j].uid);
    before.Some? ==> log[j].at - before.value >= REASSERT_INTERVAL
  }

  /** An attempt's frame is a unicast set-power frame for its intent, sent because the read-back
      was off by more than the tolerance. */
  ghost predicate Honest(e: Entry) {
    e.Attempt? ==>
      var d := DecodeSetPower(e.frame);
      && Abs(e.readback - e.intent as real) > DRIFT_TOLERANCE
      && d.Some? && !d.value.broadcast && Round(d.value.watts) == e.intent
      && IsSetPower(e.frame) && !IsProtectionWrite(e.frame)
  }

  lemma EntryAppended(s: State, e: Entry)
    requires Spaced(s.log) && ThrottleMatchesLog(s)
    requires e.Attempt? ==> !Throttled(s.reassertAt, e.uid, e.at)
    ensures Spaced(s.log + [e])
    ensures forall u :: LastAttempt(s.log + [e], u) ==
              if u == e.uid then (if e.Attempt? then Some(e.at) else None) else LastAttempt(s.log, u)
  {
    var log := s.log + [e];
    assert log[..|s.log|] == s.log;
    forall j | 0 <= j < |log| && log[j].Attempt? ensures SpacedAt(log, j) {
      if j < |s.log| {
        assert SpacedAt(s.log, j);
        assert log[..j] == s.log[..j];
      }
    }
  }

  lemma PageKeepsLog(s: State, uid: Uid, model: byte, frame: seq<byte>, now: int, io: Io)
    requires forall u :: u in s.intents ==> 0 <= s.intents[u] < 0x10000
    requires ThrottleMatchesLog(s) && Spaced(s.log) && forall e :: e in s.log ==> Honest(e)
    ensures var t := CheckDrift(s, uid, model, PageValues(model, frame), now, io);
            ThrottleMatchesLog(t) && Spaced(t.log) && forall e :: e in t.log ==> Honest(e)
  {
    hide EncodeSetPower, DecodeSetPower, DecodeFrame, Round, IsSetPower, IsProtectionWrite, Protection.WellFormed;
    hide Spaced, LastAttempt, FamilyOf;
    var t := CheckDrift(s, uid, model, PageValues(model, frame), now, io);
    if t.log != s.log {
      var e := t.log[|s.log|];
      EntryAppended(s, e);
      SetPowerRoundTrip(model, ToUint16(e.intent), false);
    }
  }

  lemma {:induction false} RunKeepsLog(es: seq<Event>)
    ensures var s := Run(es);
            ThrottleMatchesLog(s) && Spaced(s.log) && forall e :: e in s.log ==> Honest(e)
  {
    hide CheckDrift, RecordIntent, Honest, Spaced, PageValues;
    if es == [] {
      EmptyLogIsSpaced();
    } else {
      var s, e := Run(es[..|es| - 1]), es[|es| - 1];
      RunKeepsLog(es[..|es| - 1]);
      if e.Page? {
        IntentsFit(es[..|es| - 1]);
        PageKeepsLog(s, e.uid, e.model, e.frame, e.now, e.io);
      } else if e.CachesDropped? {
        EntryAppended(s, Forgot(e.uid));
        ForgettingIsHonest(e.uid);
      }
    }
  }

  lemma EmptyLogIsSpaced()
    ensures Spaced([])
  {
  }

  lemma ForgettingIsHonest(u: Uid)
    ensures Honest(Forgot(u))
  {
  }

  /** Nothing between two entries forgets the inverter. */
  ghost predicate Remembered(log: seq<Entry>, i: nat, j: nat, u: Uid)
    requires j <= |log|
  {
    forall k :: i < k < j ==> log[k] != Forgot(u)
  }

  lemma {:induction false} LastAttemptIsLate(log: seq<Entry>, i: nat, j: nat)
    requires i < j <= |log| && log[i].Attempt? && Spaced(log) && Remembered(log, i, j, log[i].uid)
    ensures LastAttempt(log[..j], log[i].uid).Some? && LastAttempt(log[..j], log[i].uid).value >= log[i].at
    decreases j
  {
    assert log[..j][..j - 1] == log[..j - 1];
    if i < j - 1 {
      LastAttemptIsLate(log, i, j - 1);
      if log[j - 1].uid == log[i].uid {
        assert log[j - 1] != Forgot(log[i].uid);
        assert SpacedAt(log, j - 1);
      }
    }
  }

  /** The attempt answers the page: it goes to the page's inverter at the page's time, reports the
      cap on the page, and carries what the inverter was meant to hold when the page came. */
  ghost predicate Answers(a: Entry, before: seq<Event>, e: Event) {
    && a.Attempt? && e.Page? && a.uid == e.uid && a.at == e.now && a.routed == e.io.routes && Honest(a)
    && DA in PageValues(e.model, e.frame) && a.readback == PageValues(e.model, e.frame)[DA]
    && Meant(before, e.uid) == Some(a.intent)
  }

  /** A page is answered by an attempt exactly when its cap is off by more than two watts from
      what the inverter is meant to hold, a route is configured, the cap encodes for the model, and
      the last attempt to that inverter, if it was not forgotten since, is ten minutes old. */
  ghost predicate Attempts(before: seq<Event>, e: Event) {
    && e.Page? && DA in PageValues(e.model, e.frame) && e.io.readable && Meant(before, e.uid).Some?
    && var intent := Meant(before, e.uid).value;
       var last := LastAttempt(Run(before).log, e.uid);
    && Abs(PageValues(e.model, e.frame)[DA] - intent as real) > 2.0
    && e.io.configured && EncodeSetPower(e.model, ToUint16(intent), false).Frame?
    && (last.Some? ==> e.now - last.value >= 600_000)
  }

  /** One event of a run adds an attempt exactly when it calls for one, and the attempt answers it;
      nothing but a removal adds anything else. */
  lemma EventLogs(before: seq<Event>, e: Event)
    ensures var was, log := Run(before).log, Run(before + [e]).log;
            if Attempts(before, e) then |log| == |was| + 1 && log[..|was|] == was && Answers(log[|was|], before, e)
            else log == was + if e.CachesDropped? then [Forgot(e.uid)] else []
  {
    hide Meant, LastAttempt, EncodeSetPower, PageValues, Honest, Recorded, DecodeSetPower, Spaced, RecordIntent;
    assert (before + [e])[..|before|] == before;
    RunKeepsLog(before);
    RunKeepsLog(before + [e]);
    if e.Page? { IntentIsMeant(before, e.uid); }
    if e.Page? && Run(before + [e]).log != Run(before).log {
      assert Run(before + [e]).log[|Run(before).log|] in Run(before + [e]).log;
    }
    assert Run(before).log + [] == Run(before).log;
  }

  /** Every attempt in the log answers one page of the run. */
  lemma {:induction false} AttemptsAnswerPages(es: seq<Event>, i: nat)
    requires i < |Run(es).log| && Run(es).log[i].Attempt?
    ensures exists n :: 0 <= n < |es| && Run(es[..n]).log == Run(es).log[..i] && Answers(Run(es).log[i], es[..n], es[n])
  {
    hide Answers, Attempts, Next, PageValues, Meant, CheckDrift, RecordIntent;
    if es != [] {
      var m := |es| - 1;
      EventLogs(es[..m], es[m]);
      assert es == es[..m] + [es[m]];
      var was := Run(es[..m]).log;
      if i < |was| {
        AttemptsAnswerPages(es[..m], i);
        var n :| 0 <= n < m && Run(es[..m][..n]).log == was[..i] && Answers(was[i], es[..m][..n], es[..m][n]);
        assert es[..m][..n] == es[..n];
      } else {
        assert Run(es).log[..i] == was;
      }
    }
  }

  /** Over every run, whatever the clock does: every attempt answers a page of the run whose cap had
      drifted from what the inverter was meant to hold then, its frame carries exactly that, and the
      next attempt to the inverter comes at least ten minutes later unless it was removed in between. */
  lemma CapLoopSafety(es: seq<Event>, i: nat)
    requires i < |Run(es).log| && Run(es).log[i].Attempt?
    ensures exists n :: 0 <= n < |es| && Run(es[..n]).log == Run(es).log[..i] && Answers(Run(es).log[i], es[..n], es[n])
    ensures forall j :: var log := Run(es).log;
              i < j < |log| && log[j].Attempt? && log[j].uid == log[i].uid && Remembered(log, i, j, log[i].uid) ==>
                log[j].at - log[i].at >= 600_000
  {
    hide Run, Honest, LastAttempt, Answers;
    RunKeepsLog(es);
    AttemptsAnswerPages(es, i);
    var log := Run(es).log;
    forall j | i < j < |log| && log[j].Attempt? && log[j].uid == log[i].uid && Remembered(log, i, j, log[i].uid)
      ensures log[j].at - log[i].at >= REASSERT_INTERVAL
    {
      LastAttemptIsLate(log, i, j);
      assert SpacedAt(log, j);
    }
  }

  // ------------------------------------------------------------ the object over whole runs

  /** The keeper under every event it can see. */
  method HandleAll(k: CapKeeper, es: seq<Event>, ghost before: seq<Event>)
    requires k.View() == Run(before)
    modifies k
    ensures k.View() == Run(before + es)
    ensures forall u :: Meant(before + es, u) == if u in k.intents then Some(k.intents[u]) else None
    ensures Spaced(k.log)
    ensures forall i :: 0 <= i < |k.log| && k.log[i].Attempt? ==>
              exists n :: 0 <= n < |before + es| && Run((before + es)[..n]).log == k.log[..i]
                          && Answers(k.log[i], (before + es)[..n], (before + es)[n])
  {
    hide Next, Meant, Spaced, Honest, Answers;
    assert before + es[..0] == before;
    for i := 0 to |es|
      invariant k.View() == Run(before + es[..i])
    {
      Handle(k, es[i]);
      assert (before + es[..i + 1])[..|before| + i] == before + es[..i];
    }
    assert es[..|es|] == es;
    RunKeepsLog(before + es);
    forall u ensures Meant(before + es, u) == if u in k.intents then Some(k.intents[u]) else None {
      IntentIsMeant(before + es, u);
    }
    forall i | 0 <= i < |k.log| && k.log[i].Attempt?
      ensures exists n :: 0 <= n < |before + es| && Run((before + es)[..n]).log == k.log[..i]
                          && Answers(k.log[i], (before + es)[..n], (before + es)[n])
    {
      AttemptsAnswerPages(before + es, i);
    }
  }

  /** One event, by the keeper's own methods. */
  method Handle(k: CapKeeper, e: Event)
    modifies k
    ensures k.View() == Next(old(k.View()), e)
  {
    hide CheckDrift, RecordIntent, PageValues;
    match e
    case Routed(env, members, stores) => k.RecordCapIntent(env, members, stores);
    case Page(uid, model, frame, now, io) => k.CheckCapDrift(uid, model, PageValues(model, frame), now, io);
    case RowsDeleted(uid) => k.ForgetIntent(uid);
    case CachesDropped(uid) => k.ForgetThrottle(uid);
  }
}
