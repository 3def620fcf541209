/** Pushing one profile point to the whole fleet by broadcast, and scoring its read-back. */
module Broadcast {
  import opened Wrappers
  import opened Bytes
  import opened Codes
  import opened Protection
  import opened ProtectionRead
  import opened Quantisation
  import opened Device
  import GridProfile

  type Uid = string
  type Frame = seq<byte>

  /** An inverter: its model, its registers, and the driver's read-back cache for it. */
  datatype Unit = Unit(model: byte, regs: Registers, cache: map<Code, real>) {
    function Fam(): Family { FamilyOf(model) }
  }

  type Fleet = map<Uid, Unit>

  /** The surroundings of one point: whether the n-th broadcast is accepted, whether the context
      is done at the first or second wait, whose triggered read is answered. */
  datatype Io = Io(accepts: nat -> bool, stops: (bool, bool), answers: Uid -> bool)

  datatype Result =
    | Applied | NoReadback | Partial(confirmed: nat, total: nat)
    | Cancelled | SendFailed | EncodeFailed | UnsupportedBroadcast | Unsupported

  // ------------------------------------------------------------ which encoder

  predicate IsUnsupported(e: Error) { e.UnsupportedBroadcast? || e.UnsupportedParam? || e.UnsupportedFamily? }

  /** The first model whose encoder takes the point, an encoding error that stops the run, or
      neither, with the last reason seen. */
  datatype Choice = Chosen(model: byte, frames: seq<Frame>) | Fatal | Nobody(last: Option<Error>)

  function Choose(models: seq<byte>, c: Code, v: real, last: Option<Error>): Choice {
    if models == [] then Nobody(last)
    else if !GridProfile.Writeable(models[0], c) then Choose(models[1..], c, v, last)
    else
      match EncodeSetProtectionBroadcast(models[0], c, v)
      case Frames(fs) => Chosen(models[0], fs)
      case Failed(e) => if IsUnsupported(e) then Choose(models[1..], c, v, Some(e)) else Fatal
  }

  /** The model's encoder takes the point. */
  predicate Takes(model: byte, c: Code, v: real) {
    GridProfile.Writeable(model, c) && EncodeSetProtectionBroadcast(model, c, v).Frames?
  }

  /** It fails on it in a way that has nothing to do with support. */
  predicate Breaks(model: byte, c: Code, v: real) {
    && GridProfile.Writeable(model, c)
    && EncodeSetProtectionBroadcast(model, c, v).Failed?
    && !IsUnsupported(EncodeSetProtectionBroadcast(model, c, v).error)
  }

  /** No model before number `i` takes the point or breaks on it. */
  ghost predicate PassedOver(models: seq<byte>, i: nat, c: Code, v: real)
    requires i <= |models|
  {
    forall j :: 0 <= j < i ==> !Takes(models[j], c, v) && !Breaks(models[j], c, v)
  }

  /** The error of the last model which may write the parameter at all, if there is one. */
  function LastError(models: seq<byte>, c: Code, v: real): Option<Error> {
    if models == [] then None
    else
      var m, e := models[|models| - 1], EncodeSetProtectionBroadcast(models[|models| - 1], c, v);
      if GridProfile.Writeable(m, c) && e.Failed? then Some(e.error) else LastError(models[..|models| - 1], c, v)
  }

  lemma {:induction false} LastErrorFromFront(models: seq<byte>, c: Code, v: real)
    requires models != []
    ensures LastError(models, c, v) ==
              if LastError(models[1..], c, v).Some? then LastError(models[1..], c, v) else LastError(models[..1], c, v)
  {
    hide EncodeSetProtectionBroadcast, GridProfile.Writeable;
    var n := |models| - 1;
    if n == 0 {
      assert models[..1] == models;
    } else {
      LastErrorFromFront(models[..n], c, v);
      assert models[..n][1..] == models[1..][..n - 1] && models[..n][..1] == models[..1];
    }
  }

  /** The first model that takes the point or breaks on it decides, and nobody else does. */
  ghost predicate Decided(ch: Choice, models: seq<byte>, c: Code, v: real, last: Option<Error>) {
    match ch
    case Chosen(m, fs) =>
      exists i :: 0 <= i < |models| && models[i] == m && Takes(m, c, v) && PassedOver(models, i, c, v)
                  && EncodeSetProtectionBroadcast(m, c, v) == Frames(fs)
    case Fatal => exists i :: 0 <= i < |models| && Breaks(models[i], c, v) && PassedOver(models, i, c, v)
    case Nobody(why) =>
      PassedOver(models, |models|, c, v)
      && why == if LastError(models, c, v).Some? then LastError(models, c, v) else last
  }

  lemma {:induction false} ChoiceIsFirst(models: seq<byte>, c: Code, v: real, last: Option<Error>)
    ensures Decided(Choose(models, c, v, last), models, c, v, last)
  {
    hide EncodeSetProtectionBroadcast, GridProfile.Writeable;
    if models != [] {
      var e := EncodeSetProtectionBroadcast(models[0], c, v);
      if Takes(models[0], c, v) || Breaks(models[0], c, v) {
        assert PassedOver(models, 0, c, v);
      } else {
        var next := if GridProfile.Writeable(models[0], c) then Some(e.error) else last;
        ChoiceIsFirst(models[1..], c, v, next);
        DecidedFurther(Choose(models[1..], c, v, next), models, c, v, last, next);
      }
    }
  }

  lemma DecidedFurther(ch: Choice, models: seq<byte>, c: Code, v: real, last: Option<Error>, next: Option<Error>)
    requires models != [] && !Takes(models[0], c, v) && !Breaks(models[0], c, v)
    requires Decided(ch, models[1..], c, v, next)
    requires next == if GridProfile.Writeable(models[0], c)
                     then Some(EncodeSetProtectionBroadcast(models[0], c, v).error) else last
    ensures Decided(ch, models, c, v, last)
  {
    hide EncodeSetProtectionBroadcast, GridProfile.Writeable;
    assert next == if LastError(models[..1], c, v).Some? then LastError(models[..1], c, v) else last by {
      assert models[..1][..0] == [];
    }
    hide PassedOver, Takes, Breaks, LastError;
    LastErrorFromFront(models, c, v);
    PassedOverOne(models, c, v);
    match ch
    case Chosen(m, fs) =>
      var i :| 0 <= i < |models| - 1 && models[1..][i] == m && PassedOver(models[1..], i, c, v);
      assert models[i + 1] == m && PassedOver(models, i + 1, c, v);
    case Fatal =>
      var i :| 0 <= i < |models| - 1 && Breaks(models[1..][i], c, v) && PassedOver(models[1..], i, c, v);
      assert Breaks(models[i + 1], c, v) && PassedOver(models, i + 1, c, v);
    case Nobody(_) =>
  }

  /** What holds of the models after the first holds of all of them when the first is passed over. */
  lemma PassedOverOne(models: seq<byte>, c: Code, v: real)
    requires models != [] && !Takes(models[0], c, v) && !Breaks(models[0], c, v)
    ensures forall i :: 0 <= i < |models| ==> PassedOver(models[1..], i, c, v) == PassedOver(models, i + 1, c, v)
    ensures forall i :: 0 <= i < |models| - 1 ==> models[1..][i] == models[i + 1]
  {
    hide Takes, Breaks;
    forall i | 0 <= i < |models| ensures PassedOver(models[1..], i, c, v) == PassedOver(models, i + 1, c, v) {
      assert forall j :: 0 <= j < i ==> models[1..][j] == models[j + 1];
      if PassedOver(models[1..], i, c, v) {
        forall j | 0 <= j < i + 1 ensures !Takes(models[j], c, v) && !Breaks(models[j], c, v) {
          if j > 0 { assert models[1..][j - 1] == models[j]; }
        }
      }
      if PassedOver(models, i + 1, c, v) {
        forall j | 0 <= j < i ensures !Takes(models[1..][j], c, v) && !Breaks(models[1..][j], c, v) {
          assert models[1..][j] == models[j + 1];
        }
      }
    }
  }

  // ------------------------------------------------------------ on the air

  /** Every inverter in range takes a broadcast frame of its own family. */
  function Receive(fleet: Fleet, f: Frame): Fleet {
    map u | u in fleet ::
      match BroadcastWriteOf(fleet[u].Fam(), f)
      case Some(w) => fleet[u].(regs := fleet[u].regs[w.code := w.raw])
      case None => fleet[u]
  }

  function SendFrames(fleet: Fleet, fs: seq<Frame>, accepts: nat -> bool): (Fleet, bool) {
    if fs == [] then (fleet, true)
    else
      var n := |fs| - 1;
      var (before, ok) := SendFrames(fleet, fs[..n], accepts);
      if ok && accepts(n) then (Receive(before, fs[n]), true) else (before, false)
  }

  function Refreshed(u: Unit): Unit { u.(cache := u.cache + ReadAll(u.Fam(), u.regs)) }

  function Refresh(fleet: Fleet, uids: seq<Uid>, answers: Uid -> bool): Fleet {
    map u | u in fleet :: if u in uids && answers(u) then Refreshed(fleet[u]) else fleet[u]
  }

  // ------------------------------------------------------------ scoring

  /** A targeted inverter whose read-back carries the code. */
  predicate Readable(fleet: Fleet, models: seq<byte>, c: Code, u: Uid) {
    u in fleet && fleet[u].model in models && c in fleet[u].cache
  }

  predicate Confirms(fleet: Fleet, models: seq<byte>, c: Code, v: real, u: Uid) {
    Readable(fleet, models, c, u) && WithinTolerance(c, v, fleet[u].cache[c])
  }

  function Score(fleet: Fleet, uids: seq<Uid>, models: seq<byte>, c: Code, v: real): (nat, nat) {
    if uids == [] then (0, 0)
    else
      var u := uids[|uids| - 1];
      var (confirmed, total) := Score(fleet, uids[..|uids| - 1], models, c, v);
      (if Confirms(fleet, models, c, v, u) then confirmed + 1 else confirmed,
       if Readable(fleet, models, c, u) then total + 1 else total)
  }

  function Verdict(score: (nat, nat)): Result {
    if score.1 == 0 then NoReadback else if score.0 == score.1 then Applied else Partial(score.0, score.1)
  }

  method ConfirmBroadcastPoint(fleet: Fleet, uids: seq<Uid>, models: seq<byte>, c: Code, v: real) returns (r: Result)
    ensures r == Verdict(Score(fleet, uids, models, c, v))
  {
    hide WithinTolerance;
    var confirmed: nat, total: nat := 0, 0;
    for i := 0 to |uids|
      invariant (confirmed, total) == Score(fleet, uids[..i], models, c, v)
    {
      assert uids[..i + 1][..i] == uids[..i];
      var u := uids[i];
      if u in fleet {
        var targeted := IsTargeted(fleet[u].model, models);
        if targeted && c in fleet[u].cache {
          total := total + 1;
          if WithinTolerance(c, v, fleet[u].cache[c]) { confirmed := confirmed + 1; }
        }
      }
    }
    assert uids[..|uids|] == uids;
    if total == 0 { return NoReadback; }
    r := if confirmed == total then Applied else Partial(confirmed, total);
  }

  method IsTargeted(model: byte, models: seq<byte>) returns (targeted: bool)
    ensures targeted == (model in models)
  {
    targeted := false;
    for i := 0 to |models|
      invariant model !in models[..i]
    {
      if models[i] == model { return true; }
    }
  }

  /** "Applied" means some targeted inverter could be read and every one that could is within
      tolerance; "no_readback" that none could; a partial result that at least one is off. */
  lemma {:induction false} ScoreMeaning(fleet: Fleet, uids: seq<Uid>, models: seq<byte>, c: Code, v: real)
    ensures var s := Score(fleet, uids, models, c, v);
            && s.0 <= s.1
            && (s.1 == 0 <==> forall u :: u in uids ==> !Readable(fleet, models, c, u))
            && (s.0 == s.1 <==>
                  forall u :: u in uids && Readable(fleet, models, c, u) ==> Confirms(fleet, models, c, v, u))
  {
    hide Readable, Confirms;
    if uids != [] {
      var n := |uids| - 1;
      ScoreMeaning(fleet, uids[..n], models, c, v);
      ConfirmsIsReadable(fleet, models, c, v, uids[n]);
      assert uids == uids[..n] + [uids[n]];
    }
  }

  /** The two numbers count: every readable entry of the list adds one to the second, every confirming
      one adds one to the first as well, wherever it stands. */
  lemma {:induction false} ScoreCounts(fleet: Fleet, a: seq<Uid>, u: Uid, b: seq<Uid>, models: seq<byte>, c: Code,
                                       v: real)
    ensures var with, without := Score(fleet, a + [u] + b, models, c, v), Score(fleet, a + b, models, c, v);
            && with.0 == without.0 + (if Confirms(fleet, models, c, v, u) then 1 else 0)
            && with.1 == without.1 + (if Readable(fleet, models, c, u) then 1 else 0)
  {
    hide Readable, Confirms;
    if b == [] {
      assert a + [u] + b == a + [u] && a + b == a && (a + [u])[..|a|] == a;
    } else {
      var n := |b| - 1;
      ScoreCounts(fleet, a, u, b[..n], models, c, v);
      assert (a + [u] + b)[..|a| + 1 + n] == a + [u] + b[..n];
      assert (a + b)[..|a| + n] == a + b[..n];
    }
  }

  lemma ConfirmsIsReadable(fleet: Fleet, models: seq<byte>, c: Code, v: real, u: Uid)
    ensures Confirms(fleet, models, c, v, u) ==> Readable(fleet, models, c, u)
  {
  }

  // ------------------------------------------------------------ one point

  /** Send, wait, trigger reads, wait, score. */
  function Deliver(fleet: Fleet, fs: seq<Frame>, uids: seq<Uid>, models: seq<byte>, c: Code, v: real, io: Io)
    : (Fleet, Result)
  {
    var (sent, ok) := SendFrames(fleet, fs, io.accepts);
    if !ok then (sent, SendFailed)
    else if io.stops.0 then (sent, Cancelled)
    else
      var read := Refresh(sent, uids, io.answers);
      (read, if io.stops.1 then Cancelled else Verdict(Score(read, uids, models, c, v)))
  }

  function PushPoint(fleet: Fleet, uids: seq<Uid>, models: seq<byte>, c: Code, v: real, io: Io): (Fleet, Result) {
    match Choose(models, c, v, None)
    case Fatal => (fleet, EncodeFailed)
    case Nobody(last) =>
      (fleet, if last.Some? && last.value.UnsupportedBroadcast? then Result.UnsupportedBroadcast else Unsupported)
    case Chosen(_, fs) => Deliver(fleet, fs, uids, models, c, v, io)
  }

  method TriggerReads(fleet: Fleet, uids: seq<Uid>, answers: Uid -> bool) returns (read: Fleet)
    ensures read == Refresh(fleet, uids, answers)
  {
    read := fleet;
    for i := 0 to |uids|
      invariant read == Refresh(fleet, uids[..i], answers)
    {
      var u := uids[i];
      RefreshTwice(fleet, uids[..i], answers, u);
      assert uids[..i + 1] == uids[..i] + [u];
      if u in fleet && answers(u) { read := read[u := Refreshed(read[u])]; }
    }
    assert uids[..|uids|] == uids;
  }

  lemma RefreshTwice(fleet: Fleet, uids: seq<Uid>, answers: Uid -> bool, u: Uid)
    ensures var before, after := Refresh(fleet, uids, answers), Refresh(fleet, uids + [u], answers);
            after == if u in fleet && answers(u) then before[u := Refreshed(before[u])] else before
  {
    hide ReadAll;
    if u in fleet { assert Refreshed(Refreshed(fleet[u])) == Refreshed(fleet[u]); }
  }

  method DeliverPoint(fleet: Fleet, fs: seq<Frame>, uids: seq<Uid>, models: seq<byte>, c: Code, v: real, io: Io)
    returns (after: Fleet, r: Result)
    ensures (after, r) == Deliver(fleet, fs, uids, models, c, v, io)
  {
    hide SendFrames, Refresh, Score;
    var ok;
    after, ok := SendAll(fleet, fs, io.accepts);
    if !ok { return after, SendFailed; }
    if io.stops.0 { return after, Cancelled; }
    after := TriggerReads(after, uids, io.answers);
    if io.stops.1 { return after, Cancelled; }
    r := ConfirmBroadcastPoint(after, uids, models, c, v);
  }

  /** The first listed model whose encoder takes the point decides whose frames go out. */
  method BroadcastPoint(fleet: Fleet, uids: seq<Uid>, models: seq<byte>, c: Code, v: real, io: Io)
    returns (after: Fleet, r: Result)
    ensures (after, r) == PushPoint(fleet, uids, models, c, v, io)
  {
    hide Deliver, EncodeSetProtectionBroadcast, GridProfile.Writeable;
    after := fleet;
    var last: Option<Error> := None;
    for i := 0 to |models|
      invariant after == fleet && Choose(models, c, v, None) == Choose(models[i..], c, v, last)
    {
      assert models[i..][0] == models[i] && models[i..][1..] == models[i + 1..];
      if GridProfile.Writeable(models[i], c) {
        var e := EncodeSetProtectionBroadcast(models[i], c, v);
        if e.Frames? {
          after, r := DeliverPoint(fleet, e.frames, uids, models, c, v, io);
          return;
        }
        if !IsUnsupported(e.error) { return after, EncodeFailed; }
        last := Some(e.error);
      }
    }
    assert models[|models|..] == [];
    r := if last.Some? && last.value.UnsupportedBroadcast? then Result.UnsupportedBroadcast else Unsupported;
  }

  method SendAll(fleet: Fleet, fs: seq<Frame>, accepts: nat -> bool) returns (after: Fleet, ok: bool)
    ensures (after, ok) == SendFrames(fleet, fs, accepts)
  {
    hide Receive;
    after, ok := fleet, true;
    for i := 0 to |fs|
      invariant ok && (after, ok) == SendFrames(fleet, fs[..i], accepts)
    {
      assert fs[..i + 1][..i] == fs[..i];
      if !accepts(i) {
        StoppedStaysStopped(fleet, fs, accepts, i + 1);
        return after, false;
      }
      after := Receive(after, fs[i]);
    }
    assert fs[..|fs|] == fs;
  }

  lemma {:induction false} StoppedStaysStopped(fleet: Fleet, fs: seq<Frame>, accepts: nat -> bool, i: nat)
    requires i <= |fs| && !SendFrames(fleet, fs[..i], accepts).1
    ensures SendFrames(fleet, fs, accepts) == SendFrames(fleet, fs[..i], accepts)
  {
    if i == |fs| {
      assert fs[..i] == fs;
    } else {
      assert fs[..|fs| - 1][..i] == fs[..i];
      StoppedStaysStopped(fleet, fs[..|fs| - 1], accepts, i);
    }
  }

  // ------------------------------------------------------------ who is reached

  ghost predicate Healthy(io: Io) {
    !io.stops.0 && !io.stops.1 && (forall n: nat :: io.accepts(n)) && forall u: Uid :: io.answers(u)
  }

  lemma {:induction false} ChosenIsFirst(models: seq<byte>, c: Code, v: real, last: Option<Error>)
    ensures var ch := Choose(models, c, v, last);
            ch.Chosen? ==> ch.model in models && EncodeSetProtectionBroadcast(ch.model, c, v) == Frames(ch.frames)
  {
    hide EncodeSetProtectionBroadcast, GridProfile.Writeable;
    if models != [] {
      ChosenIsFirst(models[1..], c, v, last);
      match EncodeSetProtectionBroadcast(models[0], c, v)
      case Failed(e) => ChosenIsFirst(models[1..], c, v, Some(e));
      case _ =>
    }
  }

  lemma {:induction false} SendsUntilRefused(fleet: Fleet, fs: seq<Frame>, accepts: nat -> bool)
    ensures SendFrames(fleet, fs, accepts).1 <==> forall k: nat :: k < |fs| ==> accepts(k)
  {
    hide Receive;
    if fs != [] { SendsUntilRefused(fleet, fs[..|fs| - 1], accepts); }
  }

  /** Every outcome of a point and what brings it about: an encoding error when the deciding model
      breaks, unsupported when no model takes it, a broadcast error exactly when a frame is refused,
      cancelled exactly when a wait is cut short, and the score of what can be read otherwise. Without
      a deciding model nothing is sent or read. */
  lemma PushOutcome(fleet: Fleet, uids: seq<Uid>, models: seq<byte>, c: Code, v: real, io: Io)
    ensures var ch, (after, r) := Choose(models, c, v, None), PushPoint(fleet, uids, models, c, v, io);
            var sent := ch.Chosen? && forall k: nat :: k < |ch.frames| ==> io.accepts(k);
            && (r.EncodeFailed? <==> ch.Fatal?)
            && (r.UnsupportedBroadcast? <==> ch.Nobody? && ch.last.Some? && ch.last.value.UnsupportedBroadcast?)
            && (r.Unsupported? <==> ch.Nobody? && !(ch.last.Some? && ch.last.value.UnsupportedBroadcast?))
            && (r.SendFailed? <==> ch.Chosen? && !sent)
            && (r.Cancelled? <==> sent && (io.stops.0 || io.stops.1))
            && (r.Applied? || r.NoReadback? || r.Partial? <==> sent && !io.stops.0 && !io.stops.1)
            && (r.Partial? ==> r.confirmed < r.total && (r.confirmed, r.total) == Score(after, uids, models, c, v))
            && (!ch.Chosen? ==> after == fleet)
  {
    hide Choose, Refresh, Score, SendFrames;
    var ch := Choose(models, c, v, None);
    if ch.Chosen? {
      SendsUntilRefused(fleet, ch.frames, io.accepts);
      var read := Refresh(SendFrames(fleet, ch.frames, io.accepts).0, uids, io.answers);
      ScoreMeaning(read, uids, models, c, v);
    }
  }

  /** A broadcast point is one frame in one family's encoding: every inverter of that family
      stores the register, every other inverter is left exactly as it was, even when its model
      was listed. */
  lemma OneFamilyIsReached(fleet: Fleet, models: seq<byte>, c: Code, v: real, accepts: nat -> bool, u: Uid)
    requires u in fleet && accepts(0)
    ensures var ch := Choose(models, c, v, None);
            ch.Chosen? ==>
              var (sent, ok) := SendFrames(fleet, ch.frames, accepts);
              && ok && sent.Keys == fleet.Keys && v > 0.0
              && sent[u] == if fleet[u].Fam() == FamilyOf(ch.model)
                            then fleet[u].(regs := fleet[u].regs[c := WireOf(FamilyOf(ch.model), c, v)])
                            else fleet[u]
  {
    hide Choose, EncodeSetProtectionBroadcast, BroadcastWriteOf, WireOf;
    var ch := Choose(models, c, v, None);
    if ch.Chosen? {
      ChosenIsFirst(models, c, v, None);
      BroadcastWriteArrives(ch.model, c, v, fleet[u].Fam());
      assert ch.frames[..0] == [];
      assert SendFrames(fleet, ch.frames, accepts) == (Receive(fleet, ch.frames[0]), true);
    }
  }

  /** On a working link a covered point is reported as applied exactly when some targeted
      inverter can be read and every readable one outside the family whose encoding was chosen
      happens to hold the value already; with a single family that is every time. */
  lemma BroadcastAppliedIff(fleet: Fleet, uids: seq<Uid>, models: seq<byte>, c: Code, v: real, io: Io)
    requires Healthy(io) && Choose(models, c, v, None).Chosen?
    requires forall u :: u in uids ==> u in fleet && fleet[u].model in models
    requires var fam := FamilyOf(Choose(models, c, v, None).model); Covered(fam, c, v)
    ensures var fam, r := FamilyOf(Choose(models, c, v, None).model), PushPoint(fleet, uids, models, c, v, io).1;
            && (r.Applied? || r.NoReadback? || r.Partial?)
            && (r.Applied? <==>
                  && (exists u :: u in uids && (fleet[u].Fam() == fam || c in Refreshed(fleet[u]).cache))
                  && forall u :: u in uids && fleet[u].Fam() != fam && c in Refreshed(fleet[u]).cache ==>
                       WithinTolerance(c, v, Refreshed(fleet[u]).cache[c]))
  {
    hide Choose, Covered, WithinTolerance, Refreshed, Score, SendFrames, Refresh;
    var ch := Choose(models, c, v, None);
    var read := Refresh(SendFrames(fleet, ch.frames, io.accepts).0, uids, io.answers);
    LinkWorks(fleet, ch.frames, io.accepts);
    forall u | u in uids
      ensures Readable(read, models, c, u) <==> fleet[u].Fam() == FamilyOf(ch.model) || c in Refreshed(fleet[u]).cache
      ensures Confirms(read, models, c, v, u) <==>
                || fleet[u].Fam() == FamilyOf(ch.model)
                || (c in Refreshed(fleet[u]).cache && WithinTolerance(c, v, Refreshed(fleet[u]).cache[c]))
    {
      UnitAfter(fleet, uids, models, c, v, io, u);
      if fleet[u].Fam() == FamilyOf(ch.model) { ReachedReadsBack(fleet[u], c, v); }
    }
    ScoreMeaning(read, uids, models, c, v);
  }

  /** What one targeted inverter and its cache look like when the point is scored. */
  lemma UnitAfter(fleet: Fleet, uids: seq<Uid>, models: seq<byte>, c: Code, v: real, io: Io, u: Uid)
    requires Healthy(io) && u in uids && u in fleet && Choose(models, c, v, None).Chosen?
    ensures var ch := Choose(models, c, v, None);
            var read := Refresh(SendFrames(fleet, ch.frames, io.accepts).0, uids, io.answers);
            && v > 0.0 && u in read && read[u].model == fleet[u].model
            && read[u] == Refreshed(if fleet[u].Fam() == FamilyOf(ch.model)
                                    then fleet[u].(regs := fleet[u].regs[c := WireOf(FamilyOf(ch.model), c, v)])
                                    else fleet[u])
  {
    hide Choose, SendFrames, WireOf, ReadAll;
    OneFamilyIsReached(fleet, models, c, v, io.accepts, u);
  }

  lemma {:induction false} LinkWorks(fleet: Fleet, fs: seq<Frame>, accepts: nat -> bool)
    requires forall n: nat :: accepts(n)
    ensures SendFrames(fleet, fs, accepts).1
  {
    hide Receive;
    if fs != [] { LinkWorks(fleet, fs[..|fs| - 1], accepts); }
  }

  lemma ReachedReadsBack(u: Unit, c: Code, v: real)
    requires Covered(u.Fam(), c, v)
    ensures v > 0.0 &&
            var now := Refreshed(u.(regs := u.regs[c := WireOf(u.Fam(), c, v)]));
            c in now.cache && WithinTolerance(c, v, now.cache[c])
  {
    hide Covered, WithinTolerance, WireOf, RegisterValue, ReadBack;
    HasReadField(u.Fam(), c, v);
    CoveredReadsBack(u.Fam(), c, v);
    assert c in ReadAll(u.Fam(), u.regs[c := WireOf(u.Fam(), c, v)]);
  }
}
