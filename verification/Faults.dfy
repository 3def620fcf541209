/** One fault bit of one inverter over whole runs of telemetry frames. Times are wall-clock
    milliseconds. */
module FaultBit {
  import opened Wrappers

  const COALESCE := 60_000

  datatype Kind = Raised | Cleared
  datatype BitState = BitState(raised: bool, lastCleared: int)
  const QUIET := BitState(false, 0)

  /** One frame after the seed: the new state and the event logged, if any. */
  function Diff(b: BitState, active: bool, now: int): (BitState, Option<Kind>) {
    if active && !b.raised then
      (b.(raised := true), if b.lastCleared > 0 && now - b.lastCleared < COALESCE then None else Some(Raised))
    else if !active && b.raised then (BitState(false, now), Some(Cleared))
    else (b, None)
  }

  datatype Frame = Frame(active: bool, now: int)

  /** The state after the frames that follow a silent seed with `seed`. */
  function After(seed: bool, fs: seq<Frame>): BitState {
    if fs == [] then BitState(seed, 0)
    else Diff(After(seed, fs[..|fs| - 1]), fs[|fs| - 1].active, fs[|fs| - 1].now).0
  }

  /** What frame `i` logs. */
  function Logged(seed: bool, fs: seq<Frame>, i: nat): Option<Kind>
    requires i < |fs|
  {
    Diff(After(seed, fs[..i]), fs[i].active, fs[i].now).1
  }

  /** A logged edge and when it was logged. */
  datatype Edge = Edge(kind: Kind, at: int)

  function EdgeList(k: Option<Kind>, at: int): seq<Edge> { if k.Some? then [Edge(k.value, at)] else [] }

  /** Everything the frames log for the bit, in order. */
  function LoggedAll(seed: bool, fs: seq<Frame>): seq<Edge> {
    if fs == [] then []
    else
      var n := |fs| - 1;
      LoggedAll(seed, fs[..n]) + EdgeList(Diff(After(seed, fs[..n]), fs[n].active, fs[n].now).1, fs[n].now)
  }

  ghost predicate ClockForward(fs: seq<Frame>) {
    (forall i :: 0 <= i < |fs| ==> fs[i].now > 0) && forall i, j :: 0 <= i < j < |fs| ==> fs[i].now <= fs[j].now
  }

  /** Times never go back, and right before a raise (but for the first edge) stands a clear, at
      least a minute older. */
  ghost predicate WellSpaced(log: seq<Edge>) {
    && (forall i, j :: 0 <= i < j < |log| ==> log[i].at <= log[j].at)
    && forall i :: 0 < i < |log| && log[i].kind.Raised? ==>
         log[i - 1].kind.Cleared? && log[i].at - log[i - 1].at >= COALESCE
  }

  /** After a logged raise the bit is up until it clears; after a logged clear its time is kept. */
  ghost predicate Remembers(st: BitState, log: seq<Edge>, now: int) {
    log == [] ||
    var last := log[|log| - 1];
    0 < last.at <= now && if last.kind.Raised? then st.raised else st.lastCleared == last.at
  }

  lemma WellSpacedOneMore(log: seq<Edge>, e: Edge)
    requires WellSpaced(log)
    requires log == [] || log[|log| - 1].at <= e.at
    requires log != [] && e.kind.Raised? ==>
               log[|log| - 1].kind.Cleared? && e.at - log[|log| - 1].at >= COALESCE
    ensures WellSpaced(log + [e])
  {
    var more := log + [e];
    forall i, j | 0 <= i < j < |more| ensures more[i].at <= more[j].at {
      if j == |log| && i < |log| - 1 { assert log[i].at <= log[|log| - 1].at; }
    }
  }

  lemma EdgeIsWellSpaced(st: BitState, log: seq<Edge>, was: int, active: bool, now: int)
    requires WellSpaced(log) && Remembers(st, log, was) && was <= now && now > 0
    ensures var r := Diff(st, active, now);
            WellSpaced(log + EdgeList(r.1, now)) && Remembers(r.0, log + EdgeList(r.1, now), now)
  {
    hide WellSpaced;
    var r := Diff(st, active, now);
    if r.1.None? {
      assert log + EdgeList(r.1, now) == log;
    } else {
      WellSpacedOneMore(log, Edge(r.1.value, now));
    }
  }

  lemma {:induction false} LogIsWellSpaced(seed: bool, fs: seq<Frame>)
    requires ClockForward(fs)
    ensures WellSpaced(LoggedAll(seed, fs))
    ensures Remembers(After(seed, fs), LoggedAll(seed, fs), if fs == [] then 0 else fs[|fs| - 1].now)
  {
    if fs != [] {
      hide WellSpaced, Remembers, Diff;
      var n := |fs| - 1;
      LogIsWellSpaced(seed, fs[..n]);
      EdgeIsWellSpaced(After(seed, fs[..n]), LoggedAll(seed, fs[..n]), if n == 0 then 0 else fs[n - 1].now,
                       fs[n].active, fs[n].now);
    }
  }

  /** The bit before frame `i`. */
  function BitBefore(seed: bool, fs: seq<Frame>, i: nat): bool
    requires i <= |fs|
  {
    if i == 0 then seed else fs[i - 1].active
  }

  predicate Falls(seed: bool, fs: seq<Frame>, i: nat)
    requires i < |fs|
  {
    BitBefore(seed, fs, i) && !fs[i].active
  }

  predicate Rises(seed: bool, fs: seq<Frame>, i: nat)
    requires i < |fs|
  {
    !BitBefore(seed, fs, i) && fs[i].active
  }

  function LatestFall(seed: bool, fs: seq<Frame>): Option<nat> {
    if fs == [] then None
    else if Falls(seed, fs, |fs| - 1) then Some(|fs| - 1)
    else LatestFall(seed, fs[..|fs| - 1])
  }

  lemma {:induction false} LatestFallIsLatest(seed: bool, fs: seq<Frame>)
    ensures var k := LatestFall(seed, fs);
            && (k.Some? ==> k.value < |fs| && Falls(seed, fs, k.value))
            && forall i :: 0 <= i < |fs| && Falls(seed, fs, i) ==> k.Some? && i <= k.value
  {
    if fs != [] {
      LatestFallIsLatest(seed, fs[..|fs| - 1]);
      forall i | 0 <= i < |fs| - 1 ensures Falls(seed, fs, i) == Falls(seed, fs[..|fs| - 1], i) {}
    }
  }

  /** After the silent seed the tracker's bit mirrors the last frame, and its clear time is
      that of the latest fall. */
  lemma {:induction false} StateMirrorsFrames(seed: bool, fs: seq<Frame>)
    ensures var k := LatestFall(seed, fs);
            (k.Some? ==> k.value < |fs|) &&
            After(seed, fs) == BitState(BitBefore(seed, fs, |fs|), if k.None? then 0 else fs[k.value].now)
  {
    if fs != [] { StateMirrorsFrames(seed, fs[..|fs| - 1]); }
  }

  /** Every falling edge is logged; a rising edge is logged exactly when no fall came less
      than a minute before it; nothing else is logged. */
  lemma EdgesLogged(seed: bool, fs: seq<Frame>, i: nat)
    requires ClockForward(fs) && i < |fs|
    ensures (Logged(seed, fs, i) == Some(Cleared)) == Falls(seed, fs, i)
    ensures Logged(seed, fs, i) == Some(Raised) <==>
              Rises(seed, fs, i) && forall k :: 0 <= k < i && Falls(seed, fs, k) ==> fs[i].now - fs[k].now >= 60_000
  {
    var before := fs[..i];
    StateMirrorsFrames(seed, before);
    LatestFallIsLatest(seed, before);
    forall k | 0 <= k < i ensures Falls(seed, before, k) == Falls(seed, fs, k) {}
  }

  /** A bit that is set after frame `i` and clear before frame `j` falls in between. */
  lemma {:induction false} FallBetween(seed: bool, fs: seq<Frame>, i: nat, j: nat) returns (k: nat)
    requires i < j < |fs| && fs[i].active && !fs[j - 1].active
    ensures i < k < j && Falls(seed, fs, k)
  {
    k := j - 1;
    if BitBefore(seed, fs, k) { return; }
    k := FallBetween(seed, fs, i, j - 1);
  }

  /** Two logged raises of one bit are separated by a logged clear and by at least a minute. */
  lemma RaisesAreSeparated(seed: bool, fs: seq<Frame>, i: nat, j: nat)
    requires ClockForward(fs) && i < j < |fs|
    requires Logged(seed, fs, i) == Some(Raised) && Logged(seed, fs, j) == Some(Raised)
    ensures exists k :: i < k < j && Logged(seed, fs, k) == Some(Cleared)
    ensures fs[j].now - fs[i].now >= 60_000
  {
    EdgesLogged(seed, fs, i);
    EdgesLogged(seed, fs, j);
    var k := FallBetween(seed, fs, i, j);
    EdgesLogged(seed, fs, k);
  }
}

/** The tracker over inverters and bits. */
module FaultTracker {
  import opened Wrappers
  import opened Iteration
  import opened FaultBit

  type Uid = string
  type Bit = string
  /** A logged edge of a bit, with the wall clock at which it was found. */
  datatype Emit = Emit(bit: Bit, kind: Kind, at: int)

  datatype UidFaults = UidFaults(seeded: bool, bits: map<Bit, BitState>)
  const UNSEEN := UidFaults(false, map[])

  /** Bits absent from the frame's family count as clear. */
  function Active(active: map<Bit, bool>, b: Bit): bool { b in active && active[b] }

  function Entry(bits: map<Bit, BitState>, b: Bit): BitState { if b in bits then bits[b] else QUIET }

  /** One frame's effect on one bit: the first frame of an inverter seeds silently. */
  function FrameOnBit(per: UidFaults, active: map<Bit, bool>, b: Bit, now: int): (BitState, Option<Kind>) {
    var st := Entry(per.bits, b);
    if !per.seeded then (st.(raised := Active(active, b)), None) else Diff(st, Active(active, b), now)
  }

  datatype Walk = Walk(bits: map<Bit, BitState>, emits: seq<Emit>)

  function WalkBit(w: Walk, seeded: bool, active: map<Bit, bool>, b: Bit, now: int): Walk {
    var r := FrameOnBit(UidFaults(seeded, w.bits), active, b, now);
    Walk(w.bits[b := r.0], if r.1.Some? then w.emits + [Emit(b, r.1.value, now)] else w.emits)
  }

  function WalkAll(order: seq<Bit>, per: UidFaults, active: map<Bit, bool>, now: int): Walk {
    if order == [] then Walk(per.bits, [])
    else WalkBit(WalkAll(order[..|order| - 1], per, active, now), per.seeded, active, order[|order| - 1], now)
  }

  /** `w` is the frame applied to exactly the bits in `done`. */
  ghost predicate Walked(w: Walk, done: set<Bit>, per: UidFaults, active: map<Bit, bool>, now: int) {
    && w.bits.Keys == per.bits.Keys + done
    && (forall b :: Entry(w.bits, b) == if b in done then FrameOnBit(per, active, b, now).0 else Entry(per.bits, b))
    && (forall i, j :: 0 <= i < j < |w.emits| ==> w.emits[i].bit != w.emits[j].bit)
    && (forall e :: e in w.emits <==>
          e.bit in done && FrameOnBit(per, active, e.bit, now).1 == Some(e.kind) && e.at == now)
  }

  lemma WalkOneMore(w: Walk, done: set<Bit>, per: UidFaults, active: map<Bit, bool>, now: int, b: Bit)
    requires Walked(w, done, per, active, now) && b !in done
    ensures Walked(WalkBit(w, per.seeded, active, b, now), done + {b}, per, active, now)
  {
    var r := FrameOnBit(per, active, b, now);
    assert FrameOnBit(UidFaults(per.seeded, w.bits), active, b, now) == r by {
      assert Entry(w.bits, b) == Entry(per.bits, b);
    }
    var t := WalkBit(w, per.seeded, active, b, now);
    forall i | 0 <= i < |w.emits| ensures w.emits[i].bit != b {
      assert w.emits[i] in w.emits;
    }
    assert forall e :: e in t.emits <==> e in w.emits || (r.1.Some? && e == Emit(b, r.1.value, now));
  }

  lemma NothingWalked(per: UidFaults, active: map<Bit, bool>, now: int)
    ensures Walked(Walk(per.bits, []), {}, per, active, now)
  {
  }

  lemma {:induction false} WalkAllMeaning(order: seq<Bit>, done: set<Bit>, per: UidFaults,
                                          active: map<Bit, bool>, now: int)
    requires Lists(order, done)
    ensures Walked(WalkAll(order, per, active, now), done, per, active, now)
  {
    hide WalkBit, FrameOnBit, Walked;
    if order == [] {
      assert forall x :: x in done ==> x in order;
      NothingWalked(per, active, now);
      assert done == {};
    } else {
      var n := |order| - 1;
      var b := order[n];
      forall x ensures x in order[..n] <==> x in done - {b} {
        if x in order[..n] { assert exists i :: 0 <= i < n && order[i] == x; }
      }
      WalkAllMeaning(order[..n], done - {b}, per, active, now);
      WalkOneMore(WalkAll(order[..n], per, active, now), done - {b}, per, active, now, b);
      assert done - {b} + {b} == done;
    }
  }

  // ------------------------------------------------------------ whole runs over all inverters

  type Store = map<Uid, UidFaults>

  function FaultsOf(s: Store, u: Uid): UidFaults { if u in s then s[u] else UNSEEN }

  /** A telemetry frame (`active` is None when it cannot be classified; `order` is the map order in
      which its bits are visited), or the removal of an inverter. */
  datatype Happening =
    | Framed(uid: Uid, ts: int, active: Option<map<Bit, bool>>, now: int, order: seq<Bit>)
    | Gone(uid: Uid)
  {
    predicate Counts() { Framed? && uid != "" && ts > 0 && active.Some? }
  }

  ghost predicate Lawful(s: Store, h: Happening) {
    h.Counts() ==> Lists(h.order, FaultsOf(s, h.uid).bits.Keys + h.active.value.Keys)
  }

  /** What a happening does to the tracker, and what it logs for its inverter. */
  function Step(s: Store, h: Happening): (Store, seq<Emit>) {
    match h
    case Gone(uid) => (s - {uid}, [])
    case Framed(uid, ts, active, now, order) =>
      if !h.Counts() then (s, [])
      else
        var w := WalkAll(order, FaultsOf(s, uid), active.value, now);
        (s[uid := UidFaults(true, w.bits)], w.emits)
  }

  ghost function RunAll(hs: seq<Happening>): Store {
    if hs == [] then map[] else Step(RunAll(hs[..|hs| - 1]), hs[|hs| - 1]).0
  }

  ghost predicate AllLawful(hs: seq<Happening>) {
    forall k :: 0 <= k < |hs| ==> Lawful(RunAll(hs[..k]), hs[k])
  }

  function EdgesIn(emits: seq<Emit>, b: Bit): seq<Edge> {
    if emits == [] then []
    else
      var e := emits[|emits| - 1];
      EdgesIn(emits[..|emits| - 1], b) + if e.bit == b then [Edge(e.kind, e.at)] else []
  }

  /** What was logged for one bit of one inverter since that inverter was last removed. */
  ghost function EdgesSince(hs: seq<Happening>, u: Uid, b: Bit): seq<Edge> {
    if hs == [] then []
    else
      var before, h := hs[..|hs| - 1], hs[|hs| - 1];
      if h == Gone(u) then []
      else if h.uid != u then EdgesSince(before, u, b)
      else EdgesSince(before, u, b) + EdgesIn(Step(RunAll(before), h).1, b)
  }

  /** The run as one bit of one inverter lives it: its value in the first frame since the inverter
      was last removed, and the frames after that. */
  datatype History = History(seed: Option<bool>, frames: seq<Frame>)

  function Proj(hs: seq<Happening>, u: Uid, b: Bit): History {
    if hs == [] then History(None, [])
    else
      var p, h := Proj(hs[..|hs| - 1], u, b), hs[|hs| - 1];
      if h.uid != u then p
      else if h.Gone? then History(None, [])
      else if !h.Counts() then p
      else if p.seed.None? then History(Some(Active(h.active.value, b)), [])
      else History(p.seed, p.frames + [Frame(Active(h.active.value, b), h.now)])
  }

  /** The bit's state and log are those of its history. */
  ghost predicate Mirrors(per: UidFaults, b: Bit, log: seq<Edge>, p: History) {
    match p.seed
    case None => per == UNSEEN && log == []
    case Some(seed) => per.seeded && Entry(per.bits, b) == After(seed, p.frames) && log == LoggedAll(seed, p.frames)
  }

  lemma {:induction false} EdgesOfOthers(emits: seq<Emit>, b: Bit)
    requires forall e :: e in emits ==> e.bit != b
    ensures EdgesIn(emits, b) == []
  {
    if emits != [] {
      assert emits[|emits| - 1] in emits;
      EdgesOfOthers(emits[..|emits| - 1], b);
    }
  }

  /** Of a list that names each bit at most once, one bit's part is its own edge. */
  lemma {:induction false} EdgesOfWalk(emits: seq<Emit>, b: Bit, k: Option<Kind>, at: int)
    requires forall i, j :: 0 <= i < j < |emits| ==> emits[i].bit != emits[j].bit
    requires forall e :: e in emits && e.bit == b ==> k == Some(e.kind) && e.at == at
    requires k.Some? ==> Emit(b, k.value, at) in emits
    ensures EdgesIn(emits, b) == EdgeList(k, at)
  {
    if emits != [] {
      var n := |emits| - 1;
      assert emits[n] in emits;
      if emits[n].bit == b {
        EdgesOfOthers(emits[..n], b);
      } else {
        forall e | e in emits[..n] ensures e in emits {}
        EdgesOfWalk(emits[..n], b, k, at);
      }
    }
  }

  /** One frame is one frame of every bit, known or not, whatever order the bits are visited in. */
  lemma FrameOnEveryBit(order: seq<Bit>, per: UidFaults, active: map<Bit, bool>, now: int, b: Bit)
    requires Lists(order, per.bits.Keys + active.Keys)
    ensures var w, r := WalkAll(order, per, active, now), FrameOnBit(per, active, b, now);
            Entry(w.bits, b) == r.0 && EdgesIn(w.emits, b) == EdgeList(r.1, now)
  {
    hide WalkAll;
    var all := per.bits.Keys + active.Keys;
    WalkAllMeaning(order, all, per, active, now);
    var w, k := WalkAll(order, per, active, now), FrameOnBit(per, active, b, now).1;
    if b in all { EdgesOfWalk(w.emits, b, k, now); } else { EdgesOfOthers(w.emits, b); }
  }

  /** Over every run of the tracker, each bit of each inverter is in the state, and has logged
      exactly the edges, of its own frames since the inverter was last removed. */
  lemma {:induction false} TrackerIsItsBits(hs: seq<Happening>, u: Uid, b: Bit)
    requires AllLawful(hs)
    ensures Mirrors(FaultsOf(RunAll(hs), u), b, EdgesSince(hs, u, b), Proj(hs, u, b))
  {
    hide Lawful, Step;
    if hs != [] {
      var n := |hs| - 1;
      var prefix := hs[..n];
      forall k | 0 <= k < n ensures Lawful(RunAll(prefix[..k]), prefix[k]) {
        assert prefix[..k] == hs[..k];
      }
      TrackerIsItsBits(prefix, u, b);
      assert Lawful(RunAll(hs[..n]), hs[n]);
      StepOnBit(RunAll(prefix), hs[n], u, b, EdgesSince(prefix, u, b), Proj(prefix, u, b));
    }
  }

  /** So, where the clock does not go back, in the log of every run two raises of a bit have a clear
      between them and are at least a minute apart; even that clear is a minute before the later. */
  lemma LoggedRaisesAreSeparated(hs: seq<Happening>, u: Uid, b: Bit, i: nat, j: nat)
    requires AllLawful(hs) && ClockForward(Proj(hs, u, b).frames)
    requires var log := EdgesSince(hs, u, b);
             i < j < |log| && log[i].kind.Raised? && log[j].kind.Raised?
    ensures var log := EdgesSince(hs, u, b);
            && i < j - 1 && log[j - 1].kind.Cleared?
            && log[j].at - log[j - 1].at >= 60_000 && log[j].at - log[i].at >= 60_000
  {
    hide AllLawful, EdgesSince, Proj;
    TrackerIsItsBits(hs, u, b);
    var p := Proj(hs, u, b);
    if p.seed.Some? {
      LogIsWellSpaced(p.seed.value, p.frames);
    }
  }

  lemma StepOnBit(s: Store, h: Happening, u: Uid, b: Bit, log: seq<Edge>, p: History)
    requires Lawful(s, h) && Mirrors(FaultsOf(s, u), b, log, p)
    ensures var t := Step(s, h);
            && (h.uid != u ==> FaultsOf(t.0, u) == FaultsOf(s, u))
            && (h == Gone(u) ==> FaultsOf(t.0, u) == UNSEEN)
            && (h.uid == u && h.Framed? && !h.Counts() ==> t == (s, []) && log + EdgesIn(t.1, b) == log)
            && (h.uid == u && h.Counts() ==>
                  Mirrors(FaultsOf(t.0, u), b, log + EdgesIn(t.1, b),
                          if p.seed.None? then History(Some(Active(h.active.value, b)), [])
                          else History(p.seed, p.frames + [Frame(Active(h.active.value, b), h.now)])))
  {
    hide WalkAll, EdgesIn;
    if h.uid == u && h.Counts() {
      FrameOnEveryBit(h.order, FaultsOf(s, u), h.active.value, h.now, b);
      if p.seed.Some? {
        var more := p.frames + [Frame(Active(h.active.value, b), h.now)];
        assert more[..|p.frames|] == p.frames;
      }
    }
    NothingLogged(b);
    assert log + [] == log;
  }

  lemma NothingLogged(b: Bit)
    ensures EdgesIn([], b) == []
  {
  }

  class Tracker {
    var state: map<Uid, UidFaults>

    ghost function At(u: Uid): UidFaults
      reads this
    {
      FaultsOf(state, u)
    }

    constructor ()
      ensures forall u :: At(u) == UNSEEN
    {
      state := map[];
    }

    method Remove(uid: Uid)
      modifies this
      ensures state == Step(old(state), Gone(uid)).0
      ensures forall u :: At(u) == if u == uid then UNSEEN else old(At(u))
    {
      state := state - {uid};
    }

    /** The loop over every known bit, in map order; the first frame seeds silently. */
    method WalkBits(per: UidFaults, active: map<Bit, bool>, now: int)
      returns (bits: map<Bit, BitState>, emits: seq<Emit>, ghost order: seq<Bit>)
      ensures Lists(order, per.bits.Keys + active.Keys)
      ensures Walk(bits, emits) == WalkAll(order, per, active, now)
      ensures !per.seeded ==> emits == []
    {
      var visit := Enumerate(per.bits.Keys + active.Keys);
      order := visit;
      bits, emits := per.bits, [];
      for i := 0 to |visit|
        invariant Walk(bits, emits) == WalkAll(visit[..i], per, active, now)
        invariant !per.seeded ==> emits == []
      {
        assert visit[..i + 1][..i] == visit[..i];
        var name := visit[i];
        var st := if name in bits then bits[name] else QUIET;
        var on := name in active && active[name];
        if !per.seeded {
          st := st.(raised := on);
        } else if on && !st.raised {
          if !(st.lastCleared > 0 && now - st.lastCleared < COALESCE) { emits := emits + [Emit(name, Raised, now)]; }
          st := st.(raised := true);
        } else if !on && st.raised {
          st := BitState(false, now);
          emits := emits + [Emit(name, Cleared, now)];
        }
        bits := bits[name := st];
      }
      assert visit[..|visit|] == visit;
    }

    /** One telemetry frame. `active` is the bit set of the frame's family, None when the frame
        could not be classified. Every known bit is visited once, in map order; other
        inverters are untouched. */
    method MarkFaults(uid: Uid, ts: int, active: Option<map<Bit, bool>>, now: int)
      returns (emits: seq<Emit>, ghost order: seq<Bit>)
      modifies this
      ensures Lawful(old(state), Framed(uid, ts, active, now, order))
      ensures (state, emits) == Step(old(state), Framed(uid, ts, active, now, order))
      ensures forall u :: u != uid ==> At(u) == old(At(u))
      ensures uid == "" || ts <= 0 || active.None? ==> state == old(state) && emits == []
      ensures uid != "" && ts > 0 && active.Some? ==>
                && At(uid).seeded
                && Walked(Walk(At(uid).bits, emits), old(At(uid)).bits.Keys + active.value.Keys,
                          old(At(uid)), active.value, now)
                && (!old(At(uid)).seeded ==> emits == [])
    {
      hide WalkAll;
      emits, order := [], [];
      if uid == "" || ts <= 0 || active.None? { return; }
      var per := if uid in state then state[uid] else UNSEEN;
      var bits;
      bits, emits, order := WalkBits(per, active.value, now);
      WalkAllMeaning(order, per.bits.Keys + active.value.Keys, per, active.value, now);
      state := state[uid := UidFaults(true, bits)];
    }
  }
}
