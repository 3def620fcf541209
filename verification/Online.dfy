/** One inverter as the online tracker sees it, and whole runs of it. Times are in
    milliseconds; telemetry and sweeps share one clock. */
module OnlineCell {
  import opened Wrappers

  const ONLINE_WINDOW := 60_000
  const OFFLINE_DEBOUNCE := 300_000

  datatype Kind = Online | Offline | Sunrise | Sundown

  datatype InvOnline = InvOnline(online: bool, offlineSince: int)
  const FRESH := InvOnline(false, 0)

  /** An inverter's last telemetry time, if any is recorded, and its tracker entry. */
  datatype Cell = Cell(last: Option<int>, st: InvOnline)
  const EMPTY := Cell(None, FRESH)

  function MarkSeen(c: Cell, ts: int): Cell {
    if ts <= 0 then c else c.(last := Some(ts))
  }

  /** The sweep's verdict on one inverter: its new entry and the event to log, if any. */
  function SweepEntry(st: InvOnline, last: int, now: int): (InvOnline, Option<Kind>) {
    if now - last <= ONLINE_WINDOW then (InvOnline(true, 0), if st.online then None else Some(Online))
    else if !st.online then (st, None)
    else
      var start := last + ONLINE_WINDOW;
      var since := if st.offlineSince == 0 || start < st.offlineSince then start else st.offlineSince;
      if now - since >= OFFLINE_DEBOUNCE then (InvOnline(false, since), Some(Offline))
      else (InvOnline(true, since), None)
  }

  function Sweep(c: Cell, now: int): (Cell, Option<Kind>) {
    if c.last.None? then (c, None)
    else
      var r := SweepEntry(c.st, c.last.value, now);
      (c.(st := r.0), r.1)
  }

  // ---------------------------------------------------------------- runs

  datatype Event = Seen(ts: int) | Swept(now: int) | Removed

  /** The inverter's state after a run and the events logged for it since its last removal. */
  function Run(es: seq<Event>): (Cell, seq<Kind>) {
    if es == [] then (EMPTY, [])
    else
      var r := Run(es[..|es| - 1]);
      match es[|es| - 1]
      case Seen(ts) => (MarkSeen(r.0, ts), r.1)
      case Swept(now) =>
        var s := Sweep(r.0, now);
        (s.0, r.1 + if s.1.Some? then [s.1.value] else [])
      case Removed => (EMPTY, [])
  }

  function LastSweep(es: seq<Event>): Option<int> {
    if es == [] then None
    else if es[|es| - 1].Swept? then Some(es[|es| - 1].now)
    else LastSweep(es[..|es| - 1])
  }

  function LastFrame(es: seq<Event>): Option<int> {
    if es == [] then None
    else if es[|es| - 1].Seen? then Some(es[|es| - 1].ts)
    else LastFrame(es[..|es| - 1])
  }

  /** Sweeps are at most `period` apart, and no recorded frame carries a time more than `lag` before
      the sweep it follows. A frame is stamped where it is received and handled later, so a lag is
      ordinary; the order of the stamps is free. */
  predicate Timely(es: seq<Event>, period: int, lag: int) {
    es == [] ||
    var before := es[..|es| - 1];
    Timely(before, period, lag) &&
    match es[|es| - 1]
    case Seen(ts) => ts > 0 && LastSweep(before).Some? ==> ts >= LastSweep(before).value - lag
    case Swept(now) => LastSweep(before).Some? ==> now - LastSweep(before).value <= period
    case Removed => true
  }

  /** The well-behaved runs: frame times and sweep times never go back, and no frame is stamped
      after the sweep that follows it. */
  predicate Orderly(es: seq<Event>) {
    es == [] ||
    var before := es[..|es| - 1];
    Orderly(before) &&
    match es[|es| - 1]
    case Seen(ts) => ts > 0 && (LastFrame(before).Some? ==> LastFrame(before).value <= ts)
    case Swept(now) =>
      && (LastSweep(before).Some? ==> LastSweep(before).value <= now)
      && (LastFrame(before).Some? ==> LastFrame(before).value <= now)
    case Removed => true
  }

  /** The inverter was heard no earlier than `lag` before the sweep at `s`. */
  predicate Heard(c: Cell, s: int, lag: int)
    requires c.last.Some?
  {
    c.last.value >= s - lag
  }

  /** The inverter's silence at the sweep at `s` was not yet six minutes long, and the tracker knows
      when it began. */
  predicate Tracked(c: Cell, s: int)
    requires c.last.Some?
  {
    && s - c.last.value < ONLINE_WINDOW + OFFLINE_DEBOUNCE
    && (c.st.offlineSince != 0 ==> c.st.offlineSince == c.last.value + ONLINE_WINDOW)
  }

  ghost predicate Inv(es: seq<Event>, lag: int) {
    var c, s := Run(es).0, LastSweep(es);
    && (c.last.Some? ==> c.last.value > 0)
    && (c.last.None? ==> c == EMPTY)
    && (c.st.online ==> c.last.Some? && s.Some? && (Heard(c, s.value, lag) || Tracked(c, s.value)))
  }

  lemma {:induction false} InvHolds(es: seq<Event>, period: int, lag: int)
    requires Timely(es, period, lag) && period + lag <= ONLINE_WINDOW
    ensures Inv(es, lag)
  {
    if es != [] { InvHolds(es[..|es| - 1], period, lag); }
  }

  /** The stamp of the latest frame since the inverter was last removed; frames without one, that is
      with a stamp that is not positive, do not count. */
  function LastStamp(es: seq<Event>): Option<int> {
    if es == [] then None
    else match es[|es| - 1]
      case Seen(ts) => if ts > 0 then Some(ts) else LastStamp(es[..|es| - 1])
      case Swept(_) => LastStamp(es[..|es| - 1])
      case Removed => None
  }

  /** That is what the tracker goes by, whatever it thinks of the inverter. */
  lemma {:induction false} LastIsLastStamp(es: seq<Event>)
    ensures Run(es).0.last == LastStamp(es)
  {
    hide SweepEntry;
    if es != [] { LastIsLastStamp(es[..|es| - 1]); }
  }

  /** In every run whose sweep period and frame lag together stay within the online window, a sweep
      logs "offline" exactly when the inverter counted as online and has been silent for six
      minutes, which is caught within one more period; it logs "online" exactly when the inverter
      counted as offline and was heard within the window. */
  lemma SweepVerdict(es: seq<Event>, now: int, period: int, lag: int)
    requires Timely(es + [Swept(now)], period, lag) && period + lag <= 60_000
    ensures var on, last := Run(es).0.st.online, LastStamp(es);
            var kind := Sweep(Run(es).0, now).1;
            && (kind == Some(Offline) <==>
                  on && last.Some? && now - last.value >= 360_000)
            && (kind == Some(Online) <==> !on && last.Some? && now - last.value <= 60_000)
            && (kind == Some(Offline) ==> now - last.value < 360_000 + period)
            && Run(es + [Swept(now)]).1 == Run(es).1 + if kind.Some? then [kind.value] else []
  {
    assert (es + [Swept(now)])[..|es|] == es;
    InvHolds(es, period, lag);
    LastIsLastStamp(es);
  }

  lemma SweepLogs(c: Cell, now: int)
    ensures var kind := Sweep(c, now).1; kind.None? || kind == Some(Online) || kind == Some(Offline)
  {
  }

  /** Where the outage began by each sweep that found the inverter silent, since the last sweep that did
      not or found it offline already. */
  function Starts(es: seq<Event>): seq<int> {
    if es == [] then []
    else
      var before := es[..|es| - 1];
      match es[|es| - 1]
      case Seen(_) => Starts(before)
      case Removed => []
      case Swept(now) =>
        var last := LastStamp(before);
        if last.None? then Starts(before)
        else if now - last.value <= ONLINE_WINDOW then []
        else if !Run(before).0.st.online then Starts(before)
        else Starts(before) + [last.value + ONLINE_WINDOW]
  }

  ghost predicate Earliest(x: int, starts: seq<int>) { x in starts && forall y :: y in starts ==> x <= y }

  /** While an inverter counts as online the tracker remembers the earliest of them, if any. */
  lemma {:induction false} RemembersEarliest(es: seq<Event>)
    ensures var st, starts := Run(es).0.st, Starts(es);
            && (forall x :: x in starts ==> x > 0)
            && (st.online ==> if starts == [] then st.offlineSince == 0 else Earliest(st.offlineSince, starts))
  {
    if es != [] {
      RemembersEarliest(es[..|es| - 1]);
      LastIsLastStamp(es[..|es| - 1]);
      StampIsPositive(es[..|es| - 1]);
    }
  }

  lemma {:induction false} StampIsPositive(es: seq<Event>)
    ensures LastStamp(es).Some? ==> LastStamp(es).value > 0
  {
    if es != [] { StampIsPositive(es[..|es| - 1]); }
  }

  lemma EarliestIs(since: int, start: int, was: int, before: seq<int>)
    requires if before == [] then was == 0 else Earliest(was, before) && was > 0
    requires since == if was == 0 || start < was then start else was
    ensures forall x :: Earliest(x, before + [start]) <==> x == since
  {
    assert start in before + [start];
    forall x | Earliest(x, before + [start]) ensures x == since {
      assert since in before + [start];
    }
    assert forall y :: y in before + [start] <==> y in before || y == start;
    assert Earliest(since, before + [start]);
  }

  ghost predicate Due(starts: seq<int>, now: int) { exists x :: Earliest(x, starts) && now - x >= 300_000 }

  /** The verdict of a sweep in any run whatsoever: "offline" exactly when the inverter counted as
      online, is silent, and the earliest start of this outage is five minutes old; "online" exactly
      when it counted as offline and was heard within the window. */
  lemma AnyVerdict(es: seq<Event>, now: int)
    ensures var on, last, starts := Run(es).0.st.online, LastStamp(es), Starts(es + [Swept(now)]);
            var kind := Sweep(Run(es).0, now).1;
            && (kind == Some(Online) <==> !on && last.Some? && now - last.value <= 60_000)
            && (kind == Some(Offline) <==>
                  on && last.Some? && now - last.value > 60_000 && Due(starts, now))
  {
    assert (es + [Swept(now)])[..|es|] == es;
    RemembersEarliest(es);
    LastIsLastStamp(es);
    var last, before := LastStamp(es), Starts(es);
    StampIsPositive(es);
    if Run(es).0.st.online && last.Some? && now - last.value > ONLINE_WINDOW {
      var start, was := last.value + ONLINE_WINDOW, Run(es).0.st.offlineSince;
      var since := if was == 0 || start < was then start else was;
      EarliestIs(since, start, was, before);
      assert Starts(es + [Swept(now)]) == before + [start];
      assert Earliest(since, before + [start]) && (Due(before + [start], now) <==> now - since >= OFFLINE_DEBOUNCE);
    }
  }

  /** So a night is not for ever: an inverter that was logged offline and is heard again is logged
      online by the next sweep within the window of that frame. */
  lemma ComesBack(es: seq<Event>, ts: int, now: int)
    requires !Run(es).0.st.online && ts > 0 && now - ts <= 60_000
    ensures Run(es + [Seen(ts), Swept(now)]).1 == Run(es).1 + [Online]
  {
    var mid := es + [Seen(ts)];
    var all := es + [Seen(ts), Swept(now)];
    assert mid[..|es|] == es && all[..|all| - 1] == mid;
  }

  /** The logged events of an inverter strictly alternate, starting with "online", and the
      tracker's flag says which came last. */
  lemma {:induction false} EventsAlternate(es: seq<Event>)
    ensures var r := Run(es);
            && (forall i :: 0 <= i < |r.1| ==> r.1[i] == if i % 2 == 0 then Online else Offline)
            && r.0.st.online == (|r.1| % 2 == 1)
            && (r.0.last.None? ==> r.0 == EMPTY)
  {
    if es != [] { EventsAlternate(es[..|es| - 1]); }
  }

  // ---------------------------------------------------------------- the sweep period

  /** No run with such a period and lag (if `orderly`, no well-behaved run) logs "offline" before
      six minutes of silence. */
  ghost predicate DebounceHolds(period: int, lag: int, orderly: bool) {
    forall es: seq<Event>, now: int | Admitted(es + [Swept(now)], period, lag, orderly) :: NotTooEarly(es, now)
  }

  predicate Admitted(es: seq<Event>, period: int, lag: int, orderly: bool) {
    Timely(es, period, lag) && (orderly ==> Orderly(es))
  }

  predicate NotTooEarly(es: seq<Event>, now: int) {
    Sweep(Run(es).0, now).1 == Some(Offline) ==>
      LastStamp(es).Some? && now - LastStamp(es).value >= 360_000
  }

  /** Six minutes of silence are guaranteed exactly when sweep period and frame lag together stay
      within one online window, whether or not the clocks are well behaved. Beyond it there is a
      run in which an inverter that is heard between any two sweeps is logged offline. */
  lemma SweepPeriodIff(period: int, lag: int, orderly: bool)
    requires period >= 1 && lag >= 0
    ensures DebounceHolds(period, lag, orderly) <==> period + lag <= 60_000
  {
    if period + lag <= ONLINE_WINDOW {
      forall es: seq<Event>, now: int | Admitted(es + [Swept(now)], period, lag, orderly)
        ensures NotTooEarly(es, now)
      {
        SweepVerdict(es, now, period, lag);
      }
    } else {
      var p := if period <= ONLINE_WINDOW then period else ONLINE_WINDOW + 1;
      var k := DripFires(p, 0);
      var es, now := Drip(p, k), SweepTime(p, k + 1);
      assert (es + [Swept(now)])[..|es|] == es;
      DripIsAdmitted(p, k, period, lag);
      assert Admitted(es + [Swept(now)], period, lag, orderly) && !NotTooEarly(es, now);
    }
  }

  /** How far the frames of the drip lag behind: with the period, one millisecond too much. */
  function DripLag(p: int): int { ONLINE_WINDOW + 1 - p }

  function SweepTime(p: int, k: nat): int { if k == 0 then 1 + DripLag(p) else SweepTime(p, k - 1) + p }

  /** Sweeps `p` apart, and after each of them a frame that lags behind it. */
  function Drip(p: int, k: nat): seq<Event> {
    var t := SweepTime(p, k);
    if k == 0 then [Seen(1), Swept(t)] else Drip(p, k - 1) + [Swept(t), Seen(t - DripLag(p))]
  }

  lemma {:induction false} DripIsAdmitted(p: int, k: nat, period: int, lag: int)
    requires 1 <= p <= period && 0 <= DripLag(p) <= lag
    ensures var es := Drip(p, k);
            && Timely(es, period, lag) && Orderly(es) && LastSweep(es) == Some(SweepTime(p, k))
            && LastFrame(es) == Some(SweepTime(p, k) - DripLag(p)) && SweepTime(p, k) >= 1 + DripLag(p)
  {
    var t, es := SweepTime(p, k), Drip(p, k);
    if k == 0 {
      var first := [Seen(1)];
      assert es[..1] == first && first[..0] == [];
      assert Timely([], period, lag) && Orderly([]) && LastSweep([]).None? && LastFrame([]).None?;
      assert Timely(first, period, lag) && Orderly(first) && LastSweep(first).None? && LastFrame(first) == Some(1);
    } else {
      DripIsAdmitted(p, k - 1, period, lag);
      var mid := Drip(p, k - 1) + [Swept(t)];
      assert es[..|es| - 1] == mid && mid[..|mid| - 1] == Drip(p, k - 1);
      assert Timely(mid, period, lag) && Orderly(mid) && LastSweep(mid) == Some(t);
    }
  }

  /** The outage the second sweep sees is never cleared, however recent the frames are: after the
      debounce has passed since then, a sweep logs "offline". */
  lemma {:induction false} DripState(p: int, k: nat)
    requires 1 <= p <= ONLINE_WINDOW + 1 && SweepTime(p, k) - (1 + ONLINE_WINDOW) < OFFLINE_DEBOUNCE
    ensures Run(Drip(p, k)).0 ==
              Cell(Some(SweepTime(p, k) - DripLag(p)), InvOnline(true, if k == 0 then 0 else 1 + ONLINE_WINDOW))
    ensures k > 0 ==> SweepTime(p, k) >= 2 + ONLINE_WINDOW
  {
    var t, es := SweepTime(p, k), Drip(p, k);
    if k == 0 {
      var first := [Seen(1)];
      assert es[..1] == first && first[..0] == [];
      assert Run(first) == (Cell(Some(1), FRESH), []);
    } else {
      DripState(p, k - 1);
      var mid := Drip(p, k - 1) + [Swept(t)];
      assert es[..|es| - 1] == mid && mid[..|mid| - 1] == Drip(p, k - 1);
      assert Run(mid).0 == Cell(Some(t - (ONLINE_WINDOW + 1)), InvOnline(true, 1 + ONLINE_WINDOW));
    }
  }

  /** And there is such a sweep. */
  lemma {:induction false} DripFires(p: int, k: nat) returns (n: nat)
    requires 1 <= p <= ONLINE_WINDOW + 1 && SweepTime(p, k) - (1 + ONLINE_WINDOW) < OFFLINE_DEBOUNCE
    ensures n >= k && !NotTooEarly(Drip(p, n), SweepTime(p, n + 1))
    decreases 1 + ONLINE_WINDOW + OFFLINE_DEBOUNCE - SweepTime(p, k)
  {
    n := k;
    DripState(p, k);
    LastIsLastStamp(Drip(p, k));
    if SweepTime(p, k + 1) - (1 + ONLINE_WINDOW) < OFFLINE_DEBOUNCE {
      n := DripFires(p, k + 1);
    }
  }
}

/** The tracker over the whole fleet: maps swept in arbitrary order, and the debounced
    "any inverter online" flag. */
module OnlineTracker {
  import opened Wrappers
  import opened Iteration
  import opened OnlineCell

  type Uid = string
  datatype Emit = Emit(uid: Uid, kind: Kind)

  /** Sunrise and sundown, from one sweep's answer to the next. */
  function FleetEvent(was: bool, any: bool): Option<Kind> {
    if was == any then None else if any then Some(Sunrise) else Some(Sundown)
  }

  /** `emits` reports, once each and in some order, the verdicts of the inverters in `swept`. */
  ghost predicate Reports(emits: seq<Emit>, swept: set<Uid>, verdict: map<Uid, (InvOnline, Option<Kind>)>) {
    && (forall i, j :: 0 <= i < j < |emits| ==> emits[i].uid != emits[j].uid)
    && (forall e :: e in emits <==> e.uid in swept && e.uid in verdict && verdict[e.uid].1 == Some(e.kind))
  }

  function Report(emits: seq<Emit>, u: Uid, k: Option<Kind>): seq<Emit> {
    if k.Some? then emits + [Emit(u, k.value)] else emits
  }

  /** A sweep under way: entries, events so far, and whether anything swept is online. */
  datatype Sweeping = Sweeping(entries: map<Uid, InvOnline>, emits: seq<Emit>, anyOnline: bool)

  function SweepUid(s: Sweeping, u: Uid, last: int, now: int): Sweeping {
    var r := SweepEntry(if u in s.entries then s.entries[u] else FRESH, last, now);
    Sweeping(s.entries[u := r.0], Report(s.emits, u, r.1), s.anyOnline || r.0.online)
  }

  function SweepAll(order: seq<Uid>, was: map<Uid, InvOnline>, seen: map<Uid, int>, now: int): Sweeping
    requires forall u :: u in order ==> u in seen
  {
    if order == [] then Sweeping(was, [], false)
    else
      var u := order[|order| - 1];
      SweepUid(SweepAll(order[..|order| - 1], was, seen, now), u, seen[u], now)
  }

  /** What sweeping the listed inverters amounts to, whatever the order. */
  ghost predicate Swept(s: Sweeping, swept: set<Uid>, was: map<Uid, InvOnline>, seen: map<Uid, int>, now: int)
    requires swept <= seen.Keys
  {
    var verdict := Verdicts(was, seen, now);
    && s.entries.Keys == was.Keys + swept
    && (forall u :: u in s.entries ==> s.entries[u] == if u in swept then verdict[u].0 else was[u])
    && (s.anyOnline <==> exists u :: u in swept && verdict[u].0.online)
    && Reports(s.emits, swept, verdict)
  }

  lemma SweepOneMore(s: Sweeping, swept: set<Uid>, was: map<Uid, InvOnline>, seen: map<Uid, int>, now: int, u: Uid)
    requires swept <= seen.Keys && u in seen && u !in swept && Swept(s, swept, was, seen, now)
    ensures Swept(SweepUid(s, u, seen[u], now), swept + {u}, was, seen, now)
  {
    var verdict := Verdicts(was, seen, now);
    assert (if u in s.entries then s.entries[u] else FRESH) == (if u in was then was[u] else FRESH);
    ReportOneMore(s.emits, swept, verdict, u);
    var t := SweepUid(s, u, seen[u], now);
    if t.anyOnline && !s.anyOnline { assert verdict[u].0.online; }
  }

  lemma NothingSwept(was: map<Uid, InvOnline>, seen: map<Uid, int>, now: int)
    ensures Swept(Sweeping(was, [], false), {}, was, seen, now)
  {
  }

  lemma {:induction false} SweepAllMeaning(order: seq<Uid>, swept: set<Uid>, was: map<Uid, InvOnline>,
                                           seen: map<Uid, int>, now: int)
    requires swept <= seen.Keys && Lists(order, swept)
    ensures Swept(SweepAll(order, was, seen, now), swept, was, seen, now)
  {
    hide SweepUid, Swept, SweepEntry;
    if order == [] {
      assert forall x :: x in swept ==> x in order;
      assert swept == {};
      NothingSwept(was, seen, now);
    } else {
      var n := |order| - 1;
      var u := order[n];
      forall x ensures x in order[..n] <==> x in swept - {u} {
        if x in order[..n] { assert exists i :: 0 <= i < n && order[i] == x; }
      }
      SweepAllMeaning(order[..n], swept - {u}, was, seen, now);
      SweepOneMore(SweepAll(order[..n], was, seen, now), swept - {u}, was, seen, now, u);
      assert swept - {u} + {u} == swept;
    }
  }

  lemma ReportOneMore(emits: seq<Emit>, swept: set<Uid>, verdict: map<Uid, (InvOnline, Option<Kind>)>, u: Uid)
    requires Reports(emits, swept, verdict) && u !in swept && u in verdict
    ensures Reports(Report(emits, u, verdict[u].1), swept + {u}, verdict)
  {
    var more := Report(emits, u, verdict[u].1);
    forall i | 0 <= i < |emits| ensures emits[i].uid != u {
      assert emits[i] in emits;
    }
    assert forall e :: e in more <==> e in emits || (verdict[u].1.Some? && e == Emit(u, verdict[u].1.value));
  }

  /** Each inverter's verdict; its entry may not exist yet. */
  function Verdicts(was: map<Uid, InvOnline>, seen: map<Uid, int>, now: int): map<Uid, (InvOnline, Option<Kind>)> {
    map u | u in seen :: SweepEntry(if u in was then was[u] else FRESH, seen[u], now)
  }

  function CellOf(state: map<Uid, InvOnline>, seen: map<Uid, int>, u: Uid): Cell {
    Cell(if u in seen then Some(seen[u]) else None, if u in state then state[u] else FRESH)
  }

  /** Sweeping the whole fleet, in any order, sweeps every inverter as if it were alone. */
  lemma SweepAllSweepsEach(order: seq<Uid>, was: map<Uid, InvOnline>, seen: map<Uid, int>, now: int)
    requires Lists(order, seen.Keys) && was.Keys <= seen.Keys
    ensures var s := SweepAll(order, was, seen, now);
            && s.entries.Keys == seen.Keys
            && (forall u :: CellOf(s.entries, seen, u) == Sweep(CellOf(was, seen, u), now).0)
            && (s.anyOnline <==> exists u :: u in seen && CellOf(s.entries, seen, u).st.online)
            && Reports(s.emits, seen.Keys, Verdicts(was, seen, now))
            && (forall u :: u in seen ==> Verdicts(was, seen, now)[u].1 == Sweep(CellOf(was, seen, u), now).1)
  {
    SweepAllMeaning(order, seen.Keys, was, seen, now);
    var s := SweepAll(order, was, seen, now);
    forall u | u in seen ensures CellOf(s.entries, seen, u).st == Verdicts(was, seen, now)[u].0 {}
  }

  // ---------------------------------------------------------------- whole runs of the fleet

  datatype Core = Core(lastSeen: map<Uid, int>, state: map<Uid, InvOnline>, fleetOnline: bool) {
    function At(u: Uid): Cell { CellOf(state, lastSeen, u) }

    ghost predicate Valid() { state.Keys <= lastSeen.Keys && "" !in lastSeen }
  }

  const START := Core(map[], map[], false)

  /** `order` is the map order in which a sweep happens to visit the inverters. */
  datatype Happening = SeenAt(uid: Uid, ts: int) | SweptAt(now: int, order: seq<Uid>) | Gone(uid: Uid)

  ghost predicate Lawful(s: Core, h: Happening) { h.SweptAt? ==> Lists(h.order, s.lastSeen.Keys) }

  /** What happens to the tracker, and the events it emits. */
  function Step(s: Core, h: Happening): (Core, seq<Emit>)
    requires h.SweptAt? ==> forall u :: u in h.order ==> u in s.lastSeen
  {
    match h
    case SeenAt(uid, ts) => (if uid == "" || ts <= 0 then s else s.(lastSeen := s.lastSeen[uid := ts]), [])
    case Gone(uid) => (s.(lastSeen := s.lastSeen - {uid}, state := s.state - {uid}), [])
    case SweptAt(now, order) =>
      var w := SweepAll(order, s.state, s.lastSeen, now);
      var e := FleetEvent(s.fleetOnline, w.anyOnline);
      (Core(s.lastSeen, w.entries, w.anyOnline), w.emits + if e.Some? then [Emit("", e.value)] else [])
  }

  /** The tracker after a run, and the whole log. A sweep in anything but a map order is no event. */
  ghost function RunFleet(hs: seq<Happening>): (Core, seq<Emit>) {
    if hs == [] then (START, [])
    else
      var before, h := RunFleet(hs[..|hs| - 1]), hs[|hs| - 1];
      if !Lawful(before.0, h) then before
      else
        var after := Step(before.0, h);
        (after.0, before.1 + after.1)
  }

  ghost predicate AllLawful(hs: seq<Happening>) {
    forall k :: 0 <= k < |hs| ==> Lawful(RunFleet(hs[..k]).0, hs[k])
  }

  function KindsIn(emits: seq<Emit>, u: Uid): seq<Kind> {
    if emits == [] then []
    else
      var e := emits[|emits| - 1];
      KindsIn(emits[..|emits| - 1], u) + if e.uid == u then [e.kind] else []
  }

  /** What was logged for an inverter since it was last removed. */
  ghost function KindsSince(hs: seq<Happening>, u: Uid): seq<Kind> {
    if hs == [] then []
    else
      var n := |hs| - 1;
      if hs[n] == Gone(u) then []
      else if !Lawful(RunFleet(hs[..n]).0, hs[n]) then KindsSince(hs[..n], u)
      else KindsSince(hs[..n], u) + KindsIn(Step(RunFleet(hs[..n]).0, hs[n]).1, u)
  }

  /** The run as one inverter lives it. */
  function Proj(hs: seq<Happening>, u: Uid): seq<Event> {
    if hs == [] then []
    else
      Proj(hs[..|hs| - 1], u) +
      match hs[|hs| - 1]
      case SeenAt(uid, ts) => if uid == u then [Seen(ts)] else []
      case SweptAt(now, _) => [Event.Swept(now)]
      case Gone(uid) => if uid == u then [Event.Removed] else []
  }

  lemma LawfulOrder(s: Core, h: Happening)
    requires Lawful(s, h) && h.SweptAt?
    ensures forall u :: u in h.order ==> u in s.lastSeen
  {
  }

  lemma {:induction false} KindsOfOthers(emits: seq<Emit>, u: Uid)
    requires forall e :: e in emits ==> e.uid != u
    ensures KindsIn(emits, u) == []
  {
    if emits != [] {
      assert emits[|emits| - 1] in emits;
      KindsOfOthers(emits[..|emits| - 1], u);
    }
  }

  lemma {:induction false} KindsAppend(a: seq<Emit>, b: seq<Emit>, u: Uid)
    ensures KindsIn(a + b, u) == KindsIn(a, u) + KindsIn(b, u)
  {
    if b == [] {
      assert a + b == a;
    } else {
      assert (a + b)[..|a + b| - 1] == a + b[..|b| - 1];
      KindsAppend(a, b[..|b| - 1], u);
    }
  }

  /** Of a list that names each inverter once, one inverter's part is its own verdict. */
  lemma {:induction false} KindsOfReport(emits: seq<Emit>, u: Uid, k: Option<Kind>)
    requires forall i, j :: 0 <= i < j < |emits| ==> emits[i].uid != emits[j].uid
    requires forall e :: e in emits && e.uid == u ==> k == Some(e.kind)
    requires k.Some? ==> Emit(u, k.value) in emits
    ensures KindsIn(emits, u) == if k.Some? then [k.value] else []
  {
    if emits != [] {
      var n := |emits| - 1;
      assert emits[n] in emits;
      if emits[n].uid == u {
        KindsOfOthers(emits[..n], u);
      } else {
        forall e | e in emits[..n] ensures e in emits {}
        KindsOfReport(emits[..n], u, k);
      }
    }
  }

  /** One sweep of the fleet is one sweep of every inverter, and its log splits accordingly. */
  lemma SweepOfFleet(s: Core, now: int, order: seq<Uid>, u: Uid)
    requires s.Valid() && Lists(order, s.lastSeen.Keys)
    ensures forall v :: v in order ==> v in s.lastSeen
    ensures var (t, emits) := Step(s, SweptAt(now, order));
            && t.Valid()
            && t.At(u) == Sweep(s.At(u), now).0
            && (u != "" ==> KindsIn(emits, u) == KindList(Sweep(s.At(u), now).1))
            && KindsIn(emits, "") == KindList(FleetEvent(s.fleetOnline, t.fleetOnline))
            && (t.fleetOnline <==> exists v :: v in t.lastSeen && t.At(v).st.online)
  {
    SweepOfState(s, now, order, u);
    SweepOfLog(s, now, order, u);
  }

  lemma SweepOfState(s: Core, now: int, order: seq<Uid>, u: Uid)
    requires s.Valid() && Lists(order, s.lastSeen.Keys)
    ensures forall v :: v in order ==> v in s.lastSeen
    ensures var t := Step(s, SweptAt(now, order)).0;
            && t.Valid()
            && t.At(u) == Sweep(s.At(u), now).0
            && (t.fleetOnline <==> exists v :: v in t.lastSeen && t.At(v).st.online)
  {
    hide Sweep, SweepAll, Reports, Verdicts, KindsIn;
    SweepAllSweepsEach(order, s.state, s.lastSeen, now);
    var w, t := SweepAll(order, s.state, s.lastSeen, now), Step(s, SweptAt(now, order)).0;
    assert forall v :: t.At(v) == CellOf(w.entries, s.lastSeen, v);
  }

  lemma SweepOfLog(s: Core, now: int, order: seq<Uid>, u: Uid)
    requires s.Valid() && Lists(order, s.lastSeen.Keys)
    ensures forall v :: v in order ==> v in s.lastSeen
    ensures var (t, emits) := Step(s, SweptAt(now, order));
            && (u != "" ==> KindsIn(emits, u) == KindList(Sweep(s.At(u), now).1))
            && KindsIn(emits, "") == KindList(FleetEvent(s.fleetOnline, t.fleetOnline))
  {
    hide Sweep, SweepAll;
    SweepAllSweepsEach(order, s.state, s.lastSeen, now);
    var w, verdict := SweepAll(order, s.state, s.lastSeen, now), Verdicts(s.state, s.lastSeen, now);
    var (t, emits) := Step(s, SweptAt(now, order));
    var e := FleetEvent(s.fleetOnline, w.anyOnline);
    KindsAppend(w.emits, if e.Some? then [Emit("", e.value)] else [], u);
    KindsAppend(w.emits, if e.Some? then [Emit("", e.value)] else [], "");
    FleetPart(e, u);
    KindsOfOthers(w.emits, "");
    if u in s.lastSeen {
      KindsOfReport(w.emits, u, verdict[u].1);
    } else {
      KindsOfOthers(w.emits, u);
      NeverSeenIsQuiet(s, now, u);
    }
  }

  function KindList(k: Option<Kind>): seq<Kind> { if k.Some? then [k.value] else [] }

  lemma FleetPart(e: Option<Kind>, u: Uid)
    ensures var emits := if e.Some? then [Emit("", e.value)] else [];
            KindsIn(emits, u) == if u == "" then KindList(e) else []
  {
  }

  lemma NeverSeenIsQuiet(s: Core, now: int, u: Uid)
    requires u !in s.lastSeen
    ensures Sweep(s.At(u), now).1.None?
  {
  }

  lemma {:induction false} RunStaysValid(hs: seq<Happening>)
    ensures RunFleet(hs).0.Valid()
  {
    hide Sweep, SweepAll;
    if hs != [] {
      var before, h := RunFleet(hs[..|hs| - 1]).0, hs[|hs| - 1];
      RunStaysValid(hs[..|hs| - 1]);
      if h.SweptAt? && Lawful(before, h) { SweepOfFleet(before, h.now, h.order, ""); }
    }
  }

  /** Over every run of the whole fleet, each inverter's state and its log since its last removal
      are those of that inverter living its own events alone. */
  lemma {:induction false} FleetIsItsInverters(hs: seq<Happening>, u: Uid)
    requires AllLawful(hs) && u != ""
    ensures var one := Run(Proj(hs, u));
            RunFleet(hs).0.At(u) == one.0 && KindsSince(hs, u) == one.1
  {
    if hs != [] {
      var n := |hs| - 1;
      AllLawfulPrefix(hs);
      FleetIsItsInverters(hs[..n], u);
      hide Proj, RunFleet, KindsSince, Run, Lawful;
      FleetStep(hs[..n], hs[n], u);
      assert hs == hs[..n] + [hs[n]];
    }
  }

  lemma AllLawfulPrefix(hs: seq<Happening>)
    requires AllLawful(hs) && hs != []
    ensures AllLawful(hs[..|hs| - 1]) && Lawful(RunFleet(hs[..|hs| - 1]).0, hs[|hs| - 1])
  {
    hide Lawful, RunFleet;
    var prefix := hs[..|hs| - 1];
    forall k | 0 <= k < |prefix| ensures Lawful(RunFleet(prefix[..k]).0, prefix[k]) {
      assert prefix[..k] == hs[..k];
    }
  }

  /** One happening as one inverter lives it. */
  lemma StepAtOne(s: Core, h: Happening, u: Uid)
    requires s.Valid() && Lawful(s, h) && u != ""
    ensures h.SweptAt? ==> forall v :: v in h.order ==> v in s.lastSeen
    ensures var (t, emits) := Step(s, h);
            && (h.SweptAt? ==> t.At(u) == Sweep(s.At(u), h.now).0
                               && KindsIn(emits, u) == KindList(Sweep(s.At(u), h.now).1))
            && (!h.SweptAt? ==> KindsIn(emits, u) == [])
            && (h.SeenAt? && h.uid == u ==> t.At(u) == MarkSeen(s.At(u), h.ts))
            && (h.Gone? && h.uid == u ==> t.At(u) == EMPTY)
            && (!h.SweptAt? && h.uid != u ==> t.At(u) == s.At(u))
  {
    hide Sweep, SweepAll, FleetEvent;
    if h.SweptAt? { SweepOfFleet(s, h.now, h.order, u); }
  }

  lemma FleetStep(prefix: seq<Happening>, h: Happening, u: Uid)
    requires Lawful(RunFleet(prefix).0, h) && u != ""
    requires RunFleet(prefix).0.At(u) == Run(Proj(prefix, u)).0 && KindsSince(prefix, u) == Run(Proj(prefix, u)).1
    ensures var one := Run(Proj(prefix + [h], u));
            RunFleet(prefix + [h]).0.At(u) == one.0 && KindsSince(prefix + [h], u) == one.1
  {
    hide Step, Sweep, MarkSeen, Run, Proj, Lawful, KindsIn;
    assert (prefix + [h])[..|prefix|] == prefix;
    ProjOneMore(prefix, h, u);
    RunStaysValid(prefix);
    StepAtOne(RunFleet(prefix).0, h, u);
  }

  lemma ProjOneMore(prefix: seq<Happening>, h: Happening, u: Uid)
    ensures var p, q := Proj(prefix, u), Proj(prefix + [h], u);
            && (h.SweptAt? ==> Run(q).0 == Sweep(Run(p).0, h.now).0
                               && Run(q).1 == Run(p).1 + KindList(Sweep(Run(p).0, h.now).1))
            && (h.SeenAt? && h.uid == u ==> Run(q) == (MarkSeen(Run(p).0, h.ts), Run(p).1))
            && (h.Gone? && h.uid == u ==> Run(q) == (EMPTY, []))
            && (!h.SweptAt? && h.uid != u ==> q == p)
  {
    hide Sweep;
    assert (prefix + [h])[..|prefix|] == prefix;
    var p, q := Proj(prefix, u), Proj(prefix + [h], u);
    if h.SweptAt? || h.uid == u {
      assert q[..|p|] == p && |q| == |p| + 1;
    }
  }

  /** After every sweep of a run the fleet flag says whether some inverter is online. */
  lemma FleetFlagAfterSweep(hs: seq<Happening>, now: int, order: seq<Uid>)
    requires Lawful(RunFleet(hs).0, SweptAt(now, order))
    ensures var s := RunFleet(hs + [SweptAt(now, order)]).0;
            s.fleetOnline <==> exists u :: u in s.lastSeen && s.At(u).st.online
  {
    hide SweepAll;
    assert (hs + [SweptAt(now, order)])[..|hs|] == hs;
    RunStaysValid(hs);
    SweepOfFleet(RunFleet(hs).0, now, order, "");
  }

  ghost predicate Alternating(kinds: seq<Kind>, flag: bool) {
    && (forall i :: 0 <= i < |kinds| ==> kinds[i] == if i % 2 == 0 then Sunrise else Sundown)
    && flag == (|kinds| % 2 == 1)
  }

  /** In the log of every run sunrise and sundown strictly alternate, sunrise first, and the flag
      says which came last, whatever is seen, removed or swept in between. */
  lemma {:induction false} SunriseSundownAlternate(hs: seq<Happening>)
    ensures Alternating(KindsIn(RunFleet(hs).1, ""), RunFleet(hs).0.fleetOnline)
  {
    hide Step, Lawful, Alternating, KindsIn;
    if hs == [] {
      NothingAlternates();
    } else {
      var before, h := RunFleet(hs[..|hs| - 1]), hs[|hs| - 1];
      SunriseSundownAlternate(hs[..|hs| - 1]);
      if Lawful(before.0, h) {
        RunStaysValid(hs[..|hs| - 1]);
        StepAlternates(before.0, before.1, h);
      }
    }
  }

  lemma NothingAlternates()
    ensures Alternating(KindsIn([], ""), false)
  {
  }

  lemma StepAlternates(s: Core, log: seq<Emit>, h: Happening)
    requires s.Valid() && Lawful(s, h) && Alternating(KindsIn(log, ""), s.fleetOnline)
    ensures h.SweptAt? ==> forall u :: u in h.order ==> u in s.lastSeen
    ensures var (t, emits) := Step(s, h); Alternating(KindsIn(log + emits, ""), t.fleetOnline)
  {
    hide Sweep, SweepAll, Alternating, FleetEvent, KindsIn;
    if h.SweptAt? {
      LawfulOrder(s, h);
      SweepOfFleet(s, h.now, h.order, "");
      var (t, emits) := Step(s, h);
      KindsAppend(log, emits, "");
      AlternatesOneMore(KindsIn(log, ""), s.fleetOnline, t.fleetOnline);
    } else {
      assert log + [] == log;
    }
  }

  lemma AlternatesOneMore(kinds: seq<Kind>, was: bool, any: bool)
    requires Alternating(kinds, was)
    ensures Alternating(kinds + KindList(FleetEvent(was, any)), any)
  {
  }

  /** The verdicts of a run of the whole fleet: where the period of the sweeps and the lag of an
      inverter's own frames stay within the window, a sweep logs it offline exactly after six
      minutes of silence since the latest frame it sent, online exactly when that frame is within the
      window, and its log strictly alternates. */
  lemma FleetVerdict(hs: seq<Happening>, now: int, order: seq<Uid>, u: Uid, period: int, lag: int)
    requires AllLawful(hs) && Lawful(RunFleet(hs).0, SweptAt(now, order)) && u != ""
    requires Timely(Proj(hs, u) + [Event.Swept(now)], period, lag) && period + lag <= 60_000
    ensures var s, kinds := RunFleet(hs).0, KindsSince(hs, u);
            && (forall i :: 0 <= i < |kinds| ==> kinds[i] == if i % 2 == 0 then Online else Offline)
            && var swept, last := KindsIn(Step(s, SweptAt(now, order)).1, u), LastStamp(Proj(hs, u));
               var on := |kinds| % 2 == 1;
               && (swept == [Offline] <==>
                     on && last.Some? && now - last.value >= 360_000)
               && (swept == [Online] <==> !on && last.Some? && now - last.value <= 60_000)
               && (swept == [] || swept == [Offline] || swept == [Online])
  {
    hide Sweep, SweepAll;
    FleetIsItsInverters(hs, u);
    EventsAlternate(Proj(hs, u));
    SweepVerdict(Proj(hs, u), now, period, lag);
    SweepLogs(Run(Proj(hs, u)).0, now);
    RunStaysValid(hs);
    SweepOfFleet(RunFleet(hs).0, now, order, u);
  }

  class Tracker {
    var lastSeen: map<Uid, int>
    var state: map<Uid, InvOnline>
    var fleetOnline: bool

    ghost function View(): Core
      reads this
    {
      Core(lastSeen, state, fleetOnline)
    }

    ghost function At(u: Uid): Cell
      reads this
    {
      View().At(u)
    }

    ghost predicate Valid()
      reads this
    {
      View().Valid()
    }

    constructor ()
      ensures Valid() && View() == START && forall u :: At(u) == EMPTY
    {
      lastSeen, state, fleetOnline := map[], map[], false;
    }

    method MarkSeen(uid: Uid, ts: int)
      requires Valid()
      modifies this
      ensures Valid() && View() == Step(old(View()), SeenAt(uid, ts)).0
      ensures forall u :: At(u).st == old(At(u)).st
      ensures forall u :: At(u).last == if u == uid && uid != "" && ts > 0 then Some(ts) else old(At(u)).last
    {
      if uid == "" || ts <= 0 { return; }
      lastSeen := lastSeen[uid := ts];
    }

    method Remove(uid: Uid)
      requires Valid()
      modifies this
      ensures Valid() && View() == Step(old(View()), Gone(uid)).0
      ensures forall u :: At(u) == if u == uid then EMPTY else old(At(u))
    {
      lastSeen, state := lastSeen - {uid}, state - {uid};
    }

    /** The loop: every known inverter is visited once, in map order. */
    method SweepKnown(now: int) returns (emits: seq<Emit>, anyOnline: bool, ghost order: seq<Uid>)
      requires Valid()
      modifies `state
      ensures Lists(order, lastSeen.Keys) && forall u :: u in order ==> u in lastSeen
      ensures Sweeping(state, emits, anyOnline) == SweepAll(order, old(state), lastSeen, now)
    {
      var visit := Enumerate(lastSeen.Keys);
      order := visit;
      ghost var was := state;
      emits, anyOnline := [], false;
      for i := 0 to |visit|
        invariant Sweeping(state, emits, anyOnline) == SweepAll(visit[..i], was, lastSeen, now)
      {
        assert visit[..i + 1][..i] == visit[..i];
        var uid := visit[i];
        assert uid in visit;
        var r := SweepEntry(if uid in state then state[uid] else FRESH, lastSeen[uid], now);
        state := state[uid := r.0];
        if r.1.Some? { emits := emits + [Emit(uid, r.1.value)]; }
        if r.0.online { anyOnline := true; }
      }
      assert visit[..|visit|] == visit;
    }

    /** One sweep: every inverter's verdict once, then the fleet event, if any. `perUid` is the
        part of the events that concerns inverters. */
    method OnlineSweep(now: int) returns (emits: seq<Emit>, ghost perUid: seq<Emit>, ghost order: seq<Uid>)
      requires Valid()
      modifies this
      ensures Valid() && lastSeen == old(lastSeen)
      ensures Lawful(old(View()), SweptAt(now, order)) && forall u :: u in order ==> u in old(lastSeen)
      ensures (View(), emits) == Step(old(View()), SweptAt(now, order))
      ensures forall u :: At(u) == Sweep(old(At(u)), now).0
      ensures Reports(perUid, lastSeen.Keys, Verdicts(old(state), lastSeen, now))
      ensures forall u :: u in lastSeen ==> Verdicts(old(state), lastSeen, now)[u].1 == Sweep(old(At(u)), now).1
      ensures fleetOnline <==> exists u :: u in lastSeen && At(u).st.online
      ensures var e := FleetEvent(old(fleetOnline), fleetOnline);
              emits == perUid + if e.Some? then [Emit("", e.value)] else []
    {
      hide SweepAll, Reports, Verdicts, Sweep;
      var anyOnline;
      emits, anyOnline, order := SweepKnown(now);
      perUid := emits;
      SweepAllSweepsEach(order, old(state), lastSeen, now);
      assert emits + [] == emits;
      if anyOnline != fleetOnline {
        emits := emits + [Emit("", if anyOnline then Sunrise else Sundown)];
        fleetOnline := anyOnline;
      }
    }
  }
}
