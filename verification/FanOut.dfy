/** In-process fan-out: publishers walk the subscriber set under a read lock, sending without
    blocking, and evict slow subscribers afterwards under the write lock. */
module FanOut {
  type Sub = nat
  type Pub = nat
  type Envelope = nat

  const CHAN_CAP: nat := 64

  /** `got` is every envelope ever put on the channel; `queued` of them are not yet consumed. */
  datatype Chan = Chan(got: seq<Envelope>, queued: nat, closes: nat)

  datatype Phase = Sending | Evicting | Returned
  /** One Publish call. `seen` is the subscriber set it found when it took the read lock. */
  datatype Call = Call(env: Envelope, seen: set<Sub>, todo: set<Sub>, slow: set<Sub>, phase: Phase)

  datatype State = State(subs: set<Sub>, chans: map<Sub, Chan>, calls: map<Pub, Call>, sentOnClosed: bool)

  const INIT := State({}, map[], map[], false)

  datatype Step =
    | Subscribe(s: Sub)
    | Unsubscribe(s: Sub)
    | Consume(s: Sub)
    | Begin(p: Pub, env: Envelope)
    | SendOne(p: Pub, s: Sub)
    | EndSend(p: Pub)
    | Evict(p: Pub)

  /** The write lock is available: no Publish is inside its read section. */
  ghost predicate NoReader(st: State) {
    forall p :: p in st.calls ==> !st.calls[p].phase.Sending?
  }

  /** Removes and closes every channel of `gone` that is still registered. */
  function CloseAll(st: State, gone: set<Sub>): State {
    st.(subs := st.subs - gone,
        chans := map s | s in st.chans ::
          if s in gone && s in st.subs then st.chans[s].(closes := st.chans[s].closes + 1) else st.chans[s])
  }

  ghost function Next(st: State, e: Step): State {
    match e
    case Subscribe(s) =>
      if s in st.chans || !NoReader(st) then st
      else st.(subs := st.subs + {s}, chans := st.chans[s := Chan([], 0, 0)])
    case Unsubscribe(s) => if NoReader(st) then CloseAll(st, {s}) else st
    case Consume(s) =>
      if s in st.chans && st.chans[s].queued > 0
      then st.(chans := st.chans[s := st.chans[s].(queued := st.chans[s].queued - 1)]) else st
    case Begin(p, env) =>
      if p in st.calls then st else st.(calls := st.calls[p := Call(env, st.subs, st.subs, {}, Sending)])
    case SendOne(p, s) =>
      if p in st.calls && st.calls[p].phase.Sending? && s in st.calls[p].todo && s in st.chans
      then SendTo(st, p, s) else st
    case EndSend(p) =>
      if p in st.calls && st.calls[p].phase.Sending? && st.calls[p].todo == {}
      then st.(calls := st.calls[p := st.calls[p].(phase := if st.calls[p].slow == {} then Returned else Evicting)])
      else st
    case Evict(p) =>
      if p in st.calls && st.calls[p].phase.Evicting? && NoReader(st)
      then
        var t := CloseAll(st, st.calls[p].slow);
        t.(calls := t.calls[p := t.calls[p].(phase := Returned)])
      else st
  }

  /** One non-blocking send; on a closed channel Go would panic. */
  function SendTo(st: State, p: Pub, s: Sub): State
    requires p in st.calls && s in st.chans
  {
    var c, ch := st.calls[p], st.chans[s];
    if ch.closes > 0 then st.(sentOnClosed := true)
    else if ch.queued < CHAN_CAP then
      st.(chans := st.chans[s := Chan(ch.got + [c.env], ch.queued + 1, ch.closes)],
          calls := st.calls[p := c.(todo := c.todo - {s})])
    else
      st.(calls := st.calls[p := c.(todo := c.todo - {s}, slow := c.slow + {s})])
  }

  ghost function Run(steps: seq<Step>): State {
    if steps == [] then INIT else Next(Run(steps[..|steps| - 1]), steps[|steps| - 1])
  }

  ghost predicate ChannelInv(st: State) {
    && !st.sentOnClosed
    && (forall s :: s in st.subs ==> s in st.chans)
    && (forall s :: s in st.chans ==> st.chans[s].closes <= 1 && (st.chans[s].closes == 0 <==> s in st.subs))
    && (forall s :: s in st.chans ==> st.chans[s].queued <= CHAN_CAP && st.chans[s].queued <= |st.chans[s].got|)
  }

  /** What a Publish still owes each subscriber it found. */
  ghost predicate CallInv(st: State, c: Call) {
    && c.seen <= st.chans.Keys
    && (c.phase.Sending? ==> c.seen <= st.subs && c.todo <= c.seen)
    && (!c.phase.Sending? ==> c.todo == {})
    && (forall s :: s in c.seen ==>
          || s in c.todo
          || c.env in st.chans[s].got
          || (if c.phase.Returned? then st.chans[s].closes == 1 else s in c.slow))
  }

  ghost predicate Inv(st: State) {
    ChannelInv(st) && forall p :: p in st.calls ==> CallInv(st, st.calls[p])
  }

  lemma StepKeepsInv(st: State, e: Step)
    requires Inv(st)
    ensures Inv(Next(st, e))
  {
    ChannelsStayGood(st, e);
    var t := Next(st, e);
    forall p | p in t.calls ensures CallInv(t, t.calls[p]) {
      if p in st.calls { CallStaysGood(st, e, p); }
    }
  }

  lemma CallStaysGood(st: State, e: Step, p: Pub)
    requires Inv(st) && p in st.calls
    ensures var t := Next(st, e); p in t.calls && CallInv(t, t.calls[p])
  {
    assert CallInv(st, st.calls[p]);
  }

  lemma ChannelsStayGood(st: State, e: Step)
    requires Inv(st)
    ensures ChannelInv(Next(st, e))
  {
    if e.SendOne? && e.p in st.calls { assert CallInv(st, st.calls[e.p]); }
  }

  /** Every interleaving of Publish, Subscribe and unsubscribe: no send on a closed channel,
      no channel closed twice, and a subscriber that was registered when a Publish began and
      is still open when it has returned was given that envelope. */
  lemma {:induction false} FanOutSafety(steps: seq<Step>)
    ensures Inv(Run(steps))
    ensures var st := Run(steps);
            && !st.sentOnClosed
            && (forall s :: s in st.chans ==> st.chans[s].closes <= 1)
            && (forall p, s :: p in st.calls && st.calls[p].phase.Returned? && s in st.calls[p].seen && s in st.subs ==>
                  s in st.chans && st.calls[p].env in st.chans[s].got)
  {
    if steps != [] {
      FanOutSafety(steps[..|steps| - 1]);
      StepKeepsInv(Run(steps[..|steps| - 1]), steps[|steps| - 1]);
    }
    forall p, s | p in Run(steps).calls && Run(steps).calls[p].phase.Returned?
                  && s in Run(steps).calls[p].seen && s in Run(steps).subs
      ensures s in Run(steps).chans && Run(steps).calls[p].env in Run(steps).chans[s].got
    {
      assert CallInv(Run(steps), Run(steps).calls[p]);
    }
  }

  // ------------------------------------------------------------ who gets what

  /** What one step does to a subscriber: it joins with an empty open channel, a send puts the envelope
      on its channel exactly when there is room and otherwise marks it slow, and unsubscribing takes
      it out and closes its channel. */
  lemma StepsAtSubscriber(st: State, p: Pub, s: Sub)
    requires Inv(st)
    ensures s !in st.chans && NoReader(st) ==>
              var t := Next(st, Subscribe(s)); s in t.subs && s in t.chans && t.chans[s] == Chan([], 0, 0)
    ensures p in st.calls && st.calls[p].phase.Sending? && s in st.calls[p].todo ==>
              var t := Next(st, SendOne(p, s));
              && s in st.chans && s in t.chans && s !in t.calls[p].todo
              && if st.chans[s].queued < CHAN_CAP
                 then t.chans[s].got == st.chans[s].got + [st.calls[p].env]
                      && t.chans[s].queued == st.chans[s].queued + 1 && t.calls[p].slow == st.calls[p].slow
                 else t.chans == st.chans && t.calls[p].slow == st.calls[p].slow + {s}
    ensures s in st.subs && NoReader(st) ==>
              var t := Next(st, Unsubscribe(s)); s !in t.subs && s in t.chans && t.chans[s].closes == 1
    ensures s in st.chans && st.chans[s].queued > 0 ==>
              Next(st, Consume(s)).chans == st.chans[s := st.chans[s].(queued := st.chans[s].queued - 1)]
  {
    if p in st.calls { assert CallInv(st, st.calls[p]); }
  }

  /** The call began with this step of the run, and found these subscribers. */
  ghost predicate BeganAt(steps: seq<Step>, k: nat, p: Pub, c: Call) {
    k < |steps| && steps[k] == Begin(p, c.env) && c.seen == Run(steps[..k]).subs
  }

  /** Step `k` of the run is a send of `p` to `s` that finds its channel full. */
  ghost predicate FullAt(steps: seq<Step>, k: nat, p: Pub, s: Sub) {
    k < |steps| && steps[k] == SendOne(p, s)
    && s in Run(steps[..k]).chans && Run(steps[..k]).chans[s].queued >= CHAN_CAP
  }

  lemma StepAtCall(st: State, e: Step, p: Pub)
    ensures var t := Next(st, e);
            p in t.calls ==>
              && (p !in st.calls ==>
                    e == Begin(p, t.calls[p].env) && t.calls[p].seen == st.subs && t.calls[p].slow == {})
              && (p in st.calls ==> t.calls[p].env == st.calls[p].env && t.calls[p].seen == st.calls[p].seen)
              && (p in st.calls ==> forall s :: s in t.calls[p].slow && s !in st.calls[p].slow ==>
                    e == SendOne(p, s) && s in st.chans && st.chans[s].queued >= CHAN_CAP)
  {
  }

  /** Over every run: a call publishes the envelope it began with to exactly the subscribers there were
      then, and counts as slow only subscribers whose channel it found full. */
  lemma {:induction false} CallsAreTrue(steps: seq<Step>, p: Pub)
    requires p in Run(steps).calls
    ensures exists k :: BeganAt(steps, k, p, Run(steps).calls[p])
    ensures forall s :: s in Run(steps).calls[p].slow ==> exists k :: FullAt(steps, k, p, s)
  {
    hide Next;
    var n := |steps| - 1;
    var before := steps[..n];
    StepAtCall(Run(before), steps[n], p);
    if p in Run(before).calls {
      CallsAreTrue(before, p);
      var k :| BeganAt(before, k, p, Run(before).calls[p]);
      BeganEarlier(steps, k, p, Run(steps).calls[p]);
      forall s | s in Run(steps).calls[p].slow ensures exists k :: FullAt(steps, k, p, s) {
        if s in Run(before).calls[p].slow {
          var k :| FullAt(before, k, p, s);
          FullEarlier(steps, k, p, s);
        } else {
          assert FullAt(steps, n, p, s);
        }
      }
    } else {
      assert BeganAt(steps, n, p, Run(steps).calls[p]);
    }
  }

  lemma BeganEarlier(steps: seq<Step>, k: nat, p: Pub, c: Call)
    requires steps != [] && k < |steps| - 1 && steps[k] == Begin(p, c.env)
    requires c.seen == Run(steps[..|steps| - 1][..k]).subs
    ensures BeganAt(steps, k, p, c)
  {
    assert steps[..|steps| - 1][..k] == steps[..k];
  }

  lemma FullEarlier(steps: seq<Step>, k: nat, p: Pub, s: Sub)
    requires steps != [] && FullAt(steps[..|steps| - 1], k, p, s)
    ensures FullAt(steps, k, p, s)
  {
    assert steps[..|steps| - 1][..k] == steps[..k];
  }

  lemma ClosingStep(st: State, e: Step, s: Sub)
    requires s in Next(st, e).chans && Next(st, e).chans[s].closes > 0
    ensures (s in st.chans && st.chans[s].closes > 0) || e == Unsubscribe(s)
            || (e.Evict? && e.p in st.calls && s in st.calls[e.p].slow)
  {
  }

  /** A channel is closed only because its subscriber left, or because some call found it full. */
  lemma {:induction false} ClosedForCause(steps: seq<Step>, s: Sub)
    requires s in Run(steps).chans && Run(steps).chans[s].closes > 0
    ensures Unsubscribe(s) in steps || exists k, p :: FullAt(steps, k, p, s)
  {
    hide Next;
    var n := |steps| - 1;
    var before := steps[..n];
    ClosingStep(Run(before), steps[n], s);
    assert steps == before + [steps[n]];
    if s in Run(before).chans && Run(before).chans[s].closes > 0 {
      ClosedForCause(before, s);
      if k, p :| FullAt(before, k, p, s) { FullEarlier(steps, k, p, s); }
    } else if steps[n].Evict? {
      CallsAreTrue(before, steps[n].p);
      var k :| FullAt(before, k, steps[n].p, s);
      FullEarlier(steps, k, steps[n].p, s);
    }
  }

  /** So a subscriber that does not leave and never lets its channel fill up is given the envelope of
      every call that began while it was registered, once that call has returned. */
  lemma PromptSubscriberGetsAll(steps: seq<Step>, p: Pub, s: Sub)
    requires p in Run(steps).calls && Run(steps).calls[p].phase.Returned? && s in Run(steps).calls[p].seen
    requires Unsubscribe(s) !in steps && forall k, q :: !FullAt(steps, k, q, s)
    ensures s in Run(steps).subs && s in Run(steps).chans && Run(steps).calls[p].env in Run(steps).chans[s].got
  {
    FanOutSafety(steps);
    assert CallInv(Run(steps), Run(steps).calls[p]);
    if Run(steps).chans[s].closes > 0 { ClosedForCause(steps, s); }
  }

  lemma GotStep(st: State, e: Step, s: Sub)
    requires s in Next(st, e).chans
    ensures forall x :: x in Next(st, e).chans[s].got ==>
              (s in st.chans && x in st.chans[s].got) || (e.SendOne? && e.p in st.calls && x == st.calls[e.p].env)
  {
  }

  /** And nothing is put on a channel that was not published. */
  lemma {:induction false} OnlyPublished(steps: seq<Step>, s: Sub, x: Envelope)
    requires s in Run(steps).chans && x in Run(steps).chans[s].got
    ensures exists p :: Begin(p, x) in steps
  {
    hide Next;
    var n := |steps| - 1;
    GotStep(Run(steps[..n]), steps[n], s);
    assert steps == steps[..n] + [steps[n]];
    if s in Run(steps[..n]).chans && x in Run(steps[..n]).chans[s].got {
      OnlyPublished(steps[..n], s, x);
      var p :| Begin(p, x) in steps[..n];
      assert Begin(p, x) in steps;
    } else {
      CallsAreTrue(steps[..n], steps[n].p);
      var c := Run(steps[..n]).calls[steps[n].p];
      var k: nat :| BeganAt(steps[..n], k, steps[n].p, c);
      assert steps[..n][k] == Begin(steps[n].p, x);
      assert Begin(steps[n].p, x) in steps;
    }
  }

  // ------------------------------------------------------------ progress

  /** Something a call does itself. */
  predicate OwnStep(e: Step, p: Pub) { (e.SendOne? || e.EndSend? || e.Evict?) && e.p == p }

  /** A Publish can always go on by itself while it is sending, and evicts as soon as no call is
      inside its read section. */
  lemma PublishNeverStuck(steps: seq<Step>, p: Pub)
    requires p in Run(steps).calls && !Run(steps).calls[p].phase.Returned?
    ensures Run(steps).calls[p].phase.Sending? || NoReader(Run(steps)) ==>
              exists e: Step :: OwnStep(e, p) && Next(Run(steps), e) != Run(steps)
  {
    FanOutSafety(steps);
    var st := Run(steps);
    var c := st.calls[p];
    assert CallInv(st, c);
    if c.phase.Sending? {
      var e := EndSend(p);
      if c.todo != {} {
        var s :| s in c.todo;
        e := SendOne(p, s);
      }
      assert OwnStep(e, p) && Next(st, e).calls[p] != c;
    } else if NoReader(st) {
      assert OwnStep(Evict(p), p) && Next(st, Evict(p)).calls[p] != c;
    }
  }

  /** And publishers never wait for each other in a circle: as long as some Publish has not
      returned, some Publish can go on. */
  lemma SomePublishCanGoOn(steps: seq<Step>, p: Pub)
    requires p in Run(steps).calls && !Run(steps).calls[p].phase.Returned?
    ensures exists q: Pub, e: Step :: OwnStep(e, q) && Next(Run(steps), e) != Run(steps)
  {
    var q := p;
    if !NoReader(Run(steps)) { q :| q in Run(steps).calls && Run(steps).calls[q].phase.Sending?; }
    PublishNeverStuck(steps, q);
    var e :| OwnStep(e, q) && Next(Run(steps), e) != Run(steps);
  }
}

/** The backend registry: each publisher connection registers its outbound channel under its
    backend name and, once, unregisters and closes it in one critical section. */
module Registry {
  import opened Wrappers

  type Conn = nat

  datatype Outbound = Outbound(backend: string, queued: nat, closes: nat)

  datatype State = State(publishers: map<string, Conn>, conns: map<Conn, Outbound>, sentOnClosed: bool)

  datatype Step =
    | Register(c: Conn, backend: string)
    | Exit(c: Conn)
    | Send(backend: string, capacity: nat)
    | Drain(c: Conn)

  function UnregisterAndClose(s: State, c: Conn): State
    requires c in s.conns
  {
    var b := s.conns[c].backend;
    var p := if b in s.publishers && s.publishers[b] == c then s.publishers - {b} else s.publishers;
    s.(publishers := p, conns := s.conns[c := s.conns[c].(closes := s.conns[c].closes + 1)])
  }

  /** The enqueue and whether it succeeded. */
  function SendToBackend(s: State, backend: string, capacity: nat): (State, bool) {
    if backend !in s.publishers || s.publishers[backend] !in s.conns then (s, false)
    else
      var c := s.publishers[backend];
      var o := s.conns[c];
      if o.closes > 0 then (s.(sentOnClosed := true), false)
      else if o.queued >= capacity then (s, false)
      else (s.(conns := s.conns[c := o.(queued := o.queued + 1)]), true)
  }

  /** A connection handler registers once and exits once (its deferred close). */
  function Next(s: State, e: Step): State {
    match e
    case Register(c, b) =>
      if c in s.conns then s else s.(publishers := s.publishers[b := c], conns := s.conns[c := Outbound(b, 0, 0)])
    case Exit(c) => if c in s.conns && s.conns[c].closes == 0 then UnregisterAndClose(s, c) else s
    case Send(b, capacity) => SendToBackend(s, b, capacity).0
    case Drain(c) =>
      if c in s.conns && s.conns[c].queued > 0
      then s.(conns := s.conns[c := s.conns[c].(queued := s.conns[c].queued - 1)]) else s
  }

  function Run(steps: seq<Step>): State {
    if steps == [] then State(map[], map[], false) else Next(Run(steps[..|steps| - 1]), steps[|steps| - 1])
  }

  ghost predicate Inv(s: State) {
    && !s.sentOnClosed
    && (forall c :: c in s.conns ==> s.conns[c].closes <= 1)
    && (forall b :: b in s.publishers ==>
          s.publishers[b] in s.conns && s.conns[s.publishers[b]].closes == 0 && s.conns[s.publishers[b]].backend == b)
  }

  /** A registered backend channel is always open, a channel closes at most once, and a
      connection's exit removes only its own registration, never its successor's. */
  lemma {:induction false} RegistrySafety(steps: seq<Step>)
    ensures Inv(Run(steps))
    ensures forall c :: var s := Run(steps);
              c in s.conns && s.conns[c].backend in s.publishers && s.publishers[s.conns[c].backend] != c ==>
                Next(s, Exit(c)).publishers == s.publishers
  {
    if steps != [] {
      RegistrySafety(steps[..|steps| - 1]);
    }
  }

  /** The latest connection that registered under the name, unless it has exited since. */
  function Latest(steps: seq<Step>, backend: string): Option<Conn> {
    if steps == [] then None
    else
      var before, e := steps[..|steps| - 1], steps[|steps| - 1];
      var l := Latest(before, backend);
      match e
      case Register(c, b) => if b == backend && c !in Run(before).conns then Some(c) else l
      case Exit(c) => if l == Some(c) then None else l
      case _ => l
  }

  /** Over every run a name leads to the latest connection registered under it, as long as that one has
      not exited, and to nobody after that. */
  lemma {:induction false} NameLeadsToLatest(steps: seq<Step>, backend: string)
    ensures var s := Run(steps);
            Latest(steps, backend) == if backend in s.publishers then Some(s.publishers[backend]) else None
  {
    if steps != [] {
      NameLeadsToLatest(steps[..|steps| - 1], backend);
      RegistrySafety(steps[..|steps| - 1]);
    }
  }

  /** A send succeeds exactly when the backend is registered and its queue has room. */
  lemma SendSucceeds(steps: seq<Step>, backend: string, capacity: nat)
    ensures var s := Run(steps);
            (backend in s.publishers ==> s.publishers[backend] in s.conns) &&
            (SendToBackend(s, backend, capacity).1
             <==> backend in s.publishers && s.conns[s.publishers[backend]].queued < capacity)
  {
    RegistrySafety(steps);
  }
}
