/** Request/reply correlation of the pairing transport: monotone request ids, a table of
    waiting calls, and one-slot reply channels (one per call, named by its id). */
module Transport {
  import opened Wrappers

  type Id = nat

  datatype Reply = Reply(reqId: Id, ok: bool, payload: nat)
  datatype Outcome = Got(reply: Reply) | SendFailed | TimedOut | Cancelled

  /** The shared fields; the member functions are the critical sections over them. */
  datatype Table = Table(reqSeq: Id, waiters: set<Id>) {
    function NextId(): Table { this.(reqSeq := reqSeq + 1) }
    function Register(id: Id): Table { this.(waiters := waiters + {id}) }
    function Cleanup(id: Id): Table { this.(waiters := waiters - {id}) }
  }

  class Correlator {
    var reqSeq: Id
    var waiters: set<Id>

    ghost function View(): Table
      reads this
    {
      Table(reqSeq, waiters)
    }

    constructor ()
      ensures View() == Table(0, {})
    {
      reqSeq, waiters := 0, {};
    }

    method NextId() returns (id: Id)
      modifies this
      ensures View() == old(View()).NextId() && id == reqSeq > old(reqSeq)
    {
      reqSeq := reqSeq + 1;
      id := reqSeq;
    }

    method Register(id: Id)
      modifies this
      ensures View() == old(View()).Register(id)
    {
      waiters := waiters + {id};
    }

    method Cleanup(id: Id)
      modifies this
      ensures View() == old(View()).Cleanup(id)
    {
      waiters := waiters - {id};
    }

    /** The locked half of Deliver: find the waiter and strike it off. */
    method Take(id: Id) returns (found: bool)
      modifies this
      ensures found == (id in old(waiters)) && View() == old(View()).Cleanup(id)
    {
      found := id in waiters;
      if found { waiters := waiters - {id}; }
    }
  }

  datatype Phase =
    | Numbered               // has its id
    | Registered             // its channel is in the table, the command is not sent
    | Awaiting
    | Failing(why: Outcome)  // about to clean up
    | Returned(outcome: Outcome)

  /** `sent[id]`: every value ever put on the call's channel. `inflight[id]`: the reply that a
      delivery has taken the channel for but not put on it yet; `clash` records a second
      delivery taking a channel that another still has to use. */
  datatype State = State(table: Table, calls: map<Id, Phase>, sent: map<Id, seq<Reply>>,
                         inflight: map<Id, Reply>, clash: bool)
  {
    function Sent(id: Id): seq<Reply> { if id in sent then sent[id] else [] }
    function At(id: Id, p: Phase): State { this.(calls := calls[id := p]) }
    predicate Is(id: Id, p: Phase) { id in calls && calls[id] == p }
    predicate Past(id: Id) { id in calls && !calls[id].Numbered? }
  }

  datatype Step =
    | Call
    | Register(id: Id)
    | Send(id: Id, ok: bool)
    | Expire(id: Id, why: Outcome)
    | Cleanup(id: Id)
    | Receive(id: Id)
    | Take(r: Reply)   // Deliver, under the lock
    | Put(id: Id)      // Deliver, the channel send

  function Next(s: State, e: Step): State {
    match e
    case Call =>
      var t := s.table.NextId();
      s.(table := t, calls := s.calls[t.reqSeq := Numbered])
    case Register(id) =>
      if s.Is(id, Numbered) then s.At(id, Registered).(table := s.table.Register(id)) else s
    case Send(id, ok) =>
      if s.Is(id, Registered) then s.At(id, if ok then Awaiting else Failing(SendFailed)) else s
    case Expire(id, why) =>
      if s.Is(id, Awaiting) && (why.TimedOut? || why.Cancelled?) then s.At(id, Failing(why)) else s
    case Cleanup(id) =>
      if id in s.calls && s.calls[id].Failing?
      then s.At(id, Returned(s.calls[id].why)).(table := s.table.Cleanup(id)) else s
    case Receive(id) =>
      if s.Is(id, Awaiting) && s.Sent(id) != [] then s.At(id, Returned(Got(s.Sent(id)[0]))) else s
    case Take(r) =>
      if r.reqId !in s.table.waiters then s
      else s.(table := s.table.Cleanup(r.reqId), inflight := s.inflight[r.reqId := r],
              clash := s.clash || r.reqId in s.inflight)
    case Put(id) =>
      if id !in s.inflight then s
      else s.(sent := s.sent[id := s.Sent(id) + [s.inflight[id]]], inflight := s.inflight - {id})
  }

  function Run(steps: seq<Step>): State {
    if steps == [] then State(Table(0, {}), map[], map[], map[], false)
    else Next(Run(steps[..|steps| - 1]), steps[|steps| - 1])
  }

  /** A call's one delivery is in at most one place: its table entry, a delivery under way,
      or its channel; and a call returns only what its channel was sent. */
  ghost predicate CallOk(s: State, id: Id) {
    && (id in s.calls ==> id <= s.table.reqSeq)
    && (id in s.calls && s.calls[id].Failing? ==> !s.calls[id].why.Got?)
    && (id in s.table.waiters ==>
          && s.Sent(id) == [] && id !in s.inflight
          && id in s.calls && (s.calls[id].Registered? || s.calls[id].Awaiting? || s.calls[id].Failing?))
    && (id in s.inflight ==> s.Sent(id) == [] && s.inflight[id].reqId == id && s.Past(id))
    && (s.Sent(id) != [] ==> |s.Sent(id)| == 1 && s.Sent(id)[0].reqId == id && s.Past(id))
    && (id in s.calls && s.calls[id].Returned? && s.calls[id].outcome.Got? ==>
          s.Sent(id) == [s.calls[id].outcome.reply])
  }

  ghost predicate Inv(s: State) { !s.clash && forall id :: CallOk(s, id) }

  lemma StepKeepsCall(s: State, e: Step, id: Id)
    requires CallOk(s, id)
    ensures CallOk(Next(s, e), id)
  {
    if s.Sent(id) != [] { assert s.Sent(id) == [s.Sent(id)[0]]; }
  }

  lemma StepKeepsInv(s: State, e: Step)
    requires Inv(s)
    ensures Inv(Next(s, e))
  {
    if e.Take? { assert CallOk(s, e.r.reqId); }
    forall id ensures CallOk(Next(s, e), id) {
      assert CallOk(s, id);
      StepKeepsCall(s, e, id);
    }
  }

  lemma {:induction false} InvHolds(steps: seq<Step>)
    ensures Inv(Run(steps))
  {
    if steps != [] {
      InvHolds(steps[..|steps| - 1]);
      StepKeepsInv(Run(steps[..|steps| - 1]), steps[|steps| - 1]);
    }
  }

  /** Under any order of sends, replies, duplicates, timeouts and cancels: a call returns only
      a reply carrying its own id, no table entry outlives its call, every channel receives at
      most one value, and the channel a delivery is about to use is still empty and is its
      alone, so the one-slot send never blocks. */
  lemma CorrelationSafety(steps: seq<Step>, id: Id)
    ensures var s := Run(steps);
            && (id in s.calls && s.calls[id].Returned? && s.calls[id].outcome.Got? ==>
                  s.calls[id].outcome.reply.reqId == id)
            && (id in s.calls && s.calls[id].Returned? ==> id !in s.table.waiters)
            && (id in s.table.waiters ==> id in s.calls)
            && |s.Sent(id)| <= 1
            && (id in s.inflight ==> s.Sent(id) == [])
            && !s.clash
  {
    InvHolds(steps);
    assert CallOk(Run(steps), id);
  }

  /** A duplicate or late reply is dropped: once a call's entry is gone, delivering its id
      again changes nothing, in every continuation of the run. */
  lemma {:induction false} LateReplyDropped(before: seq<Step>, after: seq<Step>, r: Reply)
    requires Run(before).Past(r.reqId) && r.reqId !in Run(before).table.waiters
    ensures var s := Run(before + after);
            s.Past(r.reqId) && r.reqId !in s.table.waiters && Next(s, Take(r)) == s
  {
    if after == [] {
      assert before + after == before;
    } else {
      LateReplyDropped(before, after[..|after| - 1], r);
      var mid := before + after[..|after| - 1];
      assert (before + after)[..|before + after| - 1] == mid;
      InvHolds(mid);
      assert CallOk(Run(mid), r.reqId);
      EntryStaysGone(Run(mid), after[|after| - 1], r.reqId);
    }
  }

  lemma EntryStaysGone(s: State, e: Step, id: Id)
    requires CallOk(s, id) && s.Past(id) && id !in s.table.waiters
    ensures var t := Next(s, e); t.Past(id) && id !in t.table.waiters
  {
  }

  // ------------------------------------------------------------ what a call returns

  lemma RepliesStep(s: State, e: Step, id: Id)
    ensures var t := Next(s, e);
            && (id in t.inflight ==>
                  (id in s.inflight && s.inflight[id] == t.inflight[id]) || e == Take(t.inflight[id]))
            && forall r :: r in t.Sent(id) ==> r in s.Sent(id) || (id in s.inflight && r == s.inflight[id])
  {
  }

  /** Whatever is on its way to a call, or on its channel, was delivered as it is. */
  lemma {:induction false} OnlyDeliveredReplies(steps: seq<Step>, id: Id)
    ensures id in Run(steps).inflight ==> Take(Run(steps).inflight[id]) in steps
    ensures forall r :: r in Run(steps).Sent(id) ==> Take(r) in steps
  {
    if steps != [] {
      hide Next;
      var n := |steps| - 1;
      OnlyDeliveredReplies(steps[..n], id);
      RepliesStep(Run(steps[..n]), steps[n], id);
      assert steps == steps[..n] + [steps[n]];
    }
  }

  lemma SentIsOwn(steps: seq<Step>, id: Id)
    ensures Run(steps).Sent(id) != [] ==> Run(steps).Sent(id)[0].reqId == id
  {
    InvHolds(steps);
    assert CallOk(Run(steps), id);
  }

  /** What a call returned, or is about to. */
  function OutcomeOf(s: State, id: Id): Option<Outcome> {
    if id !in s.calls then None
    else match s.calls[id]
      case Failing(why) => Some(why)
      case Returned(outcome) => Some(outcome)
      case _ => None
  }

  lemma OutcomeStep(s: State, e: Step, id: Id)
    ensures var was, now := OutcomeOf(s, id), OutcomeOf(Next(s, e), id);
            now.Some? && now != was ==>
              match now.value
              case Got(r) => s.Sent(id) != [] && r == s.Sent(id)[0]
              case SendFailed => e == Send(id, false)
              case why => e == Expire(id, why)
  {
  }

  /** Each outcome of a call has its cause in the run: a reply is returned as it was delivered, a send
      failure after a refused send, a timeout or cancellation after that very expiry. */
  lemma {:induction false} OutcomeHasCause(steps: seq<Step>, id: Id)
    ensures var c := OutcomeOf(Run(steps), id);
            c.Some? ==>
              match c.value
              case Got(r) => r.reqId == id && Take(r) in steps
              case SendFailed => Send(id, false) in steps
              case why => Expire(id, why) in steps
  {
    if steps != [] {
      hide Next, OutcomeOf;
      var n := |steps| - 1;
      OutcomeHasCause(steps[..n], id);
      OutcomeStep(Run(steps[..n]), steps[n], id);
      OnlyDeliveredReplies(steps[..n], id);
      SentIsOwn(steps[..n], id);
      assert steps == steps[..n] + [steps[n]];
    } else {
      assert OutcomeOf(Run([]), id).None?;
    }
  }

  /** The reply is on its way to the waiting call, is on its channel, or has been returned by it. */
  predicate OnItsWay(s: State, id: Id, r: Reply) {
    || (s.Is(id, Awaiting) && id in s.inflight && s.inflight[id] == r)
    || (s.Is(id, Awaiting) && s.Sent(id) == [r])
    || s.Is(id, Returned(Got(r)))
  }

  lemma OnItsWayStep(s: State, e: Step, id: Id, r: Reply)
    requires Inv(s) && OnItsWay(s, id, r) && !(e.Expire? && e.id == id)
    ensures OnItsWay(Next(s, e), id, r)
  {
    assert CallOk(s, id);
  }

  /** A reply that finds its call waiting is not lost: whatever else happens, the call is bound to
      return exactly it, unless the call expires first. */
  lemma {:induction false} TakenReplyIsReturned(before: seq<Step>, after: seq<Step>, r: Reply)
    requires Run(before).Is(r.reqId, Awaiting) && r.reqId in Run(before).table.waiters
    requires forall e :: e in after && e.Expire? ==> e.id != r.reqId
    ensures OnItsWay(Run(before + [Take(r)] + after), r.reqId, r)
  {
    var steps := before + [Take(r)] + after;
    if after == [] {
      assert steps == before + [Take(r)];
      assert (before + [Take(r)])[..|before|] == before;
    } else {
      var n := |after| - 1;
      TakenReplyIsReturned(before, after[..n], r);
      var mid := before + [Take(r)] + after[..n];
      assert steps[..|steps| - 1] == mid && steps[|steps| - 1] == after[n];
      InvHolds(mid);
      OnItsWayStep(Run(mid), after[n], r.reqId, r);
    }
  }

  /** And the call can do so at once: the delivery's send, then its own receive, and it has returned
      exactly that reply. */
  lemma RoundTrip(steps: seq<Step>, r: Reply)
    requires Run(steps).Is(r.reqId, Awaiting) && r.reqId in Run(steps).table.waiters
    ensures var s := Next(Next(Next(Run(steps), Take(r)), Put(r.reqId)), Receive(r.reqId));
            s.Is(r.reqId, Returned(Got(r))) && s.Sent(r.reqId) == [r]
  {
    InvHolds(steps);
    assert CallOk(Run(steps), r.reqId);
  }

  /** A call starts under an id no call had before. */
  lemma FreshId(steps: seq<Step>)
    ensures var s := Run(steps);
            s.table.reqSeq + 1 !in s.calls && Next(s, Call).Is(s.table.reqSeq + 1, Numbered)
  {
    InvHolds(steps);
    assert CallOk(Run(steps), Run(steps).table.reqSeq + 1);
  }

  /** And goes through its phases: it is in the table before its command is sent, waits once it is
      sent, and fails and leaves the table when it cannot be sent or expires. */
  lemma PhasesFollow(s: State, id: Id, why: Outcome)
    requires why.TimedOut? || why.Cancelled?
    ensures s.Is(id, Numbered) ==>
              Next(s, Register(id)).Is(id, Registered) && id in Next(s, Register(id)).table.waiters
    ensures s.Is(id, Registered) ==>
              Next(s, Send(id, true)).Is(id, Awaiting) && Next(s, Send(id, false)).Is(id, Failing(SendFailed))
    ensures s.Is(id, Awaiting) ==> Next(s, Expire(id, why)).Is(id, Failing(why))
    ensures id in s.calls && s.calls[id].Failing? ==>
              Next(s, Cleanup(id)).Is(id, Returned(s.calls[id].why)) && id !in Next(s, Cleanup(id)).table.waiters
  {
  }

  // ------------------------------------------------------------ the correlator object among its calls

  /** The correlator among its calls and deliveries: the table is the correlator object, and every
      step of the interleaving model is what its critical sections do. */
  class Endpoint {
    const correlator: Correlator
    var calls: map<Id, Phase>
    var sent: map<Id, seq<Reply>>
    var inflight: map<Id, Reply>
    ghost var clash: bool

    ghost function View(): State
      reads this, correlator
    {
      State(correlator.View(), calls, sent, inflight, clash)
    }

    constructor ()
      ensures fresh(correlator) && View() == Run([])
    {
      correlator := new Correlator();
      calls, sent, inflight, clash := map[], map[], map[], false;
    }

    method Perform(e: Step)
      modifies this, correlator
      ensures View() == Next(old(View()), e)
    {
      match e
      case Call =>
        var id := correlator.NextId();
        calls := calls[id := Numbered];
      case Register(id) =>
        if id in calls && calls[id] == Numbered {
          correlator.Register(id);
          calls := calls[id := Registered];
        }
      case Send(id, ok) =>
        if id in calls && calls[id] == Registered {
          calls := calls[id := if ok then Awaiting else Failing(SendFailed)];
        }
      case Expire(id, why) =>
        if id in calls && calls[id] == Awaiting && (why.TimedOut? || why.Cancelled?) {
          calls := calls[id := Failing(why)];
        }
      case Cleanup(id) =>
        if id in calls && calls[id].Failing? {
          correlator.Cleanup(id);
          calls := calls[id := Returned(calls[id].why)];
        }
      case Receive(id) =>
        if id in calls && calls[id] == Awaiting && id in sent && sent[id] != [] {
          calls := calls[id := Returned(Got(sent[id][0]))];
        }
      case Take(r) =>
        var found := correlator.Take(r.reqId);
        if found {
          clash := clash || r.reqId in inflight;
          inflight := inflight[r.reqId := r];
        }
      case Put(id) =>
        if id in inflight {
          sent := sent[id := (if id in sent then sent[id] else []) + [inflight[id]]];
          inflight := inflight - {id};
        }
    }

    /** So whatever is called, delivered, timed out or cancelled, the endpoint stays in the states
        the correlation lemmas speak of. */
    method PerformAll(steps: seq<Step>, ghost before: seq<Step>)
      requires View() == Run(before)
      modifies this, correlator
      ensures View() == Run(before + steps) && Inv(View())
    {
      hide Next, Inv;
      assert before + steps[..0] == before;
      for i := 0 to |steps|
        invariant View() == Run(before + steps[..i])
      {
        Perform(steps[i]);
        assert (before + steps[..i + 1])[..|before| + i] == before + steps[..i];
      }
      assert steps[..|steps|] == steps;
      InvHolds(before + steps);
    }
  }
}
