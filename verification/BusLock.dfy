/** The process-wide bus guard. Every method of `Lock` is one critical section of the
    source's mutex; `BusClients` interleaves those sections over any number of clients. */
module BusLock {
  import opened Wrappers

  type Chan = nat

  /** `closed` counts how often each yield channel was closed; `next` is the next fresh
      channel. The member functions are the critical sections, as functions of the fields. */
  datatype State = State(held: bool, owner: string, waiting: nat, yieldCh: Option<Chan>,
                         closed: multiset<Chan>, next: Chan)
  {
    function TryAcquire(who: string): State {
      if held then this else this.(held := true, owner := who)
    }

    function AcquirePolite(who: string): State {
      if held || waiting > 0 then this
      else this.(held := true, owner := who, yieldCh := Some(next), next := next + 1)
    }

    /** Raises the pause request and revokes a polite holder. */
    function EnterPriority(): State {
      var s := this.(waiting := waiting + 1);
      if yieldCh.None? then s else s.(closed := closed + multiset{yieldCh.value}, yieldCh := None)
    }

    function LeavePriority(): State
      requires waiting > 0
    {
      this.(waiting := waiting - 1)
    }

    function Release(): State {
      this.(held := false, owner := "", yieldCh := None)
    }
  }

  const FREE := State(false, "", 0, None, multiset{}, 0)

  class Lock {
    var held: bool
    var owner: string
    var waiting: nat
    var yieldCh: Option<Chan>
    ghost var closed: multiset<Chan>
    var next: Chan

    ghost function View(): State
      reads this
    {
      State(held, owner, waiting, yieldCh, closed, next)
    }

    constructor ()
      ensures View() == FREE
    {
      held, owner, waiting, yieldCh, closed, next := false, "", 0, None, multiset{}, 0;
    }

    method TryAcquire(who: string) returns (ok: bool, currentOwner: string)
      modifies this
      ensures View() == old(View()).TryAcquire(who)
      ensures ok == !old(held) && currentOwner == if ok then "" else old(owner)
    {
      if held { return false, owner; }
      held, owner := true, who;
      return true, "";
    }

    method AcquirePolite(who: string) returns (ok: bool, ch: Option<Chan>)
      modifies this
      ensures View() == old(View()).AcquirePolite(who)
      ensures ok == (!old(held) && old(waiting) == 0)
      ensures ch == if ok then yieldCh else None
      ensures ok ==> ch.Some?
    {
      if held || waiting > 0 { return false, None; }
      held, owner := true, who;
      yieldCh, next := Some(next), next + 1;
      return true, yieldCh;
    }

    method EnterPriority()
      modifies this
      ensures View() == old(View()).EnterPriority()
    {
      waiting := waiting + 1;
      if yieldCh.Some? {
        closed := closed + multiset{yieldCh.value};
        yieldCh := None;
      }
    }

    method LeavePriority()
      requires waiting > 0
      modifies this
      ensures View() == old(View()).LeavePriority()
    {
      waiting := waiting - 1;
    }

    method Release()
      modifies this
      ensures View() == old(View()).Release()
    {
      held, owner, yieldCh := false, "", None;
    }
  }
}

/** Any number of clients, each running one acquire/release cycle at a time. A priority
    acquire is several critical sections: enter, attempts separated by deadline checks, leave. */
module BusClients {
  import opened Wrappers
  import opened BusLock

  type Client = nat

  datatype Phase =
    | Idle
    | HoldsTry
    | HoldsPolite(ch: Chan)
    | HoldsPriority
    | Waiting    // inside AcquirePriority, about to attempt
    | Blocked    // inside, has just seen the lock held
    | Claimed    // inside, owns the lock, has not yet withdrawn its pause request
    | TimedOut   // inside, gave up, has not yet withdrawn its pause request
  {
    predicate Inside() { Waiting? || Blocked? || Claimed? || TimedOut? }
    predicate Holds() { HoldsTry? || HoldsPolite? || HoldsPriority? || Claimed? }
  }

  datatype System = System(lock: State, phase: map<Client, Phase>) {
    function Of(c: Client): Phase { if c in phase then phase[c] else Idle }
    function Set(c: Client, p: Phase): map<Client, Phase> { phase[c := p] }
  }

  datatype Step =
    | Try(c: Client, who: string)
    | Polite(c: Client, who: string)
    | Enter(c: Client)
    | Attempt(c: Client, who: string)
    | Deadline(c: Client, expired: bool)
    | Leave(c: Client)
    | Give(c: Client)              // releases the lock; enabled only for its holder

  /** One atomic step; a step its client is not ready for changes nothing. */
  function Next(s: System, e: Step): System {
    var p := s.Of(e.c);
    match e
    case Try(c, who) =>
      if !p.Idle? || s.lock.held then s
      else System(s.lock.TryAcquire(who), s.Set(c, HoldsTry))
    case Polite(c, who) =>
      if !p.Idle? then s else
      var l := s.lock.AcquirePolite(who);
      if l == s.lock then s else System(l, s.Set(c, HoldsPolite(s.lock.next)))
    case Enter(c) =>
      if !p.Idle? then s else System(s.lock.EnterPriority(), s.Set(c, Waiting))
    case Attempt(c, who) =>
      if !p.Waiting? then s
      else if s.lock.held then System(s.lock, s.Set(c, Blocked))
      else System(s.lock.TryAcquire(who), s.Set(c, Claimed))
    case Deadline(c, expired) =>
      if !p.Blocked? then s else System(s.lock, s.Set(c, if expired then TimedOut else Waiting))
    case Leave(c) =>
      if !(p.Claimed? || p.TimedOut?) || s.lock.waiting == 0 then s
      else System(s.lock.LeavePriority(), s.Set(c, if p.Claimed? then HoldsPriority else Idle))
    case Give(c) =>
      if !(p.HoldsTry? || p.HoldsPolite? || p.HoldsPriority?) then s
      else System(s.lock.Release(), s.Set(c, Idle))
  }

  function Run(steps: seq<Step>): System {
    if steps == [] then System(FREE, map[])
    else Next(Run(steps[..|steps| - 1]), steps[|steps| - 1])
  }

  ghost function Insiders(phase: map<Client, Phase>): set<Client> {
    set c | c in phase && phase[c].Inside()
  }

  ghost predicate OneHolder(s: System) {
    && (forall c, d :: s.Of(c).Holds() && s.Of(d).Holds() ==> c == d)
    && (s.lock.held <==> exists c :: s.Of(c).Holds())
  }

  /** The open channel belongs to a polite holder; any other polite holder is revoked. */
  ghost predicate YieldMatchesHolder(s: System) {
    && (s.lock.yieldCh.Some? ==> exists c :: s.Of(c) == HoldsPolite(s.lock.yieldCh.value))
    && (s.lock.yieldCh.Some? ==> s.lock.yieldCh.value !in s.lock.closed && s.lock.waiting == 0)
    && (forall c :: s.Of(c).HoldsPolite? ==>
          s.lock.yieldCh == Some(s.Of(c).ch) || (s.lock.yieldCh.None? && s.Of(c).ch in s.lock.closed))
  }

  ghost predicate ChannelsClosedOnce(s: System) {
    && (forall ch :: s.lock.closed[ch] <= 1)
    && (forall ch :: ch in s.lock.closed ==> ch < s.lock.next)
    && (forall c :: s.Of(c).HoldsPolite? ==> s.Of(c).ch < s.lock.next)
  }

  ghost predicate Inv(s: System) {
    && OneHolder(s)
    && YieldMatchesHolder(s)
    && ChannelsClosedOnce(s)
    && s.lock.waiting == |Insiders(s.phase)|
  }

  lemma CountInsiders(s: System, c: Client, p: Phase)
    ensures |Insiders(s.Set(c, p))| ==
            |Insiders(s.phase)| - (if s.Of(c).Inside() then 1 else 0) + (if p.Inside() then 1 else 0)
  {
    var a, b := Insiders(s.phase), Insiders(s.Set(c, p));
    assert c in a <==> s.Of(c).Inside();
    forall x ensures x in b <==> if x == c then p.Inside() else x in a {
    }
    if p.Inside() { assert b == a + {c}; } else { assert b == a - {c}; }
  }

  lemma StepKeepsInv(s: System, e: Step)
    requires Inv(s)
    ensures Inv(Next(s, e))
  {
    var t := Next(s, e);
    if t != s {
      CountInsiders(s, e.c, t.Of(e.c));
      assert forall c :: c != e.c ==> t.Of(c) == s.Of(c);
      assert t.Of(e.c).Holds() || !t.lock.held || t.lock.held == s.lock.held;
      HolderAfter(s, e);
    }
  }

  lemma HolderAfter(s: System, e: Step)
    requires Inv(s)
    ensures OneHolder(Next(s, e))
  {
    hide ChannelsClosedOnce, YieldMatchesHolder, Insiders;
    var t := Next(s, e);
    assert forall c :: c != e.c ==> t.Of(c) == s.Of(c);
    if t.lock.held {
      if !t.Of(e.c).Holds() {
        var c :| s.Of(c).Holds();
        assert t.Of(c).Holds();
      }
    }
  }

  /** Every interleaving: at most one holder, an open yield channel only while its polite
      holder holds, each channel closed at most once, `waiting` counts the clients inside
      AcquirePriority, and while any is inside the polite holder is already revoked. */
  lemma {:induction false} LockSafety(steps: seq<Step>)
    ensures Inv(Run(steps))
    ensures var s := Run(steps);
            s.lock.waiting > 0 ==>
              && s.lock.yieldCh.None?
              && (forall c :: s.Of(c).HoldsPolite? ==> s.Of(c).ch in s.lock.closed)
              && (forall c, who :: Next(s, Polite(c, who)) == s)
  {
    if steps == [] {
      assert Insiders(map[]) == {};
    } else {
      LockSafety(steps[..|steps| - 1]);
      StepKeepsInv(Run(steps[..|steps| - 1]), steps[|steps| - 1]);
    }
  }

  lemma NoNewPoliteHolder(s: System, e: Step, w: Client, c: Client)
    requires Inv(s) && s.Of(w).Inside()
    ensures Next(s, e).Of(c).HoldsPolite? ==> Next(s, e).Of(c) == s.Of(c)
  {
    assert w in Insiders(s.phase);
    assert s.lock.waiting > 0;
  }

  /** A revoked poller cannot come back ahead of a waiting operator: over any stretch of a
      run during which `w` stays inside AcquirePriority, whoever holds politely at the end
      already held through the very same channel at the start. */
  lemma {:induction false} PoliteNeverOvertakes(before: seq<Step>, during: seq<Step>, w: Client, c: Client)
    requires forall k :: 0 <= k <= |during| ==> Run(before + during[..k]).Of(w).Inside()
    ensures Run(before + during).Of(c).HoldsPolite? ==>
              Run(before + during).Of(c) == Run(before).Of(c)
  {
    if during == [] {
      assert before + during == before;
    } else {
      var n := |during| - 1;
      var mid := before + during[..n];
      forall k | 0 <= k <= n ensures Run(before + during[..n][..k]).Of(w).Inside() {
        assert during[..n][..k] == during[..k];
      }
      PoliteNeverOvertakes(before, during[..n], w, c);
      assert (before + during)[..|before + during| - 1] == mid;
      assert Run(before + during) == Next(Run(mid), during[n]);
      LockSafety(mid);
      NoNewPoliteHolder(Run(mid), during[n], w, c);
    }
  }

  /** Once the holder gives the lock up, a waiting operator's next attempt claims it. */
  lemma WaiterClaimsFreedLock(steps: seq<Step>, h: Client, w: Client, who: string)
    requires Run(steps).Of(w).Waiting?
    requires Run(steps).Of(h).HoldsTry? || Run(steps).Of(h).HoldsPolite? || Run(steps).Of(h).HoldsPriority?
    ensures var s := Next(Next(Run(steps), Give(h)), Attempt(w, who));
            s.Of(w).Claimed? && s.lock.owner == who && s.lock.held
            && (forall c :: c != w ==> !s.Of(c).Holds())
  {
    LockSafety(steps);
    var r := Next(Run(steps), Give(h));
    StepKeepsInv(Run(steps), Give(h));
    StepKeepsInv(r, Attempt(w, who));
  }

  // ------------------------------------------------------------ what each request gets

  /** In every reachable state: a one-shot acquire succeeds exactly when nobody holds the bus, a
      polite one exactly when moreover nobody waits inside AcquirePriority; a polite holder gets a
      channel that is open and its own. */
  lemma RequestsAreAnswered(steps: seq<Step>, c: Client, who: string)
    requires Run(steps).Of(c).Idle?
    ensures var s := Run(steps);
            var t, p := Next(s, Try(c, who)), Next(s, Polite(c, who));
            && (t.Of(c).Holds() <==> forall d :: !s.Of(d).Holds())
            && (p.Of(c).Holds() <==> (forall d :: !s.Of(d).Holds()) && forall d :: !s.Of(d).Inside())
            && (t.Of(c).Holds() ==> t.Of(c).HoldsTry? && t.lock.held && t.lock.owner == who)
            && (p.Of(c).Holds() ==>
                  && p.Of(c).HoldsPolite? && p.lock.held && p.lock.owner == who
                  && p.lock.yieldCh == Some(p.Of(c).ch) && p.Of(c).ch !in p.lock.closed
                  && forall d :: s.Of(d).HoldsPolite? ==> s.Of(d).ch != p.Of(c).ch)
            && (!t.Of(c).Holds() ==> t == s) && (!p.Of(c).Holds() ==> p == s)
  {
    LockSafety(steps);
    WaitingMeansInside(Run(steps));
  }

  lemma WaitingMeansInside(s: System)
    requires s.lock.waiting == |Insiders(s.phase)|
    ensures s.lock.waiting > 0 <==> exists d :: s.Of(d).Inside()
  {
    if s.lock.waiting > 0 {
      assert Insiders(s.phase) != {};
      var d :| d in Insiders(s.phase);
      assert s.Of(d).Inside();
    }
    if d :| s.Of(d).Inside() { assert d in Insiders(s.phase); }
  }

  /** An operator inside AcquirePriority is blocked exactly when somebody holds the bus, gives up only
      at its deadline, and a holder that gives the bus up leaves nobody holding it. */
  lemma TurnsAreTaken(steps: seq<Step>, c: Client, who: string, expired: bool)
    ensures var s := Run(steps);
            && (s.Of(c).Waiting? ==>
                  var t := Next(s, Attempt(c, who));
                  if exists d :: s.Of(d).Holds() then t.Of(c).Blocked? && t.lock == s.lock
                  else t.Of(c).Claimed? && t.lock.held && t.lock.owner == who)
            && (s.Of(c).Blocked? ==>
                  Next(s, Deadline(c, expired)).Of(c) == if expired then TimedOut else Waiting)
            && (s.Of(c).Claimed? ==> Next(s, Leave(c)).Of(c).HoldsPriority?)
            && (s.Of(c).TimedOut? ==> Next(s, Leave(c)).Of(c).Idle?)
            && (s.Of(c).HoldsTry? || s.Of(c).HoldsPolite? || s.Of(c).HoldsPriority? ==>
                  var t := Next(s, Give(c));
                  t.Of(c).Idle? && !t.lock.held && t.lock.yieldCh.None? && forall d :: !t.Of(d).Holds())
  {
    LockSafety(steps);
    var s := Run(steps);
    if s.Of(c).Inside() { assert c in Insiders(s.phase); }
    StepKeepsInv(s, Give(c));
  }

  /** The name the client gave when it last got the bus. */
  function NameOf(steps: seq<Step>, c: Client): string {
    if steps == [] then ""
    else
      var before, e := steps[..|steps| - 1], steps[|steps| - 1];
      if (e.Try? || e.Polite? || e.Attempt?) && e.c == c && !Run(before).Of(c).Holds() && Run(steps).Of(c).Holds()
      then e.who else NameOf(before, c)
  }

  /** Over every interleaving the owner on record is the name the holder gave. */
  lemma {:induction false} OwnerIsHoldersName(steps: seq<Step>, c: Client)
    ensures Run(steps).Of(c).Holds() ==> Run(steps).lock.owner == NameOf(steps, c)
  {
    if steps != [] {
      var before, e := steps[..|steps| - 1], steps[|steps| - 1];
      OwnerIsHoldersName(before, c);
      LockSafety(before);
      LockSafety(steps);
      if Run(steps).Of(c).Holds() { OwnerStep(Run(before), e, c); }
    }
  }

  lemma OwnerStep(s: System, e: Step, c: Client)
    requires Inv(s) && Next(s, e).Of(c).Holds()
    ensures s.Of(c).Holds() ==> Next(s, e).lock.owner == s.lock.owner
    ensures !s.Of(c).Holds() ==> (e.Try? || e.Polite? || e.Attempt?) && e.c == c && Next(s, e).lock.owner == e.who
  {
  }

  // ------------------------------------------------------------ stray releases

  /** What a release by a client that is not entitled to it does to the system. */
  function StrayRelease(s: System): System { System(s.lock.Release(), s.phase) }

  /** A free lock has no owner on record. */
  lemma {:induction false} FreeHasNoOwner(steps: seq<Step>)
    ensures !Run(steps).lock.held ==> Run(steps).lock.owner == ""
  {
    if steps != [] { FreeHasNoOwner(steps[..|steps| - 1]); }
  }

  /** The lock does not check who releases it. In every reachable state a release by a client that
      holds nothing changes nothing at all, and keeps exclusion, exactly when the lock is free. */
  lemma StrayReleaseHarmlessIff(steps: seq<Step>)
    ensures var s := Run(steps);
            && (StrayRelease(s) == s <==> !s.lock.held)
            && (OneHolder(StrayRelease(s)) <==> !s.lock.held)
  {
    LockSafety(steps);
    FreeHasNoOwner(steps);
    var s := Run(steps);
    if s.lock.held {
      var h :| s.Of(h).Holds();
      assert StrayRelease(s).Of(h).Holds();
    }
  }

  /** While someone holds it, one such release lets any idle client in beside the holder. */
  lemma StrayReleaseAdmitsSecondHolder(steps: seq<Step>, h: Client, d: Client, who: string)
    requires Run(steps).Of(h).Holds() && Run(steps).Of(d).Idle?
    ensures var t := Next(StrayRelease(Run(steps)), Try(d, who));
            h != d && t.Of(h).Holds() && t.Of(d).Holds()
  {
  }

  // ------------------------------------------------------------ the lock object among its clients

  lemma {:induction false} RunOneMore(steps: seq<Step>, e: Step)
    ensures Run(steps + [e]) == Next(Run(steps), e)
  {
    assert (steps + [e])[..|steps|] == steps;
  }

  /** The guard object and where each client is. Every client step is one call of the guard. */
  class Bus {
    const lock: Lock
    var phase: map<Client, Phase>

    ghost function View(): System
      reads this, lock
    {
      System(lock.View(), phase)
    }

    constructor ()
      ensures fresh(lock) && View() == Run([])
    {
      lock := new Lock();
      phase := map[];
    }

    /** A step of the interleaving model is exactly what the guard's own methods do. */
    method Perform(e: Step)
      modifies this, lock
      ensures View() == Next(old(View()), e)
    {
      var p := if e.c in phase then phase[e.c] else Idle;
      match e
      case Try(c, who) =>
        if p.Idle? {
          var ok, blocker := lock.TryAcquire(who);
          if ok { phase := phase[c := HoldsTry]; }
        }
      case Polite(c, who) =>
        if p.Idle? {
          var ok, ch := lock.AcquirePolite(who);
          if ok { phase := phase[c := HoldsPolite(ch.value)]; }
        }
      case Enter(c) =>
        if p.Idle? {
          lock.EnterPriority();
          phase := phase[c := Waiting];
        }
      case Attempt(c, who) =>
        if p.Waiting? {
          var ok, blocker := lock.TryAcquire(who);
          phase := phase[c := if ok then Claimed else Blocked];
        }
      case Deadline(c, expired) =>
        if p.Blocked? { phase := phase[c := if expired then TimedOut else Waiting]; }
      case Leave(c) =>
        if (p.Claimed? || p.TimedOut?) && lock.waiting > 0 {
          lock.LeavePriority();
          phase := phase[c := if p.Claimed? then HoldsPriority else Idle];
        }
      case Give(c) =>
        if p.HoldsTry? || p.HoldsPolite? || p.HoldsPriority? {
          lock.Release();
          phase := phase[c := Idle];
        }
    }

    /** So whatever the clients do with the guard, it stays in the states the safety lemmas speak of. */
    method PerformAll(steps: seq<Step>, ghost before: seq<Step>)
      requires View() == Run(before)
      modifies this, lock
      ensures View() == Run(before + steps) && Inv(View())
    {
      hide Next, Inv;
      assert before + steps[..0] == before;
      for i := 0 to |steps|
        invariant View() == Run(before + steps[..i])
      {
        Perform(steps[i]);
        RunOneMore(before + steps[..i], steps[i]);
        assert before + steps[..i] + [steps[i]] == before + steps[..i + 1];
      }
      assert steps[..|steps|] == steps;
      LockSafety(before + steps);
    }

    /** One round of the retry loop: an attempt and, when it fails, the deadline check. */
    method AttemptOnce(c: Client, who: string, expired: bool, ghost before: seq<Step>)
      returns (ok: bool, blocker: string, ghost after: seq<Step>)
      requires View() == Run(before) && View().Of(c).Waiting?
      modifies this, lock
      ensures before <= after && View() == Run(after)
      ensures ok == !old(View()).lock.held && blocker == if ok then "" else old(View()).lock.owner
      ensures View().Of(c) == if ok then Claimed else if expired then TimedOut else Waiting
    {
      hide Next;
      blocker := lock.owner;
      OwnStep(Run(before), Attempt(c, who));
      Perform(Attempt(c, who));
      RunOneMore(before, Attempt(c, who));
      after := before + [Attempt(c, who)];
      ok := phase[c].Claimed?;
      if ok { return ok, "", after; }
      OwnStep(Run(after), Deadline(c, expired));
      Perform(Deadline(c, expired));
      RunOneMore(after, Deadline(c, expired));
      after := after + [Deadline(c, expired)];
    }

    /** The runs up to each attempt: all but the last found the bus held. */
    static ghost predicate Tried(tries: seq<seq<Step>>, ok: bool, blocker: string) {
      && tries != [] && ok == !Run(tries[|tries| - 1]).lock.held
      && (forall i :: 0 <= i < |tries| - 1 ==> Run(tries[i]).lock.held)
      && blocker == if ok then "" else Run(tries[|tries| - 1]).lock.owner
    }

    /** The retry loop: `others[i]` is what all other clients do before the i-th attempt, the deadline
        passes with the last one. */
    method KeepTrying(c: Client, who: string, others: seq<seq<Step>>, ghost before: seq<Step>)
      returns (ok: bool, blocker: string, ghost after: seq<Step>, ghost tries: seq<seq<Step>>)
      requires View() == Run(before) && View().Of(c).Waiting? && others != []
      requires forall i, e :: 0 <= i < |others| && e in others[i] ==> e.c != c
      modifies this, lock
      ensures before <= after && View() == Run(after)
      ensures View().Of(c) == if ok then Claimed else TimedOut
      ensures Tried(tries, ok, blocker) && |tries| <= |others| && (!ok ==> |tries| == |others|)
      ensures tries[0] == before + others[0]
    {
      hide Next, Inv, Run;
      ok, blocker, after, tries := false, "", before, [];
      var i := 0;
      while i < |others| && !ok
        invariant 0 <= i == |tries| <= |others| && before <= after && View() == Run(after)
        invariant View().Of(c) == if ok then Claimed else if i < |others| then Waiting else TimedOut
        invariant if i == 0 then !ok && after == before else tries[0] == before + others[0] && Tried(tries, ok, blocker)
      {
        LeaveAlone(after, others[i], c);
        PerformAll(others[i], after);
        after := after + others[i];
        tries := tries + [after];
        ok, blocker, after := AttemptOnce(c, who, i == |others| - 1, after);
        i := i + 1;
      }
    }

    /** A priority acquire as its caller sees it: `others` is what the other clients do before each
        attempt, `tail` what they do before the pause request is withdrawn. It returns with the bus
        held by the caller alone as soon as an attempt finds the bus free; when every attempt finds it
        held, with the caller back where it was and the owner the last one found. The pause request is
        withdrawn either way, and everybody's invariant is kept. */
    method AcquirePriority(c: Client, who: string, others: seq<seq<Step>>, tail: seq<Step>, ghost before: seq<Step>)
      returns (ok: bool, blocker: string, ghost after: seq<Step>, ghost tries: seq<seq<Step>>)
      requires View() == Run(before) && View().Of(c).Idle? && others != []
      requires forall i, e :: 0 <= i < |others| && e in others[i] ==> e.c != c
      requires forall e :: e in tail ==> e.c != c
      modifies this, lock
      ensures before <= after && View() == Run(after) && Inv(View())
      ensures View().Of(c) == if ok then HoldsPriority else Idle
      ensures ok ==> View().lock.held && forall d :: View().Of(d).Holds() ==> d == c
      ensures Tried(tries, ok, blocker) && |tries| <= |others| && (!ok ==> |tries| == |others|)
      ensures tries[0] == before + [Enter(c)] + others[0]
    {
      hide Next, Inv, OneHolder, Tried, Run;
      OwnStep(Run(before), Enter(c));
      Perform(Enter(c));
      RunOneMore(before, Enter(c));
      ok, blocker, after, tries := KeepTrying(c, who, others, before + [Enter(c)]);
      LeaveAlone(after, tail, c);
      PerformAll(tail, after);
      after := after + tail;
      LockSafety(after);
      OwnStep(Run(after), Leave(c));
      Perform(Leave(c));
      RunOneMore(after, Leave(c));
      after := after + [Leave(c)];
      LockSafety(after);
      OnlyHolder(View());
    }
  }

  /** What a client's own steps do to its own phase. */
  lemma OwnStep(s: System, e: Step)
    ensures var p, q := s.Of(e.c), Next(s, e).Of(e.c);
            && (e.Enter? && p.Idle? ==> q.Waiting?)
            && (e.Attempt? && p.Waiting? ==> e.c in Next(s, e).phase && q == if s.lock.held then Blocked else Claimed)
            && (e.Deadline? && p.Blocked? ==> q == if e.expired then TimedOut else Waiting)
            && (e.Leave? && Inv(s) && p.Claimed? ==> q.HoldsPriority?)
            && (e.Leave? && Inv(s) && p.TimedOut? ==> q.Idle?)
  {
    if e.Leave? && Inv(s) && s.Of(e.c).Inside() { assert e.c in Insiders(s.phase); }
  }

  lemma StepLeavesAlone(s: System, e: Step, c: Client)
    requires e.c != c
    ensures Next(s, e).Of(c) == s.Of(c)
  {
  }

  lemma {:induction false} LeaveAlone(before: seq<Step>, steps: seq<Step>, c: Client)
    requires forall e :: e in steps ==> e.c != c
    ensures Run(before + steps).Of(c) == Run(before).Of(c)
  {
    hide Run, Next;
    if steps == [] {
      assert before + steps == before;
    } else {
      var n := |steps| - 1;
      LeaveAlone(before, steps[..n], c);
      RunOneMore(before + steps[..n], steps[n]);
      assert before + steps[..n] + [steps[n]] == before + steps;
      StepLeavesAlone(Run(before + steps[..n]), steps[n], c);
    }
  }

  lemma OnlyHolder(s: System)
    requires Inv(s)
    ensures forall c, d :: s.Of(c).Holds() && s.Of(d).Holds() ==> c == d
    ensures forall c :: s.Of(c).Holds() ==> s.lock.held
  {
  }
}
