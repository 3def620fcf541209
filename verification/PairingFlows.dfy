/** The pairing manager's multi-step flows, run against an environment that decides, command
    by command, how each one fares and when the operation is aborted. */
module PairingFlows {
  import opened Wrappers
  import opened Radio
  import opened Sightings

  /** Indexed by the number of commands issued before: how the command fares, whether the
      operation's context is cancelled by then, what a scan hears, what address a query returns. */
  datatype World = World(delivery: nat -> Delivery, cancelled: nat -> bool,
                         hears: nat -> seq<Found>, answer: nat -> nat)

  const COMMIT_ROUNDS := 3
  const VERIFY_RETRIES := 2

  ghost predicate AllAcked(w: World, from: nat, to: int) {
    forall k: nat :: from <= k < to ==> w.delivery(k).Acked?
  }

  /** The context is not done at any of these checks. */
  ghost predicate NotCancelled(w: World, from: nat, to: int) {
    forall k: nat :: from <= k < to ==> !w.cancelled(k)
  }

  /** A plan whose first command was number `at` was left after `n` commands for a reason: the last
      one failed, or the context was done. */
  ghost predicate LeftForCause(w: World, at: nat, n: nat) {
    (n > 0 && !w.delivery(at + n - 1).Acked?) || w.cancelled(at + n)
  }

  function Primes(serials: seq<Serial>, pan: nat, ch: nat): seq<Cmd> {
    seq(|serials|, i requires 0 <= i < |serials| => Prime(serials[i], pan, ch))
  }

  function Hops(serials: seq<Serial>, pan: nat, ch: nat): seq<Cmd> {
    seq(|serials|, i requires 0 <= i < |serials| => Hop(serials[i], pan, ch))
  }

  /** Everything a rekey does up to persisting the new PAN. */
  function RekeyPlan(serials: seq<Serial>, newPan: nat, ch: nat): seq<Cmd> {
    var c := Commit(newPan, ch);
    [SetModule(PARK, ch)] + Primes(serials, newPan, ch) + [c, c, c, SetModule(newPan, ch)]
  }

  function ChannelPlan(serials: seq<Serial>, pan: nat, newChannel: nat): seq<Cmd> {
    Hops(serials, pan, newChannel) + [SetModule(pan, newChannel)]
  }

  function MigratePlan(serial: Serial, pan: nat, ch: nat): seq<Cmd> {
    [SetModule(PARK, ch), Prime(serial, pan, ch), Commit(pan, ch)]
  }

  function SweepPlan(lo: nat, n: nat): seq<Cmd> {
    if n == 0 then [] else SweepPlan(lo, n - 1) + [SetModule(PARK, lo + n - 1), ReportScan]
  }

  function Channels(lo: nat, hi: nat): nat { if lo <= hi then hi - lo + 1 else 0 }

  /** A sweep parks the module on exactly the channels from `lo` to `hi`, in that order, and scans after
      each park. */
  lemma {:induction false} SweepVisits(lo: nat, n: nat)
    ensures |SweepPlan(lo, n)| == 2 * n
    ensures forall i: nat :: i < n ==> SweepPlan(lo, n)[2 * i] == SetModule(PARK, lo + i)
                                       && SweepPlan(lo, n)[2 * i + 1] == ReportScan
  {
    if n > 0 { SweepVisits(lo, n - 1); }
  }

  lemma SweepCovers(lo: nat, hi: nat, ch: nat)
    ensures SetModule(PARK, ch) in SweepPlan(lo, Channels(lo, hi)) <==> lo <= ch <= hi
  {
    var n, plan := Channels(lo, hi), SweepPlan(lo, Channels(lo, hi));
    SweepVisits(lo, n);
    if lo <= ch <= hi {
      var i: nat := ch - lo;
      assert plan[2 * i] == SetModule(PARK, ch);
    }
    if SetModule(PARK, ch) in plan {
      var k :| 0 <= k < |plan| && plan[k] == SetModule(PARK, ch);
      var i: nat := k / 2;
      assert k == 2 * i || k == 2 * i + 1;
    }
  }

  /** No check finds the context done and every park and scan of the sweep is acknowledged. */
  ghost predicate SweepGoesThrough(w: World, from: nat, n: nat) {
    n == 0 || (SweepGoesThrough(w, from, n - 1) && !w.cancelled(from + 2 * n - 2)
               && w.delivery(from + 2 * n - 2).Acked? && w.delivery(from + 2 * n - 1).Acked?)
  }

  lemma {:induction false} StoppedSweep(w: World, from: nat, i: nat, n: nat)
    requires i < n
    requires w.cancelled(from + 2 * i) || !w.delivery(from + 2 * i).Acked? || !w.delivery(from + 2 * i + 1).Acked?
    ensures !SweepGoesThrough(w, from, n)
  {
    if i < n - 1 { StoppedSweep(w, from, i, n - 1); }
  }

  /** Everything heard by the scans of a sweep of `n` channels whose first command is `from`. */
  function Heard(w: World, from: nat, n: nat): seq<Found> {
    if n == 0 then [] else Heard(w, from, n - 1) + w.hears(from + 2 * n - 1)
  }

  lemma RekeyPlanAt(serials: seq<Serial>, newPan: nat, ch: nat)
    ensures var plan, n := RekeyPlan(serials, newPan, ch), |serials|;
            && |plan| == n + 5
            && (forall i :: 0 <= i < n ==> plan[1 + i] == Prime(serials[i], newPan, ch))
            && (forall k :: n < k < n + 4 ==> plan[k] == Commit(newPan, ch))
  {
  }

  lemma ChannelPlanAt(serials: seq<Serial>, pan: nat, newChannel: nat)
    ensures var plan, n := ChannelPlan(serials, pan, newChannel), |serials|;
            && |plan| == n + 1 && plan[n] == SetModule(pan, newChannel)
            && forall i :: 0 <= i < n ==> plan[i] == Hop(serials[i], pan, newChannel)
  {
  }

  /** In any executed part of the plan a commit comes only after every serial's prime, and the
      module goes to the new PAN only after all commit rounds. */
  lemma RekeyPlanOrder(serials: seq<Serial>, newPan: nat, ch: nat, k: nat)
    requires k < |RekeyPlan(serials, newPan, ch)|
    ensures var plan := RekeyPlan(serials, newPan, ch);
            && (plan[k].Commit? || (k > 0 && plan[k].SetModule?) ==>
                  forall s :: s in serials ==> exists j :: 0 <= j < k && plan[j] == Prime(s, newPan, ch))
            && (k > 0 && plan[k].SetModule? ==>
                  k == |plan| - 1 && forall j :: k - 3 <= j < k ==> plan[j] == Commit(newPan, ch))
  {
    var plan := RekeyPlan(serials, newPan, ch);
    if plan[k].Commit? || (k > 0 && plan[k].SetModule?) {
      assert k > |serials|;
      forall s | s in serials ensures exists j :: 0 <= j < k && plan[j] == Prime(s, newPan, ch) {
        var i :| 0 <= i < |serials| && serials[i] == s;
        assert plan[1 + i] == Prime(s, newPan, ch);
      }
    }
  }

  /** The module changes channel only after every serial has been hopped. */
  lemma ChannelPlanOrder(serials: seq<Serial>, pan: nat, newChannel: nat, k: nat)
    requires k < |ChannelPlan(serials, pan, newChannel)| && ChannelPlan(serials, pan, newChannel)[k].SetModule?
    ensures forall s :: s in serials ==>
              exists j :: 0 <= j < k && ChannelPlan(serials, pan, newChannel)[j] == Hop(s, pan, newChannel)
  {
    forall s | s in serials
      ensures exists j :: 0 <= j < k && ChannelPlan(serials, pan, newChannel)[j] == Hop(s, pan, newChannel)
    {
      var i :| 0 <= i < |serials| && serials[i] == s;
      assert ChannelPlan(serials, pan, newChannel)[i] == Hop(s, pan, newChannel);
    }
  }

  /** Between two points of the log only addresses were queried. */
  ghost predicate Queried(before: seq<Cmd>, after: seq<Cmd>) {
    && |before| <= |after| && after[..|before|] == before
    && forall k :: |before| <= k < |after| ==> after[k].QueryShort?
  }

  lemma QueriedTwice(a: seq<Cmd>, b: seq<Cmd>, c: seq<Cmd>)
    requires Queried(a, b) && Queried(b, c)
    ensures Queried(a, c)
  {
    assert forall k :: 0 <= k < |b| ==> c[..|b|][k] == c[k];
    assert c[..|a|] == b[..|a|];
  }

  /** Adds one channel's announcements to the sweep's bookkeeping. */
  method Accumulate(order0: seq<Serial>, byId0: map<Serial, Found>, heard: seq<Found>, ghost all: seq<Found>)
    returns (order: seq<Serial>, byId: map<Serial, Found>)
    requires order0 == Order(all) && byId0 == ById(all)
    ensures order == Order(all + heard) && byId == ById(all + heard)
  {
    hide Order, ById;
    order, byId := order0, byId0;
    assert all + heard[..0] == all;
    for i := 0 to |heard|
      invariant order == Order(all + heard[..i]) && byId == ById(all + heard[..i])
    {
      var fi := heard[i];
      assert all + heard[..i + 1] == all + heard[..i] + [fi];
      OneMoreSighting(all + heard[..i], fi);
      if fi.serial !in byId { order := order + [fi.serial]; }
      byId := byId[fi.serial := fi];
    }
    assert heard[..|heard|] == heard;
  }

  lemma NothingSighted()
    ensures Order([]) == [] && ById([]) == map[]
  {
  }

  method ListFound(order: seq<Serial>, byId: map<Serial, Found>) returns (found: seq<Found>)
    requires forall s :: s in order ==> s in byId
    ensures found == Report(order, byId)
  {
    found := [];
    for i := 0 to |order|
      invariant found == Report(order[..i], byId)
    {
      assert order[..i + 1][..i] == order[..i];
      found := found + [byId[order[i]]];
    }
    assert order[..|order|] == order;
  }

  class Manager {
    const world: World
    var net: Net
    var log: seq<Cmd>
    var panSetting: nat
    var chanSetting: nat

    constructor (world: World, net: Net, panSetting: nat, chanSetting: nat)
      ensures this.world == world && this.net == net && log == []
      ensures this.panSetting == panSetting && this.chanSetting == chanSetting
    {
      this.world, this.net, log := world, net, [];
      this.panSetting, this.chanSetting := panSetting, chanSetting;
    }

    method SetModulePan(pan: nat, ch: nat) returns (ok: bool)
      modifies `net, `log
      ensures log == old(log) + [SetModule(pan, ch)]
      ensures net == Radio.SetModulePan(old(net), pan, ch, world.delivery(|old(log)|))
      ensures ok == world.delivery(|old(log)|).Acked?
    {
      var d := world.delivery(|log|);
      net, log := Radio.SetModulePan(net, pan, ch, d), log + [SetModule(pan, ch)];
      ok := d.Acked?;
    }

    /** Any command that leaves the module where it is. */
    method Send(cmd: Cmd) returns (ok: bool)
      requires !cmd.SetModule?
      modifies `log
      ensures log == old(log) + [cmd]
      ensures ok == world.delivery(|old(log)|).Acked?
    {
      ok := world.delivery(|log|).Acked?;
      log := log + [cmd];
    }

    /** The REBIND+VERIFY tail: one pass and up to two retries of address queries. It neither
        moves the module nor touches a setting; a serial is verified exactly when one of its queries
        was really answered, and, unless the context is done, none is given up before three tries. */
    method RebindVerify(serials: seq<Serial>) returns (verified: map<Serial, nat>)
      modifies `log
      ensures Queried(old(log), log)
      ensures Verified(world, log, |old(log)|, serials, verified)
    {
      verified := map[];
      ghost var base := log;
      var pass := 0;
      while pass <= VERIFY_RETRIES && (pass == 0 || (|verified| < |serials| && !world.cancelled(|log|)))
        invariant 0 <= pass <= VERIFY_RETRIES + 1
        invariant Queried(base, log)
        invariant AllAnswered(world, log, |base|, serials, verified) && NoAnswerLost(world, log, |base|, verified)
        invariant NotCancelled(world, |base|, |log|)
        invariant world.cancelled(|log|) || AskedTimes(log, |base|, serials, verified, pass)
        decreases VERIFY_RETRIES + 1 - pass
      {
        ghost var before := log;
        verified := VerifyPass(serials, verified, |base|, pass);
        QueriedTwice(base, before, log);
        pass := pass + 1;
      }
      if |verified| >= |serials| { AllVerified(serials, verified.Keys); }
    }

    method VerifyPass(serials: seq<Serial>, before: map<Serial, nat>, ghost base: nat, ghost times: nat)
      returns (verified: map<Serial, nat>)
      requires base <= |log| && AllAnswered(world, log, base, serials, before) && NoAnswerLost(world, log, base, before)
      requires NotCancelled(world, base, |log|)
      requires world.cancelled(|log|) || AskedTimes(log, base, serials, before, times)
      modifies `log
      ensures Queried(old(log), log)
      ensures before.Keys <= verified.Keys && AllAnswered(world, log, base, serials, verified)
      ensures NoAnswerLost(world, log, base, verified) && NotCancelled(world, base, |log|)
      ensures world.cancelled(|log|) || AskedTimes(log, base, serials, verified, times + 1)
    {
      verified := before;
      hide Answered, Asked, NotCancelled;
      if serials == [] { return; }
      for i := 0 to |serials|
        invariant Queried(old(log), log)
        invariant before.Keys <= verified.Keys && AllAnswered(world, log, base, serials, verified)
        invariant NoAnswerLost(world, log, base, verified) && NotCancelled(world, base, |log|)
        invariant world.cancelled(|log|) || AskedTimes(log, base, serials, verified, times)
        invariant forall j :: 0 <= j < i ==>
                    world.cancelled(|log|) || serials[j] in verified || Asked(log, base, serials[j]) > times
      {
        if serials[i] !in verified {
          if world.cancelled(|log|) { return; }
          ghost var was, known := log, verified;
          var at := |log|;
          var ok := Send(QueryShort(serials[i]));
          if ok && 0 < world.answer(at) <= 0xFFFF {
            verified := verified[serials[i] := world.answer(at)];
          }
          QueriedTwice(old(log), was, log);
          OneMoreQuery(world, was, base, serials, known, serials[i], times);
        }
      }
    }

    /** The rekey body. It ends in one of two ways: the whole plan was acknowledged, the module
        is on the new PAN and the new PAN is persisted; or the setting is untouched and the
        last command to the module sends it back to the old PAN. */
    method RunRekey(serials: seq<Serial>, oldPan: nat, newPan: nat, ch: nat, persists: bool)
      returns (committed: bool, restored: bool, verified: map<Serial, nat>, ghost n: nat)
      modifies this
      ensures chanSetting == old(chanSetting)
      ensures 0 < n <= |RekeyPlan(serials, newPan, ch)| && |old(log)| + n <= |log|
      ensures NotCancelled(world, |old(log)| + 1, |old(log)| + n)
      ensures var m := |RekeyPlan(serials, newPan, ch)|;
              committed <==>
                persists && AllAcked(world, |old(log)|, |old(log)| + m)
                && NotCancelled(world, |old(log)| + 1, |old(log)| + m)
      ensures n < |RekeyPlan(serials, newPan, ch)| ==> LeftForCause(world, |old(log)|, n)
      ensures log[..|old(log)| + n] == old(log) + RekeyPlan(serials, newPan, ch)[..n]
      ensures committed ==>
                && n == |RekeyPlan(serials, newPan, ch)| && AllAcked(world, |old(log)|, |old(log)| + n)
                && Queried(log[..|old(log)| + n], log) && Verified(world, log, |old(log)| + n, serials, verified)
                && panSetting == newPan
                && (!Sentinel(newPan) ==> net == Net(Pair(newPan, ch), Pair(newPan, ch)))
                && (Sentinel(newPan) ==> net.op == old(net.op))
                && (!Sentinel(old(net).op.pan) ==> (net.op.pan == panSetting <==> !Sentinel(newPan)))
      ensures !committed ==>
                && AllAcked(world, |old(log)|, |old(log)| + n - 1)
                && log[|old(log)| + n..] == [SetModule(oldPan, ch)] && LastModule(log) == [SetModule(oldPan, ch)]
                && panSetting == old(panSetting) && verified == map[]
                && (restored && !Sentinel(oldPan) ==> net == Net(Pair(oldPan, ch), Pair(oldPan, ch)))
                && (restored && !Sentinel(oldPan) && oldPan == old(net).op.pan ==>
                      (net.op == old(net).op <==> ch == old(net).op.ch))
      ensures !committed ==> restored == world.delivery(|log| - 1).Acked?
    {
      ghost var plan := RekeyPlan(serials, newPan, ch);
      ghost var base := log;
      n := 0;
      committed, verified := false, map[];
      var ok := SetModulePan(PARK, ch);
      n := 1;
      assert log == base + plan[..1];
      if !ok { restored := Rollback(oldPan, ch); return; }

      ok, n := PrimeAndCommit(serials, newPan, ch, base);
      if !ok { restored := Rollback(oldPan, ch); return; }
      if world.cancelled(|log|) { restored := Rollback(oldPan, ch); return; }

      ok := SetModulePan(newPan, ch);
      n := n + 1;
      assert plan[..n] == plan[..n - 1] + [plan[n - 1]];
      assert log == base + plan[..n];
      if !ok || !persists { restored := Rollback(oldPan, ch); return; }
      panSetting := newPan;
      committed, restored := true, false;
      verified := RebindVerify(serials);
    }

    /** The middle of the plan, from the first prime to the last commit. */
    method PrimeAndCommit(serials: seq<Serial>, newPan: nat, ch: nat, ghost base: seq<Cmd>)
      returns (ok: bool, ghost n: nat)
      requires log == base + RekeyPlan(serials, newPan, ch)[..1] && AllAcked(world, |base|, |base| + 1)
      modifies `log
      ensures 1 <= n < |RekeyPlan(serials, newPan, ch)|
      ensures log == base + RekeyPlan(serials, newPan, ch)[..n]
      ensures AllAcked(world, |base|, |base| + n - 1)
      ensures ok ==> n == |RekeyPlan(serials, newPan, ch)| - 1 && AllAcked(world, |base|, |base| + n)
      ensures NotCancelled(world, |base| + 1, |base| + n)
      ensures !ok ==> LeftForCause(world, |base|, n)
    {
      ghost var plan := RekeyPlan(serials, newPan, ch);
      RekeyPlanAt(serials, newPan, ch);
      hide RekeyPlan;
      n := 1;
      for i := 0 to |serials|
        invariant n == 1 + i && log == base + plan[..n]
        invariant AllAcked(world, |base|, |base| + n) && NotCancelled(world, |base| + 1, |base| + n)
      {
        if world.cancelled(|log|) { return false, n; }
        assert plan[n] == Prime(serials[i], newPan, ch);
        ok := Send(Prime(serials[i], newPan, ch));
        n := n + 1;
        assert plan[..n] == plan[..n - 1] + [plan[n - 1]];
        if !ok { return false, n; }
      }
      for r := 0 to COMMIT_ROUNDS
        invariant n == 1 + |serials| + r && log == base + plan[..n]
        invariant AllAcked(world, |base|, |base| + n) && NotCancelled(world, |base| + 1, |base| + n)
      {
        if world.cancelled(|log|) { return false, n; }
        assert plan[n] == Commit(newPan, ch);
        ok := Send(Commit(newPan, ch));
        n := n + 1;
        assert plan[..n] == plan[..n - 1] + [plan[n - 1]];
        if !ok { return false, n; }
      }
      ok := true;
    }

    method Rollback(pan: nat, ch: nat) returns (ok: bool)
      modifies `net, `log
      ensures log == old(log) + [SetModule(pan, ch)] && LastModule(log) == [SetModule(pan, ch)]
      ensures net == Radio.SetModulePan(old(net), pan, ch, world.delivery(|old(log)|))
      ensures ok == world.delivery(|old(log)|).Acked?
    {
      ok := SetModulePan(pan, ch);
    }

    /** The channel migration body, with the same two endings. */
    method RunChangeChannel(serials: seq<Serial>, pan: nat, oldChannel: nat, newChannel: nat, persists: bool)
      returns (committed: bool, restored: bool, verified: map<Serial, nat>, ghost n: nat)
      modifies this
      ensures panSetting == old(panSetting)
      ensures n <= |ChannelPlan(serials, pan, newChannel)| == |serials| + 1 && |old(log)| + n <= |log|
      ensures NotCancelled(world, |old(log)|, |old(log)| + n - 1)
      ensures committed <==>
                persists && AllAcked(world, |old(log)|, |old(log)| + |serials| + 1)
                && NotCancelled(world, |old(log)|, |old(log)| + |serials|)
      ensures n < |serials| ==> LeftForCause(world, |old(log)|, n)
      ensures n == |serials| ==> n > 0 && !world.delivery(|old(log)| + n - 1).Acked?
      ensures log[..|old(log)| + n] == old(log) + ChannelPlan(serials, pan, newChannel)[..n]
      ensures committed ==>
                && n == |ChannelPlan(serials, pan, newChannel)| && AllAcked(world, |old(log)|, |old(log)| + n)
                && Queried(log[..|old(log)| + n], log) && Verified(world, log, |old(log)| + n, serials, verified)
                && chanSetting == newChannel
                && (!Sentinel(pan) ==> net == Net(Pair(pan, newChannel), Pair(pan, newChannel)))
      ensures !committed ==>
                && AllAcked(world, |old(log)|, |old(log)| + n - 1)
                && log[|old(log)| + n..] == [SetModule(pan, oldChannel)]
                && LastModule(log) == [SetModule(pan, oldChannel)]
                && chanSetting == old(chanSetting) && verified == map[]
                && restored == world.delivery(|log| - 1).Acked?
                && (restored && !Sentinel(pan) ==> net == Net(Pair(pan, oldChannel), Pair(pan, oldChannel)))
    {
      ghost var plan := ChannelPlan(serials, pan, newChannel);
      ghost var base := log;
      committed, verified := false, map[];
      ChannelPlanAt(serials, pan, newChannel);
      hide ChannelPlan;
      var ok;
      ok, n := HopAll(serials, pan, newChannel, base);
      if !ok { restored := Rollback(pan, oldChannel); return; }
      ok := SetModulePan(pan, newChannel);
      n := n + 1;
      assert plan[..n] == plan[..n - 1] + [plan[n - 1]];
      assert log == base + plan[..n];
      if !ok || !persists { restored := Rollback(pan, oldChannel); return; }
      chanSetting := newChannel;
      committed, restored := true, false;
      verified := RebindVerify(serials);
    }

    /** The hops of the plan. */
    method HopAll(serials: seq<Serial>, pan: nat, newChannel: nat, ghost base: seq<Cmd>)
      returns (ok: bool, ghost n: nat)
      requires log == base
      modifies `log
      ensures n <= |serials| && log == base + ChannelPlan(serials, pan, newChannel)[..n]
      ensures AllAcked(world, |base|, |base| + n - 1) && NotCancelled(world, |base|, |base| + n)
      ensures ok ==> n == |serials| && AllAcked(world, |base|, |base| + n)
      ensures !ok ==> if n < |serials| then LeftForCause(world, |base|, n)
                      else n > 0 && !world.delivery(|base| + n - 1).Acked?
    {
      ghost var plan := ChannelPlan(serials, pan, newChannel);
      ChannelPlanAt(serials, pan, newChannel);
      hide ChannelPlan;
      n := 0;
      for i := 0 to |serials|
        invariant n == i && log == base + plan[..n]
        invariant AllAcked(world, |base|, |base| + n) && NotCancelled(world, |base|, |base| + n)
      {
        if world.cancelled(|log|) { return false, n; }
        ok := Send(Hop(serials[i], pan, newChannel));
        n := n + 1;
        assert plan[..n] == plan[..n - 1] + [plan[n - 1]];
        if !ok { return false, n; }
      }
      ok := true;
    }

    /** Returns the radio to the adapter's operating pair. */
    method RestoreModule() returns (ok: bool)
      modifies `net, `log
      ensures log == old(log) + [SetModule(RESTORE, 0)] && LastModule(log) == [SetModule(RESTORE, 0)]
      ensures net == Radio.SetModulePan(old(net), RESTORE, 0, world.delivery(|old(log)|))
      ensures net.op == old(net.op) && (ok ==> net.at == net.op)
      ensures ok == world.delivery(|old(log)|).Acked?
    {
      ok := SetModulePan(RESTORE, 0);
    }

    method SweepChannel(ch: nat) returns (ok: bool, heard: seq<Found>)
      modifies `net, `log
      ensures net.op == old(net.op)
      ensures ok == (world.delivery(|old(log)|).Acked? && world.delivery(|old(log)| + 1).Acked?)
      ensures ok ==>
                && log == old(log) + [SetModule(PARK, ch), ReportScan]
                && AllAcked(world, |old(log)|, |old(log)| + 2)
                && heard == world.hears(|old(log)| + 1)
    {
      heard := [];
      ok := SetModulePan(PARK, ch);
      if !ok { return; }
      heard := world.hears(|log|);
      ok := Send(ReportScan);
      assert [SetModule(PARK, ch)] + [ReportScan] == [SetModule(PARK, ch), ReportScan];
      assert ok ==> AllAcked(world, |old(log)|, |old(log)| + 2);
    }

    /** A slow scan: whatever fails and whenever it is aborted, the last command to the module
        is a restore and the operating pair is untouched. A completed sweep reports everything
        heard, per `Result`. */
    method SweepScan(lo: nat, hi: nat) returns (found: seq<Found>, complete: bool, restored: bool)
      modifies `net, `log
      ensures LastModule(log) == [SetModule(RESTORE, 0)]
      ensures net.op == old(net.op) && (restored ==> net.at == net.op)
      ensures restored == world.delivery(|log| - 1).Acked?
      ensures complete ==>
                var n := Channels(lo, hi);
                && log == old(log) + SweepPlan(lo, n) + [SetModule(RESTORE, 0)]
                && AllAcked(world, |old(log)|, |old(log)| + 2 * n)
                && found == Result(Heard(world, |old(log)|, n))
      ensures complete <==> SweepGoesThrough(world, |old(log)|, Channels(lo, hi))
      ensures !complete ==> found == []
    {
      var order, byId;
      found := [];
      complete, order, byId := SweepChannels(lo, hi);
      restored := RestoreModule();
      if !complete { return; }
      AllById(Heard(world, |old(log)|, Channels(lo, hi)));
      found := ListFound(order, byId);
    }

    method SweepChannels(lo: nat, hi: nat) returns (complete: bool, order: seq<Serial>, byId: map<Serial, Found>)
      modifies `net, `log
      ensures net.op == old(net.op)
      ensures complete ==>
                var n := Channels(lo, hi);
                && log == old(log) + SweepPlan(lo, n)
                && |SweepPlan(lo, n)| == 2 * n && AllAcked(world, |old(log)|, |old(log)| + 2 * n)
                && order == Order(Heard(world, |old(log)|, n)) && byId == ById(Heard(world, |old(log)|, n))
      ensures complete <==> SweepGoesThrough(world, |old(log)|, Channels(lo, hi))
    {
      order, byId, complete := [], map[], false;
      NothingSighted();
      hide Order, ById;
      ghost var base := log;
      for n := 0 to Channels(lo, hi)
        invariant log == base + SweepPlan(lo, n) && |SweepPlan(lo, n)| == 2 * n
        invariant AllAcked(world, |base|, |base| + 2 * n) && SweepGoesThrough(world, |base|, n)
        invariant net.op == old(net.op)
        invariant order == Order(Heard(world, |base|, n)) && byId == ById(Heard(world, |base|, n))
      {
        if world.cancelled(|log|) || !(world.delivery(|log|).Acked? && world.delivery(|log| + 1).Acked?) {
          StoppedSweep(world, |base|, n, Channels(lo, hi));
        }
        if world.cancelled(|log|) { return; }
        var ok, heard := SweepChannel(lo + n);
        if !ok { return; }
        assert base + SweepPlan(lo, n) + [SetModule(PARK, lo + n), ReportScan] == base + SweepPlan(lo, n + 1);
        order, byId := Accumulate(order, byId, heard, Heard(world, |base|, n));
      }
      complete := true;
    }

    /** A fast scan restores the module exactly when the park itself was acknowledged; where the
        radio can be afterwards depends on the two answers the caller has. */
    method FastScan(ch: nat) returns (found: seq<Found>, parked: bool, restored: bool)
      modifies `net, `log
      ensures net.op == old(net.op)
      ensures parked == world.delivery(|old(log)|).Acked?
      ensures parked ==>
                && log == old(log) + [SetModule(PARK, ch), ReportScan, SetModule(RESTORE, 0)]
                && LastModule(log) == [SetModule(RESTORE, 0)]
                && restored == world.delivery(|old(log)| + 2).Acked? && (restored ==> net.at == net.op)
                && found == if world.delivery(|old(log)| + 1).Acked? then world.hears(|old(log)| + 1) else []
      ensures !parked ==>
                && !restored && found == []
                && log == old(log) + [SetModule(PARK, ch)] && LastModule(log) == [SetModule(PARK, ch)]
      ensures net == FastScanNet(old(net), ch, world.delivery(|old(log)|), world.delivery(|old(log)| + 2))
      ensures net.at in Whereabouts(old(net), ch, parked, restored)
    {
      found, restored := [], false;
      parked := SetModulePan(PARK, ch);
      if !parked { return; }
      var heard := world.hears(|log|);
      var ok := Send(ReportScan);
      if ok { found := heard; }
      restored := RestoreModule();
      assert log == old(log) + [SetModule(PARK, ch), ReportScan, SetModule(RESTORE, 0)];
    }

    /** A single rendezvous migration: the module is sent back on every path, and the commit
        goes out only after the prime was acknowledged. */
    method MigrateOne(serial: Serial, pan: nat, ch: nat) returns (migrated: bool, restored: bool, ghost n: nat)
      modifies `net, `log
      ensures net.op == old(net.op) && (restored ==> net.at == net.op)
      ensures LastModule(log) == [SetModule(RESTORE, 0)]
      ensures 0 < n <= 3 && log == old(log) + MigratePlan(serial, pan, ch)[..n] + [SetModule(RESTORE, 0)]
      ensures AllAcked(world, |old(log)|, |old(log)| + n - 1)
      ensures n < 3 ==> !world.delivery(|old(log)| + n - 1).Acked?
      ensures migrated <==> Migrates(world, |old(log)|)
      ensures restored == world.delivery(|log| - 1).Acked?
    {
      ghost var plan := MigratePlan(serial, pan, ch);
      migrated := false;
      var ok := SetModulePan(PARK, ch);
      n := 1;
      assert log == old(log) + plan[..1];
      if ok {
        ok := Send(Prime(serial, pan, ch));
        n := 2;
        assert log == old(log) + plan[..2];
        if ok {
          ok := Send(Commit(pan, ch));
          n := 3;
          assert log == old(log) + plan[..3];
          migrated := ok && !world.cancelled(|log|);
        }
      }
      restored := RestoreModule();
    }

    /** One address query; an answer beyond sixteen bits counts as an error. */
    method QueryAddress(serial: Serial) returns (ok: bool, addr: nat)
      modifies `log
      ensures log == old(log) + [QueryShort(serial)]
      ensures ok == (world.delivery(|old(log)|).Acked? && world.answer(|old(log)|) <= 0xFFFF)
      ensures ok ==> addr == world.answer(|old(log)|)
    {
      addr := world.answer(|log|);
      ok := Send(QueryShort(serial));
      ok := ok && addr <= 0xFFFF;
    }

    /** The serial's address: queried, and queried again after one migration when the first query
        fails. `queried` says the first query was enough. */
    method FindAddress(serial: Serial, pan: nat, ch: nat) returns (addr: Option<nat>, ghost queried: bool)
      requires pan == net.op.pan
      modifies `net, `log
      ensures net.op == old(net.op)
      ensures |old(log)| < |log| && log[..|old(log)|] == old(log)
      ensures queried ==> net == old(net) && LastModule(log) == LastModule(old(log))
      ensures !queried ==> LastModule(log) == [SetModule(RESTORE, 0)]
      ensures OnlyOnto(log, |old(log)|, serial, pan, ch)
      ensures addr.Some? ==> AnsweredOr0(world, log, |old(log)|, serial, addr.value)
      ensures queried == GoodAddress(world, |old(log)|) && addr == Address(world, |old(log)|)
      ensures addr.Some? ==> |log| == |old(log)| + if queried then 1 else 6
    {
      queried := true;
      var ok, a := QueryAddress(serial);
      LastModuleOf(old(log), [QueryShort(serial)]);
      if ok {
        JustAnswered(world, old(log), serial, a);
        return Some(a), true;
      }
      ghost var before := log;
      var migrated, restored, n := MigrateOne(serial, pan, ch);
      queried := false;
      ghost var was := log;
      MigrationOnto(before, serial, pan, ch, n);
      if !migrated { return None, queried; }
      ok, a := QueryAddress(serial);
      LastModuleOf(was, [QueryShort(serial)]);
      if !ok { return None, queried; }
      JustAnswered(world, was, serial, a);
      addr := Some(a);
    }

    /** Binding one serial. The migration target is the radio owner's own operating PAN, so the
        operating pair never changes. With no migration no module command was issued at all;
        otherwise the last one is a restore. The unit is bound only under a non-zero address it
        answered with, and only after the quiet-bind was acknowledged. */
    method BindAndMigrate(serial: Serial, current: nat, persists: bool)
      returns (bound: Option<nat>, ghost queried: bool)
      modifies `net, `log
      ensures net.op == old(net.op)
      ensures |old(log)| < |log| && log[..|old(log)|] == old(log)
      ensures queried ==> net == old(net) && LastModule(log) == LastModule(old(log))
      ensures !queried ==> LastModule(log) == [SetModule(RESTORE, 0)]
      ensures OnlyOnto(log, |old(log)|, serial, old(net).op.pan, current)
      ensures var asked := world.delivery(|old(log)|).Acked? && current != 0;
              var addr := Address(world, |old(log)| + 1);
              && queried == (!asked || GoodAddress(world, |old(log)| + 1))
              && bound == if asked && addr.Some? && addr.value != 0 && persists
                             && world.delivery(|old(log)| + if queried then 2 else 7).Acked?
                          then addr else None
      ensures bound.Some? ==>
                && persists && current != 0
                && bound.value != 0 && log[|log| - 1] == BindQuiet(bound.value)
                && world.delivery(|log| - 1).Acked?
                && Answered(world, log, |old(log)|, serial, bound.value)
    {
      hide Answered, LastModule;
      var pan := net.op.pan;
      queried := true;
      var ok := Send(QueryModule);
      LastModuleOf(old(log), [QueryModule]);
      if !ok || current == 0 { return None, queried; }
      ghost var asked := log;
      var addr;
      addr, queried := FindAddress(serial, pan, current);
      OntoExtends(log, |old(log)|, |asked|, serial, pan, current);
      if addr.None? || addr.value == 0 || !persists { return None, queried; }
      ghost var found := log;
      AnsweredEarlier(world, found, |old(log)|, |asked|, serial, addr.value);
      ok := Send(BindQuiet(addr.value));
      LastModuleOf(found, [BindQuiet(addr.value)]);
      AnsweredGrows(world, found, |old(log)|, serial, addr.value, BindQuiet(addr.value));
      bound := if ok then addr else None;
    }
  }

  /** The `k`-th command, an address query, is answered with sixteen bits. */
  ghost predicate GoodAddress(w: World, k: nat) { w.delivery(k).Acked? && w.answer(k) <= 0xFFFF }

  /** A migration whose park is command `k` goes through: park, prime and commit are acknowledged and
      the context is not done after them. */
  ghost predicate Migrates(w: World, k: nat) { AllAcked(w, k, k + 3) && !w.cancelled(k + 3) }

  /** The address found when the first query is command `k`: that query's answer, else, after a
      migration that goes through and its restore, the second query's. */
  ghost function Address(w: World, k: nat): Option<nat> {
    if GoodAddress(w, k) then Some(w.answer(k))
    else if Migrates(w, k + 1) && GoodAddress(w, k + 5) then Some(w.answer(k + 5))
    else None
  }

  /** From `base` on there is at most one prime and one commit, and they concern this serial, PAN
      and channel. */
  ghost predicate OnlyOnto(log: seq<Cmd>, base: nat, serial: Serial, pan: nat, ch: nat) {
    && (forall k :: base <= k < |log| && (log[k].Prime? || log[k].Commit?) ==>
          log[k] == Prime(serial, pan, ch) || log[k] == Commit(pan, ch))
    && (forall j, k :: base <= j < k < |log| ==>
          !(log[j].Prime? && log[k].Prime?) && !(log[j].Commit? && log[k].Commit?))
  }

  lemma MigrationOnto(before: seq<Cmd>, serial: Serial, pan: nat, ch: nat, n: nat)
    requires n <= 3
    ensures OnlyOnto(before + MigratePlan(serial, pan, ch)[..n] + [SetModule(RESTORE, 0)], |before|, serial, pan, ch)
  {
  }

  lemma OntoExtends(log: seq<Cmd>, base: nat, from: nat, serial: Serial, pan: nat, ch: nat)
    requires base + 1 == from <= |log| && log[base] == QueryModule && OnlyOnto(log, from, serial, pan, ch)
    ensures OnlyOnto(log, base, serial, pan, ch)
  {
  }

  ghost predicate AnsweredOr0(w: World, log: seq<Cmd>, base: nat, s: Serial, addr: nat) {
    addr == 0 || Answered(w, log, base, s, addr)
  }

  lemma JustAnswered(w: World, before: seq<Cmd>, s: Serial, addr: nat)
    requires w.delivery(|before|).Acked? && w.answer(|before|) == addr <= 0xFFFF
    ensures forall base: nat :: base <= |before| ==> AnsweredOr0(w, before + [QueryShort(s)], base, s, addr)
  {
    assert (before + [QueryShort(s)])[|before|] == QueryShort(s);
  }

  lemma AnsweredEarlier(w: World, log: seq<Cmd>, base: nat, from: nat, s: Serial, addr: nat)
    requires base <= from && addr != 0 && AnsweredOr0(w, log, from, s, addr)
    ensures Answered(w, log, base, s, addr)
  {
  }

  /** The log, from `base` on, holds an acknowledged query of `s` that returned `addr`. */
  ghost predicate Answered(w: World, log: seq<Cmd>, base: nat, s: Serial, addr: nat) {
    exists k: nat :: base <= k < |log| && log[k] == QueryShort(s) && w.delivery(k).Acked? && w.answer(k) == addr
                     && 0 < addr <= 0xFFFF
  }

  ghost predicate AllAnswered(w: World, log: seq<Cmd>, base: nat, serials: seq<Serial>, verified: map<Serial, nat>) {
    forall s :: s in verified ==> s in serials && Answered(w, log, base, s, verified[s])
  }

  /** No query answered with an address has been forgotten. */
  ghost predicate NoAnswerLost(w: World, log: seq<Cmd>, base: nat, verified: map<Serial, nat>) {
    forall k: nat :: base <= k < |log| && log[k].QueryShort? && w.delivery(k).Acked? && 0 < w.answer(k) <= 0xFFFF ==>
      log[k].serial in verified && verified[log[k].serial] == w.answer(k)
  }

  /** How often a serial's address was asked for since `base`. */
  function Asked(log: seq<Cmd>, base: nat, s: Serial): nat {
    if |log| <= base then 0
    else Asked(log[..|log| - 1], base, s) + if log[|log| - 1] == QueryShort(s) then 1 else 0
  }

  ghost predicate AskedTimes(log: seq<Cmd>, base: nat, serials: seq<Serial>, verified: map<Serial, nat>, times: nat) {
    forall s :: s in serials ==> s in verified || Asked(log, base, s) >= times
  }

  /** The outcome of a verification: the verified serials are exactly those a query of which was
      answered, with that address; every other one was asked for in every pass, unless the context was
      done, which ends it at once. */
  ghost predicate Verified(w: World, log: seq<Cmd>, base: nat, serials: seq<Serial>, verified: map<Serial, nat>) {
    && AllAnswered(w, log, base, serials, verified)
    && NoAnswerLost(w, log, base, verified)
    && NotCancelled(w, base, |log|)
    && (w.cancelled(|log|) || AskedTimes(log, base, serials, verified, VERIFY_RETRIES + 1))
  }

  /** What the answer to one more query is taken for. */
  function Noted(w: World, at: nat, s: Serial, before: map<Serial, nat>): map<Serial, nat> {
    if w.delivery(at).Acked? && 0 < w.answer(at) <= 0xFFFF then before[s := w.answer(at)] else before
  }

  lemma AskedOneMore(log: seq<Cmd>, base: nat, s: Serial, t: Serial)
    requires base <= |log|
    ensures Asked(log + [QueryShort(s)], base, t) == Asked(log, base, t) + if s == t then 1 else 0
  {
    assert (log + [QueryShort(s)])[..|log|] == log;
  }

  lemma NotedIsAnswered(w: World, log: seq<Cmd>, base: nat, serials: seq<Serial>, before: map<Serial, nat>, s: Serial)
    requires base <= |log| && s in serials && s !in before
    requires AllAnswered(w, log, base, serials, before) && NoAnswerLost(w, log, base, before)
    ensures var more, after := log + [QueryShort(s)], Noted(w, |log|, s, before);
            AllAnswered(w, more, base, serials, after) && NoAnswerLost(w, more, base, after)
  {
    var more := log + [QueryShort(s)];
    assert more[|log|] == QueryShort(s);
    forall t | t in before ensures Answered(w, more, base, t, before[t]) {
      AnsweredGrows(w, log, base, t, before[t], QueryShort(s));
    }
  }

  /** One more query of a serial that is not verified yet, and what its answer adds. */
  lemma OneMoreQuery(w: World, log: seq<Cmd>, base: nat, serials: seq<Serial>, before: map<Serial, nat>, s: Serial,
                     times: nat)
    requires base <= |log| && s in serials && s !in before && !w.cancelled(|log|)
    requires AllAnswered(w, log, base, serials, before) && NoAnswerLost(w, log, base, before)
    requires NotCancelled(w, base, |log|) && AskedTimes(log, base, serials, before, times)
    ensures var more, after := log + [QueryShort(s)], Noted(w, |log|, s, before);
            && AllAnswered(w, more, base, serials, after) && NoAnswerLost(w, more, base, after)
            && NotCancelled(w, base, |more|) && AskedTimes(more, base, serials, after, times)
            && Asked(more, base, s) > times
            && forall t :: Asked(more, base, t) >= Asked(log, base, t)
  {
    hide AllAnswered, NoAnswerLost, Asked;
    NotedIsAnswered(w, log, base, serials, before, s);
    forall t ensures Asked(log + [QueryShort(s)], base, t) == Asked(log, base, t) + if s == t then 1 else 0 {
      AskedOneMore(log, base, s, t);
    }
  }

  lemma SetOf(serials: seq<Serial>) returns (all: set<Serial>)
    ensures |all| <= |serials| && forall s :: s in serials <==> s in all
  {
    all := {};
    for i := 0 to |serials|
      invariant |all| <= i && forall s :: s in serials[..i] <==> s in all
    {
      all := all + {serials[i]};
    }
    assert serials[..|serials|] == serials;
  }

  /** As many verified serials as there are serials at all means all of them. */
  lemma AllVerified(serials: seq<Serial>, keys: set<Serial>)
    requires |keys| >= |serials| && forall s :: s in keys ==> s in serials
    ensures forall s :: s in serials ==> s in keys
  {
    var all := SetOf(serials);
    forall s | s in serials ensures s in keys {
      if s !in keys {
        Subset(keys, all - {s});
        assert false;
      }
    }
  }

  lemma {:induction false} Subset(a: set<Serial>, b: set<Serial>)
    requires a <= b
    ensures |a| <= |b|
  {
    assert b == a + (b - a);
  }

  lemma AnsweredGrows(w: World, log: seq<Cmd>, base: nat, s: Serial, addr: nat, cmd: Cmd)
    requires Answered(w, log, base, s, addr)
    ensures Answered(w, log + [cmd], base, s, addr)
  {
    var k: nat :| base <= k < |log| && log[k] == QueryShort(s) && w.delivery(k).Acked? && w.answer(k) == addr;
    assert (log + [cmd])[k] == QueryShort(s);
  }

  /** Where a fast scan leaves the radio, by how its park and, if there was one, its restore fared. */
  function FastScanNet(n: Net, ch: nat, park: Delivery, restore: Delivery): Net {
    var parked := Radio.SetModulePan(n, PARK, ch, park);
    if park.Acked? then Radio.SetModulePan(parked, RESTORE, 0, restore) else parked
  }

  /** The places the radio can be in, given only whether the park and the restore were
      acknowledged. */
  function Whereabouts(n: Net, ch: nat, parked: bool, restored: bool): set<Pair> {
    if !parked then {n.at, Pair(PARK, ch)}
    else if restored then {n.op}
    else {n.op, Pair(PARK, ch)}
  }

  /** Those are exactly the places: each of them is reached under some fate of the two commands
      that looks the same to the caller. */
  lemma WhereaboutsExact(n: Net, ch: nat, parked: bool, restored: bool, pos: Pair)
    requires restored ==> parked
    ensures pos in Whereabouts(n, ch, parked, restored) <==>
              exists d: Delivery, e: Delivery ::
                d.Acked? == parked && (parked ==> e.Acked? == restored) && FastScanNet(n, ch, d, e).at == pos
  {
    if pos in Whereabouts(n, ch, parked, restored) {
      var d := if parked then Acked else if pos == n.at then Undelivered else ReplyLost;
      var e := if restored then Acked else if pos == n.op then ReplyLost else Undelivered;
      assert FastScanNet(n, ch, d, e).at == pos;
    }
  }

  /** So a caller knows the radio to be back on the operating pair exactly when both the park and
      the restore were acknowledged; after a failed park, which is not followed by a restore, the
      radio may still sit on the rendezvous PAN. */
  lemma KnownBackIff(n: Net, ch: nat, parked: bool, restored: bool)
    requires n.op.pan != PARK && (restored ==> parked)
    ensures Whereabouts(n, ch, parked, restored) == {n.op} <==> parked && restored
    ensures !parked ==> Pair(PARK, ch) in Whereabouts(n, ch, parked, restored)
  {
    assert Pair(PARK, ch) != n.op;
    assert !(parked && restored) ==> Pair(PARK, ch) in Whereabouts(n, ch, parked, restored);
  }
}

/** The textual form of a PAN in a request and in the persisted override. */
module PanText {
  import opened Wrappers

  predicate IsSpace(c: char) { c == ' ' || '\t' <= c <= '\r' }

  function TrimLeft(s: string): string {
    if s != "" && IsSpace(s[0]) then TrimLeft(s[1..]) else s
  }

  function TrimRight(s: string): string {
    if s != "" && IsSpace(s[|s| - 1]) then TrimRight(s[..|s| - 1]) else s
  }

  function TrimPrefix(s: string, p: string): string {
    if p <= s then s[|p|..] else s
  }

  function HexDigit(c: char): Option<nat> {
    if '0' <= c <= '9' then Some(c as int - '0' as int)
    else if 'a' <= c <= 'f' then Some(c as int - 'a' as int + 10)
    else if 'A' <= c <= 'F' then Some(c as int - 'A' as int + 10)
    else None
  }

  function HexValue(s: string): Option<nat> {
    if s == "" then Some(0)
    else
      var hi, lo := HexValue(s[..|s| - 1]), HexDigit(s[|s| - 1]);
      if hi.None? || lo.None? then None else Some(16 * hi.value + lo.value)
  }

  function ParsePan(s: string): Option<nat> {
    var t := TrimPrefix(TrimPrefix(TrimRight(TrimLeft(s)), "0x"), "0X");
    if t == "" || |t| > 4 then None else HexValue(t)
  }

  function HexChar(d: nat): char
    requires d < 16
  {
    if d < 10 then '0' + d as char else 'A' + (d - 10) as char
  }

  /** Four upper-case hex digits. */
  function FormatPan(pan: nat): string
    requires pan < 0x10000
  {
    [HexChar(pan / 0x1000), HexChar(pan / 0x100 % 16), HexChar(pan / 16 % 16), HexChar(pan % 16)]
  }

  lemma HexCharDigit(d: nat)
    requires d < 16
    ensures HexDigit(HexChar(d)) == Some(d) && !IsSpace(HexChar(d)) && HexChar(d) != 'x' && HexChar(d) != 'X'
  {
  }

  function Pow16(k: nat): nat { if k == 0 then 1 else 16 * Pow16(k - 1) }

  lemma {:induction false} HexValueBound(s: string)
    ensures HexValue(s).Some? ==> HexValue(s).value < Pow16(|s|)
    ensures HexValue(s).Some? <==> forall i :: 0 <= i < |s| ==> HexDigit(s[i]).Some?
  {
    if s != "" { HexValueBound(s[..|s| - 1]); }
  }

  lemma FourDigits(s: string, a: nat, b: nat, c: nat, d: nat)
    requires |s| == 4 && HexDigit(s[0]) == Some(a) && HexDigit(s[1]) == Some(b)
    requires HexDigit(s[2]) == Some(c) && HexDigit(s[3]) == Some(d)
    ensures HexValue(s) == Some(4096 * a + 256 * b + 16 * c + d)
  {
    hide HexDigit;
    assert s[..3][..2] == s[..2] && s[..2][..1] == s[..1];
    assert HexValue(s[..1]) == Some(a) by { assert s[..1][..0] == ""; }
    assert HexValue(s[..2]) == Some(16 * a + b);
    assert HexValue(s[..3]) == Some(256 * a + 16 * b + c);
  }

  lemma HexPlaces(pan: nat)
    ensures pan == 4096 * (pan / 0x1000) + 256 * (pan / 0x100 % 16) + 16 * (pan / 16 % 16) + pan % 16
  {
    assert pan / 0x100 == 16 * (pan / 0x1000) + pan / 0x100 % 16;
    assert pan / 16 == 16 * (pan / 0x100) + pan / 16 % 16;
  }

  /** The persisted override reads back as the PAN that was committed, for every PAN. */
  lemma PanRoundTrip(pan: nat)
    requires pan < 0x10000
    ensures ParsePan(FormatPan(pan)) == Some(pan)
  {
    var s := FormatPan(pan);
    var a, b, c, d := pan / 0x1000, pan / 0x100 % 16, pan / 16 % 16, pan % 16;
    hide HexDigit, HexChar, HexValue, IsSpace;
    HexCharDigit(a);
    HexCharDigit(b);
    HexCharDigit(c);
    HexCharDigit(d);
    FourDigits(s, a, b, c, d);
    HexPlaces(pan);
    assert TrimRight(TrimLeft(s)) == s;
    assert s[1] != 'x' && s[1] != 'X';
  }

  predicate AllHex(s: string) { forall i :: 0 <= i < |s| ==> HexDigit(s[i]).Some? }

  lemma {:induction false} TrimLeftPadding(pad: string, s: string)
    requires forall i :: 0 <= i < |pad| ==> IsSpace(pad[i])
    ensures TrimLeft(pad + s) == TrimLeft(s)
  {
    if pad == "" {
      assert pad + s == s;
    } else {
      assert (pad + s)[1..] == pad[1..] + s;
      TrimLeftPadding(pad[1..], s);
    }
  }

  lemma {:induction false} TrimRightPadding(s: string, pad: string)
    requires forall i :: 0 <= i < |pad| ==> IsSpace(pad[i])
    ensures TrimRight(s + pad) == TrimRight(s)
  {
    if pad == "" {
      assert s + pad == s;
    } else {
      assert (s + pad)[..|s| + |pad| - 1] == s + pad[..|pad| - 1];
      TrimRightPadding(s, pad[..|pad| - 1]);
    }
  }

  /** A text is accepted exactly when, without surrounding white space and a 0x or 0X in front, it is
      one to four hexadecimal digits, upper or lower case; its value is theirs. */
  lemma ParsePanIff(s: string)
    ensures var t := TrimPrefix(TrimPrefix(TrimRight(TrimLeft(s)), "0x"), "0X");
            ParsePan(s).Some? <==> 1 <= |t| <= 4 && AllHex(t)
  {
    var t := TrimPrefix(TrimPrefix(TrimRight(TrimLeft(s)), "0x"), "0X");
    HexValueBound(t);
  }

  /** In particular such digits are accepted with or without prefix and padding. */
  lemma DigitsAreAccepted(left: string, prefix: string, t: string, right: string)
    requires (forall i :: 0 <= i < |left| ==> IsSpace(left[i])) && forall i :: 0 <= i < |right| ==> IsSpace(right[i])
    requires prefix == "" || prefix == "0x" || prefix == "0X"
    requires 1 <= |t| <= 4 && AllHex(t)
    ensures ParsePan(left + (prefix + t + right)) == HexValue(t) && HexValue(t).Some?
  {
    HexValueBound(t);
    NoSpaceAround(prefix, t);
    StripPrefix(prefix, t);
    hide HexDigit, HexValue, IsSpace, TrimPrefix, AllHex;
    TrimBoth(left, prefix + t, right);
  }

  lemma NoSpaceAround(prefix: string, t: string)
    requires prefix == "" || prefix == "0x" || prefix == "0X"
    requires t != "" && AllHex(t)
    ensures var core := prefix + t; !IsSpace(core[0]) && !IsSpace(core[|core| - 1])
  {
    assert HexDigit(t[0]).Some? && HexDigit(t[|t| - 1]).Some?;
  }

  lemma TrimBoth(left: string, core: string, right: string)
    requires (forall i :: 0 <= i < |left| ==> IsSpace(left[i])) && forall i :: 0 <= i < |right| ==> IsSpace(right[i])
    requires core != "" && !IsSpace(core[0]) && !IsSpace(core[|core| - 1])
    ensures TrimRight(TrimLeft(left + (core + right))) == core
  {
    TrimLeftPadding(left, core + right);
    assert (core + right)[0] == core[0];
    TrimRightPadding(core, right);
  }

  /** And a text of hexadecimal digits means what it says: the last digit counts once, everything
      before it sixteen times. */
  lemma DigitsMean(t: string)
    requires t != "" && AllHex(t)
    ensures HexValue(t).Some? && HexValue(t[..|t| - 1]).Some?
    ensures HexValue(t).value == 16 * HexValue(t[..|t| - 1]).value + HexDigit(t[|t| - 1]).value
    ensures |t| == 1 ==> HexValue(t) == HexDigit(t[0])
  {
    HexValueBound(t);
    HexValueBound(t[..|t| - 1]);
  }

  lemma StripPrefix(prefix: string, t: string)
    requires prefix == "" || prefix == "0x" || prefix == "0X"
    requires t != "" && AllHex(t)
    ensures TrimPrefix(TrimPrefix(prefix + t, "0x"), "0X") == t
  {
    if |t| > 1 {
      assert HexDigit(t[1]).Some?;
      assert t[1] != 'x' && t[1] != 'X';
    }
    if prefix == "" {
      assert prefix + t == t;
    } else {
      assert (prefix + t)[1] == prefix[1] && (prefix + t)[2..] == t;
    }
  }

  /** Every accepted PAN fits sixteen bits, and the two sentinel values are among them. */
  lemma ParsePanRange(s: string)
    ensures ParsePan(s).Some? ==> ParsePan(s).value < 0x10000
    ensures ParsePan(FormatPan(0)) == Some(0) && ParsePan(FormatPan(0xFFFF)) == Some(0xFFFF)
  {
    var t := TrimPrefix(TrimPrefix(TrimRight(TrimLeft(s)), "0x"), "0X");
    HexValueBound(t);
    if |t| <= 4 { assert Pow16(|t|) <= 0x10000; }
    PanRoundTrip(0);
    PanRoundTrip(0xFFFF);
  }
}
