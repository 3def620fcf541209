/** The asynchronous overlay applier: one goroutine per enqueued job, a job map keyed by
    inverter, a three-slot semaphore and an audit log, plus the fleet runs that enqueue a
    job per inverter and wait for all of them. Steps interleave arbitrarily. */
module Applier {
  type Uid = string
  type JobId = nat   // the index of the job in enqueue order

  const MAX_CONCURRENT: nat := 3

  /** Why a job's context is done. The first cancellation fixes the cause. */
  datatype Cause = NotCancelled | Superseded | Shutdown

  datatype Phase =
    | Queued                // waiting for a semaphore slot
    | Admitted              // has a slot, has not re-checked its context
    | Starting              // re-checked, about to emit the started row
    | Running               // reconciling
    | Erring                // reconciling returned an error, its row still to be emitted
    | Reporting(left: nat)  // rows of this many points still to be emitted
    | Leaving               // returned; the slot is still taken
    | Clearing              // about to clear its map entry
    | Closing               // about to close its done channel
    | Done
  {
    predicate HasSlot() { Admitted? || Starting? || Running? || Erring? || Reporting? || Leaving? }
    predicate Returned() { Leaving? || Clearing? || Closing? || Done? }
    predicate Cleared() { Closing? || Done? }
  }

  datatype Job = Job(uid: Uid, cause: Cause, phase: Phase) {
    function Cancel(why: Cause): Job { if cause.NotCancelled? then this.(cause := why) else this }
  }

  datatype Kind = Started | Param | Complete
  datatype Row = Row(job: JobId, kind: Kind)

  /** One fleet run: it enqueues `uids` in order, then waits on each job's done channel. */
  datatype Fleet = Fleet(uids: seq<Uid>, enqueued: seq<JobId>, waited: nat, status: FleetStatus)
  datatype FleetStatus = Active | Reconciled | Aborted

  datatype State = State(jobs: seq<Job>, current: map<Uid, JobId>, sema: nat, shutdown: bool,
                         log: seq<Row>, fleets: seq<Fleet>)
  {
    function With(j: JobId, p: Phase): State
      requires j < |jobs|
    {
      this.(jobs := jobs[j := jobs[j].(phase := p)])
    }

    function Emit(j: JobId, k: Kind): State { this.(log := log + [Row(j, k)]) }
  }

  const INIT := State([], map[], 0, false, [], [])

  datatype Step =
    | Enqueue(uid: Uid)
    | CancelParent
    | TakeSlot(j: JobId)
    | DropQueued(j: JobId)
    | Recheck(j: JobId)
    | Begin(j: JobId)
    | ReconcileReturns(j: JobId, points: nat)
    | ReconcileFails(j: JobId)
    | ReportError(j: JobId)
    | Report(j: JobId, emitsRow: bool)
    | Finish(j: JobId)
    | ReturnSlot(j: JobId)
    | Clear(j: JobId)
    | CloseDone(j: JobId)
    | StartFleet(uids: seq<Uid>)
    | FleetEnqueue(f: nat)
    | FleetWait(f: nat)
    | FleetFinish(f: nat)
    | FleetAbort(f: nat)

  predicate IsJobStep(e: Step) {
    e.TakeSlot? || e.DropQueued? || e.Recheck? || e.Begin? || e.ReconcileReturns? || e.ReconcileFails?
    || e.ReportError? || e.Report? || e.Finish? || e.ReturnSlot? || e.Clear? || e.CloseDone?
  }

  /** Supersedes the inverter's current job, if any, and becomes the map entry. */
  function EnqueueJob(s: State, uid: Uid): State {
    var jobs := if uid in s.current && s.current[uid] < |s.jobs|
                then s.jobs[s.current[uid] := s.jobs[s.current[uid]].Cancel(Superseded)]
                else s.jobs;
    var job := Job(uid, if s.shutdown then Shutdown else NotCancelled, Queued);
    s.(jobs := jobs + [job], current := s.current[uid := |s.jobs|])
  }

  function CancelAll(jobs: seq<Job>): (r: seq<Job>)
    ensures |r| == |jobs|
    ensures forall i :: 0 <= i < |jobs| ==> r[i] == jobs[i].Cancel(Shutdown)
  {
    if jobs == [] then [] else CancelAll(jobs[..|jobs| - 1]) + [jobs[|jobs| - 1].Cancel(Shutdown)]
  }

  /** A cancelled job returns to `p`: silently when superseded, with a terminal row otherwise. */
  function Abort(s: State, j: JobId, p: Phase): State
    requires j < |s.jobs|
  {
    var t := s.With(j, p);
    if s.jobs[j].cause.Superseded? then t else t.Emit(j, Complete)
  }

  function Next(s: State, e: Step): State {
    match e
    case Enqueue(uid) => EnqueueJob(s, uid)
    case CancelParent => s.(shutdown := true, jobs := CancelAll(s.jobs))
    case StartFleet(uids) => s.(fleets := s.fleets + [Fleet(uids, [], 0, Active)])
    case FleetEnqueue(f) =>
      if f >= |s.fleets| then s else FleetEnqueues(s, f)
    case FleetWait(f) =>
      if f >= |s.fleets| then s else FleetWaits(s, f)
    case FleetFinish(f) =>
      if f >= |s.fleets| then s else FleetFinishes(s, f)
    case FleetAbort(f) =>
      if f >= |s.fleets| then s
      else if s.fleets[f].status.Active? && s.shutdown
              && |s.fleets[f].enqueued| == |s.fleets[f].uids| && s.fleets[f].waited < |s.fleets[f].enqueued|
      then s.(fleets := s.fleets[f := s.fleets[f].(status := Aborted)])
      else s
    case _ => if e.j >= |s.jobs| then s else JobStep(s, e)
  }

  function FleetEnqueues(s: State, f: nat): State
    requires f < |s.fleets|
  {
    var fl := s.fleets[f];
    if !fl.status.Active? || |fl.enqueued| >= |fl.uids| then s
    else
      var t := EnqueueJob(s, fl.uids[|fl.enqueued|]);
      t.(fleets := t.fleets[f := fl.(enqueued := fl.enqueued + [|s.jobs|])])
  }

  function FleetWaits(s: State, f: nat): State
    requires f < |s.fleets|
  {
    var fl := s.fleets[f];
    if fl.status.Active? && |fl.enqueued| == |fl.uids| && fl.waited < |fl.enqueued|
       && fl.enqueued[fl.waited] < |s.jobs| && s.jobs[fl.enqueued[fl.waited]].phase.Done?
    then s.(fleets := s.fleets[f := fl.(waited := fl.waited + 1)])
    else s
  }

  function FleetFinishes(s: State, f: nat): State
    requires f < |s.fleets|
  {
    var fl := s.fleets[f];
    if fl.status.Active? && |fl.enqueued| == |fl.uids| && fl.waited == |fl.enqueued|
    then s.(fleets := s.fleets[f := fl.(status := Reconciled)])
    else s
  }

  function JobStep(s: State, e: Step): State
    requires IsJobStep(e) && e.j < |s.jobs|
  {
    var j := e.j;
    var job := s.jobs[j];
    var cancelled := !job.cause.NotCancelled?;
    match e
    case TakeSlot(_) =>
      if job.phase.Queued? && s.sema < MAX_CONCURRENT then s.With(j, Admitted).(sema := s.sema + 1) else s
    case DropQueued(_) =>
      if job.phase.Queued? && cancelled then Abort(s, j, Clearing) else s
    case Recheck(_) =>
      if !job.phase.Admitted? then s
      else if cancelled then Abort(s, j, Leaving) else s.With(j, Starting)
    case Begin(_) =>
      if job.phase.Starting? then s.With(j, Running).Emit(j, Started) else s
    case ReconcileReturns(_, points) =>
      if !job.phase.Running? then s
      else if cancelled then Abort(s, j, Leaving) else s.With(j, Reporting(points))
    case ReconcileFails(_) =>
      if !job.phase.Running? then s
      else if cancelled then Abort(s, j, Leaving) else s.With(j, Erring)
    case ReportError(_) =>
      if job.phase.Erring? then s.With(j, Reporting(0)).Emit(j, Param) else s
    case Report(_, emitsRow) =>
      if !job.phase.Reporting? || job.phase.left == 0 then s
      else if cancelled then Abort(s, j, Leaving)
      else
        var t := s.With(j, Reporting(job.phase.left - 1));
        if emitsRow then t.Emit(j, Param) else t
    case Finish(_) =>
      if job.phase == Reporting(0) then s.With(j, Leaving).Emit(j, Complete) else s
    case ReturnSlot(_) =>
      if job.phase.Leaving? && s.sema > 0 then s.With(j, Clearing).(sema := s.sema - 1) else s
    case Clear(_) =>
      if !job.phase.Clearing? then s
      else if job.uid in s.current && s.current[job.uid] == j
      then s.With(j, Closing).(current := s.current - {job.uid})
      else s.With(j, Closing)
    case CloseDone(_) =>
      if job.phase.Closing? then s.With(j, Done) else s
  }

  function Run(steps: seq<Step>): State {
    if steps == [] then INIT else Next(Run(steps[..|steps| - 1]), steps[|steps| - 1])
  }

  // ---------------------------------------------------------------- one job per inverter

  /** A newer job for the same inverter has been enqueued. */
  ghost predicate Replaced(s: State, j: JobId)
    requires j < |s.jobs|
  {
    exists k :: j < k < |s.jobs| && s.jobs[k].uid == s.jobs[j].uid
  }

  ghost predicate IsCurrent(s: State, j: JobId)
    requires j < |s.jobs|
  {
    s.jobs[j].uid in s.current && s.current[s.jobs[j].uid] == j
  }

  ghost predicate MapInv(s: State) {
    && (forall u :: u in s.current ==> s.current[u] < |s.jobs| && s.jobs[s.current[u]].uid == u)
    && (forall j :: 0 <= j < |s.jobs| ==> JobMapInv(s, j))
  }

  ghost predicate JobMapInv(s: State, j: JobId)
    requires j < |s.jobs|
  {
    && (IsCurrent(s, j) <==> !s.jobs[j].phase.Cleared() && !Replaced(s, j))
    && (!s.jobs[j].phase.Cleared() && Replaced(s, j) ==> !s.jobs[j].cause.NotCancelled?)
    && (s.jobs[j].cause.Superseded? ==> Replaced(s, j))
    && (s.jobs[j].cause.Shutdown? ==> s.shutdown)
    && (s.shutdown ==> !s.jobs[j].cause.NotCancelled?)
  }

  // ---------------------------------------------------------------- the semaphore

  ghost function Slots(jobs: seq<Job>): set<JobId> {
    set j | 0 <= j < |jobs| && jobs[j].phase.HasSlot()
  }

  ghost predicate SlotInv(s: State) {
    s.sema == |Slots(s.jobs)| <= MAX_CONCURRENT
  }

  // ---------------------------------------------------------------- the audit log

  function RowsOf(log: seq<Row>, j: JobId): seq<Kind> {
    if log == [] then []
    else
      var last := log[|log| - 1];
      RowsOf(log[..|log| - 1], j) + if last.job == j then [last.kind] else []
  }

  /** A started row followed by any number of per-parameter rows. */
  predicate StartedBody(rows: seq<Kind>) {
    |rows| > 0 && rows[0].Started? && forall i :: 0 < i < |rows| ==> rows[i].Param?
  }

  /** The rows of a job that has returned: a started row, any number of per-parameter rows and the
      terminal row; or, for a job that was shut down before it started, a terminal row alone; or, for a
      superseded job, what it had logged until then. */
  predicate Closed(rows: seq<Kind>, cause: Cause) {
    || (|rows| > 1 && rows[|rows| - 1].Complete? && StartedBody(rows[..|rows| - 1]))
    || (cause.Shutdown? && rows == [Complete])
    || (cause.Superseded? && (rows == [] || StartedBody(rows)))
  }

  /** What the log may hold for a job: nothing before it starts, then a started row and what follows. */
  ghost predicate Balanced(rows: seq<Kind>, job: Job) {
    match job.phase
    case Queued => rows == []
    case Admitted => rows == []
    case Starting => rows == []
    case Running => rows == [Started]
    case Erring => rows == [Started]
    case Reporting(_) => StartedBody(rows)
    case _ => Closed(rows, job.cause)
  }

  ghost predicate LogInv(s: State) {
    && (forall i :: 0 <= i < |s.log| ==> s.log[i].job < |s.jobs|)
    && (forall j :: 0 <= j < |s.jobs| ==> Balanced(RowsOf(s.log, j), s.jobs[j]))
  }

  // ---------------------------------------------------------------- fleet runs

  ghost predicate FleetOk(s: State, f: Fleet) {
    && |f.enqueued| <= |f.uids| && f.waited <= |f.enqueued|
    && (forall i :: 0 <= i < |f.enqueued| ==> f.enqueued[i] < |s.jobs| && s.jobs[f.enqueued[i]].uid == f.uids[i])
    && (forall i :: 0 <= i < f.waited ==> s.jobs[f.enqueued[i]].phase.Done?)
    && (f.status.Reconciled? ==> f.waited == |f.enqueued| == |f.uids|)
    && (f.status.Aborted? ==> s.shutdown)
  }

  ghost predicate FleetInv(s: State) {
    forall i :: 0 <= i < |s.fleets| ==> FleetOk(s, s.fleets[i])
  }

  // ---------------------------------------------------------------- preservation

  lemma AppendRow(log: seq<Row>, r: Row, j: JobId)
    ensures RowsOf(log + [r], j) == RowsOf(log, j) + if r.job == j then [r.kind] else []
  {
    assert (log + [r])[..|log|] == log;
  }

  lemma {:induction false} NoRowsYet(log: seq<Row>, j: JobId)
    requires forall i :: 0 <= i < |log| ==> log[i].job < j
    ensures RowsOf(log, j) == []
  {
    if log != [] { NoRowsYet(log[..|log| - 1], j); }
  }

  /** Enqueueing keeps every older job but for cancelling the one it supersedes. */
  lemma EnqueueShape(s: State, uid: Uid, j: JobId)
    requires MapInv(s) && j < |s.jobs|
    ensures var t := EnqueueJob(s, uid);
            && |t.jobs| == |s.jobs| + 1
            && t.jobs[j] == (if s.jobs[j].uid == uid && IsCurrent(s, j)
                             then s.jobs[j].Cancel(Superseded) else s.jobs[j])
            && Replaced(t, j) == (Replaced(s, j) || s.jobs[j].uid == uid)
  {
    var t := EnqueueJob(s, uid);
    var n := |s.jobs|;
    assert forall k :: 0 <= k < n ==> t.jobs[k].uid == s.jobs[k].uid;
    if Replaced(s, j) {
      var k :| j < k < n && s.jobs[k].uid == s.jobs[j].uid;
      assert t.jobs[k].uid == t.jobs[j].uid;
    }
    if s.jobs[j].uid == uid { assert t.jobs[n].uid == t.jobs[j].uid; }
  }

  lemma EnqueueKeepsMap(s: State, uid: Uid)
    requires MapInv(s)
    ensures MapInv(EnqueueJob(s, uid))
  {
    var t := EnqueueJob(s, uid);
    forall j | 0 <= j < |s.jobs|
      ensures JobMapInv(t, j)
    {
      EnqueueShape(s, uid, j);
      assert JobMapInv(s, j);
    }
    assert JobMapInv(t, |s.jobs|);
  }

  lemma SameUidsSameReplaced(s: State, t: State, j: JobId)
    requires j < |s.jobs| == |t.jobs|
    requires forall k :: 0 <= k < |s.jobs| ==> t.jobs[k].uid == s.jobs[k].uid
    ensures Replaced(t, j) == Replaced(s, j)
  {
    if Replaced(s, j) {
      var k :| j < k < |s.jobs| && s.jobs[k].uid == s.jobs[j].uid;
      assert t.jobs[k].uid == t.jobs[j].uid;
    }
  }

  /** A step that leaves the map alone, keeps every job's inverter, and at most cancels
      all jobs together with the parent. */
  lemma JobUpdateKeepsMap(s: State, t: State)
    requires MapInv(s)
    requires |t.jobs| == |s.jobs| && t.current == s.current && (s.shutdown ==> t.shutdown)
    requires forall j :: 0 <= j < |s.jobs| ==>
               && t.jobs[j].uid == s.jobs[j].uid && t.jobs[j].phase.Cleared() == s.jobs[j].phase.Cleared()
               && ((t.shutdown == s.shutdown && t.jobs[j].cause == s.jobs[j].cause)
                   || (t.shutdown && t.jobs[j].cause == s.jobs[j].Cancel(Shutdown).cause))
    ensures MapInv(t)
  {
    forall j | 0 <= j < |s.jobs| ensures JobMapInv(t, j) {
      SameUidsSameReplaced(s, t, j);
      assert JobMapInv(s, j);
    }
  }

  /** What a step of job `e.j` may touch. */
  lemma JobStepShape(s: State, e: Step)
    requires IsJobStep(e) && e.j < |s.jobs|
    ensures var t := JobStep(s, e);
            && t.jobs == s.jobs[e.j := s.jobs[e.j].(phase := t.jobs[e.j].phase)]
            && t.shutdown == s.shutdown && t.fleets == s.fleets
            && (t.log == s.log || (|t.log| == |s.log| + 1 && t.log == s.log + [Row(e.j, t.log[|s.log|].kind)]))
            && (s.jobs[e.j].phase.Done? ==> t.jobs[e.j].phase.Done?)
            && (!e.Clear? ==> t.current == s.current && t.jobs[e.j].phase.Cleared() == s.jobs[e.j].phase.Cleared())
  {
    hide JobStep;
    JobStepTouchesOneJob(s, e);
    JobStepEmitsAtMostOneRow(s, e);
  }

  ghost predicate TouchesOneJob(s: State, e: Step)
    requires IsJobStep(e) && e.j < |s.jobs|
  {
    var t := JobStep(s, e);
    && t.jobs == s.jobs[e.j := s.jobs[e.j].(phase := t.jobs[e.j].phase)]
    && t.shutdown == s.shutdown && t.fleets == s.fleets
    && (s.jobs[e.j].phase.Done? ==> t.jobs[e.j].phase.Done?)
    && (!e.Clear? ==> t.current == s.current && t.jobs[e.j].phase.Cleared() == s.jobs[e.j].phase.Cleared())
  }

  lemma JobStepTouchesOneJob(s: State, e: Step)
    requires IsJobStep(e) && e.j < |s.jobs|
    ensures TouchesOneJob(s, e)
  {
    if e.Recheck? || e.Begin? || e.ReconcileReturns? {
      StartingStepTouchesOneJob(s, e);
    } else if e.Report? || e.Finish? {
      ReportingStepTouchesOneJob(s, e);
    } else if e.ReconcileFails? || e.ReportError? {
      ErrorStepTouchesOneJob(s, e);
    } else {
      assert s.jobs == s.jobs[e.j := s.jobs[e.j].(phase := s.jobs[e.j].phase)];
    }
  }

  lemma StartingStepTouchesOneJob(s: State, e: Step)
    requires (e.Recheck? || e.Begin? || e.ReconcileReturns?) && e.j < |s.jobs|
    ensures TouchesOneJob(s, e)
  {
    assert s.jobs == s.jobs[e.j := s.jobs[e.j].(phase := s.jobs[e.j].phase)];
  }

  lemma ReportingStepTouchesOneJob(s: State, e: Step)
    requires (e.Report? || e.Finish?) && e.j < |s.jobs|
    ensures TouchesOneJob(s, e)
  {
    assert s.jobs == s.jobs[e.j := s.jobs[e.j].(phase := s.jobs[e.j].phase)];
  }

  lemma ErrorStepTouchesOneJob(s: State, e: Step)
    requires (e.ReconcileFails? || e.ReportError?) && e.j < |s.jobs|
    ensures TouchesOneJob(s, e)
  {
    assert s.jobs == s.jobs[e.j := s.jobs[e.j].(phase := s.jobs[e.j].phase)];
  }

  lemma JobStepEmitsAtMostOneRow(s: State, e: Step)
    requires IsJobStep(e) && e.j < |s.jobs|
    ensures var t := JobStep(s, e);
            t.log == s.log || (|t.log| == |s.log| + 1 && t.log == s.log + [Row(e.j, t.log[|s.log|].kind)])
  {
  }

  lemma ClearKeepsMap(s: State, j: JobId)
    requires MapInv(s) && j < |s.jobs|
    ensures MapInv(JobStep(s, Clear(j)))
  {
    var t := JobStep(s, Clear(j));
    JobStepShape(s, Clear(j));
    assert JobMapInv(s, j);
    forall k | 0 <= k < |s.jobs| ensures JobMapInv(t, k) {
      SameUidsSameReplaced(s, t, k);
      assert JobMapInv(s, k);
    }
  }

  lemma StepKeepsMap(s: State, e: Step)
    requires MapInv(s)
    ensures MapInv(Next(s, e))
  {
    hide JobStep;
    var t := Next(s, e);
    if IsJobStep(e) {
      if e.j < |s.jobs| {
        if e.Clear? {
          ClearKeepsMap(s, e.j);
        } else {
          JobStepShape(s, e);
          JobUpdateKeepsMap(s, t);
        }
      }
    } else if e.Enqueue? {
      EnqueueKeepsMap(s, e.uid);
    } else if e.FleetEnqueue? {
      if t != s {
        var m := EnqueueJob(s, s.fleets[e.f].uids[|s.fleets[e.f].enqueued|]);
        EnqueueKeepsMap(s, s.fleets[e.f].uids[|s.fleets[e.f].enqueued|]);
        JobUpdateKeepsMap(m, t);
      }
    } else {
      JobUpdateKeepsMap(s, t);
    }
  }

  lemma SlotSet(jobs: seq<Job>, j: JobId, p: Phase)
    requires j < |jobs|
    ensures Slots(jobs[j := jobs[j].(phase := p)]) == Slots(jobs) - {j} + if p.HasSlot() then {j} else {}
    ensures j in Slots(jobs) <==> jobs[j].phase.HasSlot()
  {
  }

  lemma SlotChange(jobs: seq<Job>, j: JobId, p: Phase)
    requires j < |jobs|
    ensures |Slots(jobs[j := jobs[j].(phase := p)])| ==
            |Slots(jobs)| - (if jobs[j].phase.HasSlot() then 1 else 0) + (if p.HasSlot() then 1 else 0)
  {
    hide *;
    SlotSet(jobs, j, p);
    var rest := Slots(jobs) - {j};
    if jobs[j].phase.HasSlot() { assert Slots(jobs) == rest + {j}; } else { assert Slots(jobs) == rest; }
  }

  lemma StepKeepsSlots(s: State, e: Step)
    requires MapInv(s) && SlotInv(s)
    ensures SlotInv(Next(s, e))
  {
    if IsJobStep(e) {
      if e.j < |s.jobs| { JobStepKeepsSlots(s, e); }
    } else {
      OtherStepKeepsSlots(s, e);
    }
  }

  lemma JobStepKeepsSlots(s: State, e: Step)
    requires SlotInv(s) && IsJobStep(e) && e.j < |s.jobs|
    ensures SlotInv(JobStep(s, e))
  {
    hide Slots;
    var t := JobStep(s, e);
    JobStepShape(s, e);
    SlotChange(s.jobs, e.j, t.jobs[e.j].phase);
    if s.jobs[e.j].phase.HasSlot() { HolderCounts(s.jobs, e.j); }
  }

  lemma HolderCounts(jobs: seq<Job>, j: JobId)
    requires j < |jobs| && jobs[j].phase.HasSlot()
    ensures |Slots(jobs)| > 0
  {
    assert j in Slots(jobs);
  }

  lemma OtherStepKeepsSlots(s: State, e: Step)
    requires MapInv(s) && SlotInv(s) && !IsJobStep(e)
    ensures SlotInv(Next(s, e))
  {
    hide JobStep;
    assert Slots(Next(s, e).jobs) == Slots(s.jobs);
  }

  lemma EnqueueKeepsLog(s: State, uid: Uid)
    requires LogInv(s)
    ensures LogInv(EnqueueJob(s, uid))
  {
    var t := EnqueueJob(s, uid);
    NoRowsYet(s.log, |s.jobs|);
  }

  lemma BodyGrows(rows: seq<Kind>)
    requires StartedBody(rows)
    ensures StartedBody(rows + [Param])
  {
  }

  lemma TerminalRowCloses(rows: seq<Kind>, job: Job)
    requires rows == [] || StartedBody(rows)
    ensures job.phase.Leaving? || job.phase.Clearing? ==>
              && (rows != [] || job.cause.Shutdown? ==> Balanced(rows + [Complete], job))
              && (job.cause.Superseded? ==> Balanced(rows, job))
  {
    assert (rows + [Complete])[..|rows|] == rows;
  }

  /** The row a step emits, if any, is lawful for its job. */
  ghost predicate RowBalances(s: State, e: Step, rows: seq<Kind>)
    requires IsJobStep(e) && e.j < |s.jobs|
  {
    var t := JobStep(s, e);
    && |t.jobs| == |s.jobs| && (t.log == s.log || |t.log| == |s.log| + 1)
    && Balanced(if t.log == s.log then rows else rows + [t.log[|s.log|].kind], t.jobs[e.j])
  }

  lemma EmittedRowBalances(s: State, e: Step, rows: seq<Kind>)
    requires IsJobStep(e) && e.j < |s.jobs| && Balanced(rows, s.jobs[e.j])
    ensures RowBalances(s, e, rows)
  {
    hide RowBalances, Balanced;
    if e.TakeSlot? || e.DropQueued? || e.Recheck? || e.Begin? {
      EarlyRowBalances(s, e, rows);
    } else if e.ReconcileReturns? || e.ReconcileFails? || e.ReportError? {
      MiddleRowBalances(s, e, rows);
    } else if e.Report? || e.Finish? {
      LateRowBalances(s, e, rows);
    } else {
      LastStepBalances(s, e, rows);
    }
  }

  lemma EarlyRowBalances(s: State, e: Step, rows: seq<Kind>)
    requires (e.TakeSlot? || e.DropQueued? || e.Recheck? || e.Begin?) && e.j < |s.jobs| && Balanced(rows, s.jobs[e.j])
    ensures RowBalances(s, e, rows)
  {
    OnlyStarted();
    hide StartedBody, Closed;
    if rows == [] { TerminalRowCloses(rows, JobStep(s, e).jobs[e.j]); }
  }

  lemma MiddleRowBalances(s: State, e: Step, rows: seq<Kind>)
    requires (e.ReconcileReturns? || e.ReconcileFails? || e.ReportError?) && e.j < |s.jobs|
    requires Balanced(rows, s.jobs[e.j])
    ensures RowBalances(s, e, rows)
  {
    OnlyStarted();
    hide StartedBody, Closed;
    if rows == [Started] {
      BodyGrows(rows);
      TerminalRowCloses(rows, JobStep(s, e).jobs[e.j]);
    }
  }

  lemma LateRowBalances(s: State, e: Step, rows: seq<Kind>)
    requires (e.Report? || e.Finish?) && e.j < |s.jobs| && Balanced(rows, s.jobs[e.j])
    ensures RowBalances(s, e, rows)
  {
    NotEmpty(rows);
    hide StartedBody, Closed;
    if s.jobs[e.j].phase.Reporting? {
      BodyGrows(rows);
      TerminalRowCloses(rows, JobStep(s, e).jobs[e.j]);
    }
  }

  lemma LastStepBalances(s: State, e: Step, rows: seq<Kind>)
    requires (e.ReturnSlot? || e.Clear? || e.CloseDone?) && e.j < |s.jobs| && Balanced(rows, s.jobs[e.j])
    ensures RowBalances(s, e, rows)
  {
    hide StartedBody, Closed;
  }

  lemma NotEmpty(rows: seq<Kind>)
    ensures StartedBody(rows) ==> rows != []
  {
  }

  lemma OnlyStarted()
    ensures StartedBody([Started])
  {
  }

  lemma JobStepKeepsLog(s: State, e: Step)
    requires LogInv(s) && IsJobStep(e) && e.j < |s.jobs|
    ensures LogInv(JobStep(s, e))
  {
    hide JobStep, Balanced;
    var t := JobStep(s, e);
    JobStepShape(s, e);
    forall k | 0 <= k < |s.jobs| ensures Balanced(RowsOf(t.log, k), t.jobs[k]) {
      if t.log != s.log { AppendRow(s.log, t.log[|s.log|], k); }
      if k == e.j { EmittedRowBalances(s, e, RowsOf(s.log, k)); }
      assert RowsOf(s.log, k) + [] == RowsOf(s.log, k);
    }
  }

  lemma StepKeepsLog(s: State, e: Step)
    requires LogInv(s)
    ensures LogInv(Next(s, e))
  {
    if IsJobStep(e) {
      if e.j < |s.jobs| { JobStepKeepsLog(s, e); }
    } else if e.Enqueue? {
      EnqueueKeepsLog(s, e.uid);
    } else if e.FleetEnqueue? {
      if e.f < |s.fleets| && |s.fleets[e.f].enqueued| < |s.fleets[e.f].uids| {
        EnqueueKeepsLog(s, s.fleets[e.f].uids[|s.fleets[e.f].enqueued|]);
      }
    }
  }

  lemma FleetOkMonotone(s: State, t: State, f: Fleet)
    requires FleetOk(s, f)
    requires |s.jobs| <= |t.jobs| && (s.shutdown ==> t.shutdown)
    requires forall j :: 0 <= j < |s.jobs| ==>
               t.jobs[j].uid == s.jobs[j].uid && (s.jobs[j].phase.Done? ==> t.jobs[j].phase.Done?)
    ensures FleetOk(t, f)
  {
  }

  /** Jobs are only ever added, keep their inverter, and stay done. */
  lemma JobsPersist(s: State, e: Step)
    ensures var t := Next(s, e);
            && |s.jobs| <= |t.jobs| && (s.shutdown ==> t.shutdown)
            && forall j :: 0 <= j < |s.jobs| ==>
                 t.jobs[j].uid == s.jobs[j].uid && (s.jobs[j].phase.Done? ==> t.jobs[j].phase.Done?)
  {
    if IsJobStep(e) && e.j < |s.jobs| { JobStepShape(s, e); }
  }

  /** A fleet run that enqueues its next inverter remembers that inverter's job. */
  lemma EnqueuedFleetOk(s: State, f: nat)
    requires f < |s.fleets| && FleetOk(s, s.fleets[f])
    ensures var t := FleetEnqueues(s, f);
            && |t.fleets| == |s.fleets| && (t == s || FleetOk(t, t.fleets[f]))
            && forall i :: 0 <= i < |s.fleets| && i != f ==> t.fleets[i] == s.fleets[i]
  {
  }

  lemma StepKeepsFleets(s: State, e: Step)
    requires FleetInv(s)
    ensures FleetInv(Next(s, e))
  {
    hide JobStep, FleetEnqueues;
    if e.FleetEnqueue? && e.f < |s.fleets| { EnqueuedFleetOk(s, e.f); }
    var t := Next(s, e);
    JobsPersist(s, e);
    forall i | 0 <= i < |s.fleets| ensures FleetOk(t, s.fleets[i]) {
      FleetOkMonotone(s, t, s.fleets[i]);
    }
    if IsJobStep(e) {
      if e.j < |s.jobs| { JobStepShape(s, e); }
    }
  }

  ghost predicate Inv(s: State) {
    MapInv(s) && SlotInv(s) && LogInv(s) && FleetInv(s)
  }

  /** Per inverter at most one job is neither cleared nor replaced, and it is the map entry;
      every other uncleared job of that inverter is cancelled, and until shutdown its cause is
      supersession. Clearing a replaced job leaves the map alone. */
  ghost predicate OneLiveJobPerInverter(s: State) {
    forall i, j :: 0 <= i < j < |s.jobs| && s.jobs[i].uid == s.jobs[j].uid
                   && !s.jobs[i].phase.Cleared() && !s.jobs[j].phase.Cleared() ==>
      && !IsCurrent(s, i)
      && !s.jobs[i].cause.NotCancelled?
      && (!s.shutdown ==> s.jobs[i].cause.Superseded?)
      && Next(s, Clear(i)).current == s.current
  }

  /** A finished job has at most one started and one terminal row, started first and terminal last.
      One that was never cancelled has both, one that was shut down has the terminal row at least, and
      one that was superseded has none at all or a started row at least. */
  ghost predicate LogBalances(s: State) {
    forall j :: 0 <= j < |s.jobs| && s.jobs[j].phase.Done? ==> FinishedRows(RowsOf(s.log, j), s.jobs[j].cause)
  }

  ghost predicate FinishedRows(rows: seq<Kind>, cause: Cause) {
    && (forall a, b :: 0 <= a < b < |rows| ==> !rows[b].Started? && !rows[a].Complete?)
    && (cause.NotCancelled? ==> |rows| > 1 && rows[0].Started? && rows[|rows| - 1].Complete?)
    && (cause.Shutdown? ==> rows != [] && rows[|rows| - 1].Complete? && (|rows| == 1 || rows[0].Started?))
    && (cause.Superseded? ==> rows == [] || rows[0].Started?)
  }

  /** The fleet-level completion row is honest: when it is written, every inverter of the
      fleet had a job of that run and every one of those jobs has ended. */
  ghost predicate FleetCompletionIsTrue(s: State) {
    forall f :: 0 <= f < |s.fleets| && s.fleets[f].status.Reconciled? ==>
      var fl := s.fleets[f];
      && |fl.enqueued| == |fl.uids|
      && forall i :: 0 <= i < |fl.uids| ==>
           && fl.enqueued[i] < |s.jobs| && s.jobs[fl.enqueued[i]].uid == fl.uids[i]
           && s.jobs[fl.enqueued[i]].phase.Done?
  }

  lemma InvMeansOneLiveJob(s: State)
    requires MapInv(s)
    ensures OneLiveJobPerInverter(s)
  {
    forall i, j | 0 <= i < j < |s.jobs| && s.jobs[i].uid == s.jobs[j].uid
                  && !s.jobs[i].phase.Cleared() && !s.jobs[j].phase.Cleared()
      ensures !IsCurrent(s, i) && !s.jobs[i].cause.NotCancelled? && (!s.shutdown ==> s.jobs[i].cause.Superseded?)
      ensures Next(s, Clear(i)).current == s.current
    {
      assert Replaced(s, i);
      assert JobMapInv(s, i);
    }
  }

  lemma InvMeansLogBalances(s: State)
    requires LogInv(s)
    ensures LogBalances(s)
  {
    forall j | 0 <= j < |s.jobs| && s.jobs[j].phase.Done? ensures FinishedRows(RowsOf(s.log, j), s.jobs[j].cause) {
      var rows := RowsOf(s.log, j);
      assert Balanced(rows, s.jobs[j]);
      if |rows| > 1 && StartedBody(rows[..|rows| - 1]) {
        var body := rows[..|rows| - 1];
        assert forall a :: 0 <= a < |body| ==> rows[a] == body[a];
      }
    }
  }

  lemma {:induction false} InvHolds(steps: seq<Step>)
    ensures Inv(Run(steps))
  {
    if steps != [] {
      var before := Run(steps[..|steps| - 1]);
      var e := steps[|steps| - 1];
      InvHolds(steps[..|steps| - 1]);
      StepKeepsMap(before, e);
      StepKeepsSlots(before, e);
      StepKeepsLog(before, e);
      StepKeepsFleets(before, e);
    } else {
      assert Slots(INIT.jobs) == {};
    }
  }

  // ---------------------------------------------------------------- what becomes of a job

  function Continue(s: State, steps: seq<Step>): State {
    if steps == [] then s else Next(Continue(s, steps[..|steps| - 1]), steps[|steps| - 1])
  }

  /** The state as far as one job is concerned: its phase, the taken slots and the log. */
  ghost predicate IsAt(t: State, s: State, j: JobId, p: Phase, sema: nat, rows: seq<Row>)
    requires j < |s.jobs|
  {
    t == s.With(j, p).(sema := sema, log := s.log + rows)
  }

  function Reports(j: JobId, emits: seq<bool>): seq<Step> {
    seq(|emits|, i requires 0 <= i < |emits| => Report(j, emits[i]))
  }

  /** One row for each point that is in scope and known. */
  function ParamRows(j: JobId, emits: seq<bool>): seq<Row> {
    if emits == [] then []
    else ParamRows(j, emits[..|emits| - 1]) + if emits[|emits| - 1] then [Row(j, Param)] else []
  }

  lemma {:induction false} ReportsRunThrough(s: State, j: JobId, emits: seq<bool>, left: nat)
    requires j < |s.jobs| && s.jobs[j].phase == Reporting(left) && left >= |emits| && s.jobs[j].cause.NotCancelled?
    ensures IsAt(Continue(s, Reports(j, emits)), s, j, Reporting(left - |emits|), s.sema, ParamRows(j, emits))
  {
    if emits == [] {
      assert s.jobs[j := s.jobs[j].(phase := s.jobs[j].phase)] == s.jobs && s.log + [] == s.log;
    } else {
      var n := |emits| - 1;
      ReportsRunThrough(s, j, emits[..n], left);
      assert Reports(j, emits)[..n] == Reports(j, emits[..n]);
      var t := Continue(s, Reports(j, emits[..n]));
      assert t.jobs == s.jobs[j := s.jobs[j].(phase := Reporting(left - n))];
    }
  }

  /** A job that is not cancelled starts as soon as it has a slot, and logs that. */
  lemma JobStarts(s: State, j: JobId)
    requires j < |s.jobs| && s.jobs[j].phase.Queued? && s.jobs[j].cause.NotCancelled? && s.sema < 3
    ensures IsAt(Continue(s, [TakeSlot(j), Recheck(j), Begin(j)]), s, j, Running, s.sema + 1, [Row(j, Started)])
  {
    var steps := [TakeSlot(j), Recheck(j), Begin(j)];
    assert steps[..2][..1] == steps[..1] && steps[..1][..0] == [];
    assert Continue(s, []) == s;
    var a := Next(s, TakeSlot(j));
    assert Continue(s, steps[..1]) == a;
    var b := Next(a, Recheck(j));
    assert Continue(s, steps[..2]) == b;
    assert Continue(s, steps) == Next(b, Begin(j));
  }

  /** Once it has reconciled it logs a row for every reported point in scope, in order, or one error
      row, and then, and only then, the terminal row. */
  lemma JobReports(s: State, j: JobId, emits: seq<bool>)
    requires j < |s.jobs| && s.jobs[j].phase.Running? && s.jobs[j].cause.NotCancelled?
    ensures var t := Next(Continue(Next(s, ReconcileReturns(j, |emits|)), Reports(j, emits)), Finish(j));
            IsAt(t, s, j, Leaving, s.sema, ParamRows(j, emits) + [Row(j, Complete)])
  {
    var r := Next(s, ReconcileReturns(j, |emits|));
    ReportsRunThrough(r, j, emits, |emits|);
    var u := Continue(r, Reports(j, emits));
    hide Continue, Reports, ParamRows;
    assert u.jobs == s.jobs[j := s.jobs[j].(phase := Reporting(0))];
    assert u.log == s.log + ParamRows(j, emits);
    FinishFollows(u, s, j, ParamRows(j, emits));
  }

  lemma FinishFollows(u: State, s: State, j: JobId, rows: seq<Row>)
    requires j < |s.jobs| && IsAt(u, s, j, Reporting(0), s.sema, rows)
    ensures IsAt(Next(u, Finish(j)), s, j, Leaving, s.sema, rows + [Row(j, Complete)])
  {
    assert u.log + [Row(j, Complete)] == s.log + (rows + [Row(j, Complete)]);
  }

  lemma JobReportsError(s: State, j: JobId)
    requires j < |s.jobs| && s.jobs[j].phase.Running? && s.jobs[j].cause.NotCancelled?
    ensures var t := Next(Next(Next(s, ReconcileFails(j)), ReportError(j)), Finish(j));
            IsAt(t, s, j, Leaving, s.sema, [Row(j, Param), Row(j, Complete)])
  {
    var f := Next(Next(s, ReconcileFails(j)), ReportError(j));
    assert f.jobs == s.jobs[j := s.jobs[j].(phase := Reporting(0))];
    FinishFollows(f, s, j, [Row(j, Param)]);
  }

  /** And it returns its slot, leaves the map unless it was replaced, and is done. */
  lemma JobEnds(s: State, j: JobId)
    requires j < |s.jobs| && s.jobs[j].phase.Leaving? && s.sema > 0
    ensures var t := Next(Next(Next(s, ReturnSlot(j)), Clear(j)), CloseDone(j));
            var u := s.jobs[j].uid;
            && t.jobs == s.jobs[j := s.jobs[j].(phase := Done)] && t.sema == s.sema - 1 && t.log == s.log
            && t.current == if IsCurrent(s, j) then s.current - {u} else s.current
  {
    var a := Next(s, ReturnSlot(j));
    var b := Next(a, Clear(j));
    assert b.jobs == s.jobs[j := s.jobs[j].(phase := Closing)];
  }

  /** What a cancelled job logs when it notices: nothing when it was superseded, its terminal row when
      it was shut down. */
  function AbortRows(job: Job, j: JobId): seq<Row> { if job.cause.Superseded? then [] else [Row(j, Complete)] }

  /** A cancelled job notices at its next check, whichever that is: instead of going on it returns. */
  lemma CancelledJobStops(s: State, j: JobId, points: nat, emitsRow: bool)
    requires j < |s.jobs| && !s.jobs[j].cause.NotCancelled?
    ensures var p, rows := s.jobs[j].phase, AbortRows(s.jobs[j], j);
            && (p.Queued? ==> IsAt(Next(s, DropQueued(j)), s, j, Clearing, s.sema, rows))
            && (p.Admitted? ==> IsAt(Next(s, Recheck(j)), s, j, Leaving, s.sema, rows))
            && (p.Running? ==>
                  && IsAt(Next(s, ReconcileReturns(j, points)), s, j, Leaving, s.sema, rows)
                  && IsAt(Next(s, ReconcileFails(j)), s, j, Leaving, s.sema, rows))
            && (p.Reporting? && p.left > 0 ==> IsAt(Next(s, Report(j, emitsRow)), s, j, Leaving, s.sema, rows))
  {
    assert s.log + [] == s.log;
  }

  /** An active fleet run goes on: it enqueues the next inverter while there is one, then takes note of
      every job that is done, and is reconciled when all are; it is aborted only by the shutdown. */
  lemma FleetGoesOn(s: State, f: nat)
    requires f < |s.fleets| && s.fleets[f].status.Active? && FleetOk(s, s.fleets[f])
    ensures var fl := s.fleets[f];
            && (|fl.enqueued| < |fl.uids| ==>
                  var t := Next(s, FleetEnqueue(f));
                  && t.fleets[f].enqueued == fl.enqueued + [|s.jobs|] && |t.jobs| == |s.jobs| + 1
                  && t.jobs[|s.jobs|].uid == fl.uids[|fl.enqueued|] && t.jobs[|s.jobs|].phase.Queued?)
            && (|fl.enqueued| == |fl.uids| && fl.waited < |fl.enqueued| ==>
                  && (s.jobs[fl.enqueued[fl.waited]].phase.Done? ==>
                        Next(s, FleetWait(f)).fleets[f] == fl.(waited := fl.waited + 1))
                  && (Next(s, FleetAbort(f)).fleets[f].status.Aborted? <==> s.shutdown))
            && (|fl.enqueued| == |fl.uids| == fl.waited ==> Next(s, FleetFinish(f)).fleets[f].status.Reconciled?)
  {
  }

  /** The applier's safety over every interleaving of enqueues, supersessions, shutdown and
      completions. */
  lemma ApplierSafety(steps: seq<Step>)
    ensures var s := Run(steps);
            && OneLiveJobPerInverter(s)
            && |Slots(s.jobs)| <= 3
            && LogBalances(s)
            && FleetCompletionIsTrue(s)
  {
    InvHolds(steps);
    InvMeansOneLiveJob(Run(steps));
    InvMeansLogBalances(Run(steps));
  }
}
