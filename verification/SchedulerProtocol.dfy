/**
 The backend scheduler's redaction protocol as interleaved steps: submission, the job pipeline from
 the pending queue to a worker, rescans, and the quiescence that precedes a batch's removal.

 Reading a batch's state, asking whether it still has jobs, and acting on both answers take
 different locks in the code, so they are different steps here; so are disarming a rescan and
 enqueueing its jobs. Adding a batch together with its pending jobs is one step.
 */
module SchedulerProtocol {
  import opened Options

  type Tenant = string

  datatype Kind = Redaction | Retention

  datatype Job = Job(id: nat, tenant: Tenant, kind: Kind)

  /**
   `rescanAfter` and `quiesceUntil` are instants, 0 meaning unset; `entered` remembers when quiesceUntil
   was last set to an instant and is consulted by no step.
   */
  datatype Batch = Batch(id: nat, dryRun: bool, rescanAfter: nat, quiesceUntil: nat, entered: nat)

  /**
   Where a job is between the pending queue and completion. Hand, Channel and Forwarder belong to the
   redaction provider; the merged channel is shared; Pulled and Admitted are inside Next, before and
   after its checks; Active is assigned to a worker.
   */
  datatype Place = Hand | Channel | Forwarder | Merged | Pulled | Admitted | Active

  datatype Slot = Slot(place: Place, job: Job)

  /** cleanupBatchIfDone: about to read the batch, about to ask for jobs, about to act. */
  datatype Cleanup = Reading(t: Tenant) | Read(t: Tenant, snap: Batch) | Judged(t: Tenant, snap: Batch)

  /** The maintenance goroutine. */
  datatype Maintenance =
    | Resting
    | Advancing(t: Tenant, snap: Batch)
    | Resetting(t: Tenant)
    | Removing(t: Tenant, snap: Batch)
    | Rescanning(t: Tenant, id: nat)
    | Enqueueing(t: Tenant, id: nat, jobs: nat)
    | Cleaning(c: Cleanup)

  /** The jobs, and the counters kept about them. */
  datatype Jobs = Jobs(
    pending: map<Tenant, seq<Job>>,
    slots: seq<Slot>,
    inFlight: map<Tenant, nat>,
    running: map<Tenant, nat>,
    shutdown: bool,
    providerDone: bool,
    forwarderDone: bool)

  type Batches = map<Tenant, Batch>

  datatype State = State(now: nat, nextId: nat, jobs: Jobs, batches: Batches, maintenance: Maintenance, cleanups: seq<Cleanup>)

  /** quiescenceSweeps × MaintenanceInterval, and the rescan delay. */
  datatype Config = Config(hold: nat, rescanDelay: nat)

  function Get<K, V>(m: map<K, V>, k: K, d: V): V {
    if k in m then m[k] else d
  }

  function Pending(s: Jobs, t: Tenant): seq<Job> { Get(s.pending, t, []) }
  function InFlight(s: Jobs, t: Tenant): nat { Get(s.inFlight, t, 0) }
  function Running(s: Jobs, t: Tenant): nat { Get(s.running, t, 0) }

  /** decRedactionInFlightLocked: never below zero. */
  function Released(inFlight: map<Tenant, nat>, t: Tenant): map<Tenant, nat> {
    var n := Get(inFlight, t, 0);
    if n > 0 then inFlight[t := n - 1] else inFlight
  }

  /** HasJobsForTenant for redaction jobs, as the code answers it: from counters and the queue. */
  predicate HasJobs(s: Jobs, t: Tenant) {
    |Pending(s, t)| > 0 || Running(s, t) > 0 || InFlight(s, t) > 0
  }

  /** TenantPending: an apply-mode batch exists. */
  predicate TenantPending(batches: Batches, t: Tenant) {
    t in batches && !batches[t].dryRun
  }

  // ------------------------------------------------------------ counting jobs

  predicate IsRedactionOf(j: Job, t: Tenant) {
    j.kind == Redaction && j.tenant == t
  }

  /** 1 if the slot holds a redaction job of t on the given side of assignment. */
  function Weight(x: Slot, t: Tenant, active: bool): nat {
    if IsRedactionOf(x.job, t) && (x.place == Active) == active then 1 else 0
  }

  function Count(slots: seq<Slot>, t: Tenant, active: bool): nat {
    if |slots| == 0 then 0 else Weight(slots[0], t, active) + Count(slots[1..], t, active)
  }

  /** Redaction jobs of t that were dequeued and are not yet assigned or dropped. */
  function InPipeline(s: Jobs, t: Tenant): nat {
    Count(s.slots, t, false)
  }

  /** Redaction jobs of t that exist anywhere. */
  function JobsOf(s: Jobs, t: Tenant): nat {
    |Pending(s, t)| + Count(s.slots, t, false) + Count(s.slots, t, true)
  }

  lemma {:induction false} CountConcat(a: seq<Slot>, b: seq<Slot>, t: Tenant, active: bool)
    ensures Count(a + b, t, active) == Count(a, t, active) + Count(b, t, active)
  {
    if |a| == 0 {
      assert a + b == b;
    } else {
      CountConcat(a[1..], b, t, active);
      assert (a + b)[1..] == a[1..] + b;
    }
  }

  lemma CountAppend(a: seq<Slot>, x: Slot, t: Tenant, active: bool)
    ensures Count(a + [x], t, active) == Count(a, t, active) + Weight(x, t, active)
  {
    CountConcat(a, [x], t, active);
  }

  lemma CountRemove(a: seq<Slot>, i: nat, t: Tenant, active: bool)
    requires i < |a|
    ensures Count(RemoveAt(a, i), t, active) == Count(a, t, active) - Weight(a[i], t, active)
  {
    assert a == a[..i] + ([a[i]] + a[i + 1..]);
    CountConcat(a[..i], [a[i]] + a[i + 1..], t, active);
    CountConcat([a[i]], a[i + 1..], t, active);
    CountConcat(a[..i], a[i + 1..], t, active);
  }

  lemma CountUpdate(a: seq<Slot>, i: nat, x: Slot, t: Tenant, active: bool)
    requires i < |a|
    ensures Count(a[i := x], t, active) == Count(a, t, active) - Weight(a[i], t, active) + Weight(x, t, active)
  {
    var b := a[i := x];
    CountRemove(a, i, t, active);
    CountRemove(b, i, t, active);
    assert RemoveAt(a, i) == RemoveAt(b, i);
  }

  /** A count of zero means there is no such job. */
  lemma {:induction false} CountZero(a: seq<Slot>, t: Tenant, active: bool)
    ensures Count(a, t, active) == 0 <==> forall x :: x in a ==> Weight(x, t, active) == 0
  {
    if |a| > 0 {
      CountZero(a[1..], t, active);
      assert a == [a[0]] + a[1..];
    }
  }

  // ------------------------------------------------------------- the pipeline

  datatype Move =
    | Dequeue(t: Tenant)
    | EmitRetention(t: Tenant, id: nat)
    | Pass(i: nat)
    | Discard(i: nat)
    | Check(i: nat)
    | Promote(i: nat)
    | Finish(i: nat)
    | Shutdown
    | ProviderStop
    | ForwardStop

  function RemoveAt<T>(s: seq<T>, i: nat): seq<T>
    requires i < |s|
  {
    s[..i] + s[i + 1..]
  }

  predicate Occupied(slots: seq<Slot>, place: Place) {
    exists i :: 0 <= i < |slots| && slots[i].place == place
  }

  /** A hand-over along the pipeline is possible: every stage holds one job, and the forwarder still runs. */
  predicate CanPass(s: Jobs, place: Place) {
    match place
    case Hand => !Occupied(s.slots, Channel)
    case Channel => !Occupied(s.slots, Forwarder) && !s.forwarderDone
    case Forwarder => !Occupied(s.slots, Merged)
    case Merged => true
    case _ => false
  }

  function Next(place: Place): Place {
    match place
    case Hand => Channel
    case Channel => Forwarder
    case Forwarder => Merged
    case _ => Pulled
  }

  /** The three ways shutdown discards a job: the provider's and the forwarder's own, and the forwarder's drain of the channel. */
  predicate CanDiscard(s: Jobs, place: Place) {
    match place
    case Hand => true
    case Channel => !Occupied(s.slots, Forwarder) && !s.forwarderDone
    case Forwarder => true
    case _ => false
  }

  predicate CanMove(s: Jobs, move: Move) {
    match move
    case Dequeue(t) => !Occupied(s.slots, Hand) && !s.providerDone && |Pending(s, t)| > 0
    case EmitRetention(t, id) => !Occupied(s.slots, Merged)
    case Pass(i) => i < |s.slots| && CanPass(s, s.slots[i].place)
    case Discard(i) => i < |s.slots| && s.shutdown && CanDiscard(s, s.slots[i].place)
    case Check(i) => i < |s.slots| && s.slots[i].place == Pulled
    case Promote(i) => i < |s.slots| && s.slots[i].place == Admitted
    case Finish(i) => i < |s.slots| && s.slots[i].place == Active
    case Shutdown => true
    case ProviderStop => s.shutdown && !Occupied(s.slots, Hand)
    case ForwardStop => s.shutdown && !Occupied(s.slots, Forwarder) && !Occupied(s.slots, Channel)
  }

  /** A job dequeued from tenant t's queue is counted in the same critical section. */
  function DequeueAct(s: Jobs, t: Tenant): Jobs
    requires |Pending(s, t)| > 0
  {
    s.(pending := s.pending[t := Pending(s, t)[1..]],
       slots := s.slots + [Slot(Hand, Pending(s, t)[0])],
       inFlight := s.inFlight[t := InFlight(s, t) + 1])
  }

  function Relabel(s: Jobs, i: nat, place: Place): Jobs
    requires i < |s.slots|
  {
    s.(slots := s.slots[i := s.slots[i].(place := place)])
  }

  /** Drops a job that has not been assigned; a redaction job's in-flight count is given back. */
  function Drop(s: Jobs, i: nat): Jobs
    requires i < |s.slots|
  {
    var job := s.slots[i].job;
    s.(slots := RemoveAt(s.slots, i),
       inFlight := if job.kind == Redaction then Released(s.inFlight, job.tenant) else s.inFlight)
  }

  function DiscardAct(s: Jobs, i: nat): Jobs
    requires i < |s.slots|
  {
    var place := s.slots[i].place;
    Drop(s, i).(providerDone := s.providerDone || place == Hand, forwarderDone := s.forwarderDone || place == Forwarder)
  }

  /** Next discards a job whose precondition no longer holds; a job without a tenant is let through. */
  predicate Stale(batches: Batches, job: Job) {
    && job.tenant != ""
    && match job.kind
       case Retention => TenantPending(batches, job.tenant)
       case Redaction => job.tenant !in batches
  }

  function CheckAct(batches: Batches, s: Jobs, i: nat): Jobs
    requires i < |s.slots|
  {
    if Stale(batches, s.slots[i].job) then Drop(s, i) else Relabel(s, i, Admitted)
  }

  predicate HasActive(slots: seq<Slot>, id: nat) {
    exists k :: 0 <= k < |slots| && slots[k].place == Active && slots[k].job.id == id
  }

  /** The assignment itself, when no active job has this ID. */
  function AssignAct(s: Jobs, i: nat): Jobs
    requires i < |s.slots|
  {
    var job := s.slots[i].job;
    if job.kind == Redaction
    then Relabel(s, i, Active).(inFlight := Released(s.inFlight, job.tenant),
                                running := s.running[job.tenant := Running(s, job.tenant) + 1])
    else Relabel(s, i, Active)
  }

  /** AddJob: promote, unless a job with this ID is active already; either way the in-flight count is given back. */
  function PromoteAct(s: Jobs, i: nat): Jobs
    requires i < |s.slots|
  {
    if HasActive(s.slots, s.slots[i].job.id) then Drop(s, i) else AssignAct(s, i)
  }

  /** CompleteJob, FailJob, or Prune timing the job out. */
  function FinishAct(s: Jobs, i: nat): Jobs
    requires i < |s.slots|
  {
    var job := s.slots[i].job;
    s.(slots := RemoveAt(s.slots, i),
       running := if job.kind == Redaction && Running(s, job.tenant) > 0
                  then s.running[job.tenant := Running(s, job.tenant) - 1] else s.running)
  }

  function MoveAct(batches: Batches, s: Jobs, move: Move): Jobs
    requires CanMove(s, move)
  {
    match move
    case Dequeue(t) => DequeueAct(s, t)
    case EmitRetention(t, id) => s.(slots := s.slots + [Slot(Merged, Job(id, t, Retention))])
    case Pass(i) => Relabel(s, i, Next(s.slots[i].place))
    case Discard(i) => DiscardAct(s, i)
    case Check(i) => CheckAct(batches, s, i)
    case Promote(i) => PromoteAct(s, i)
    case Finish(i) => FinishAct(s, i)
    case Shutdown => s.(shutdown := true)
    case ProviderStop => s.(providerDone := true)
    case ForwardStop => s.(forwarderDone := true)
  }

  function NewJobs(t: Tenant, from: nat, n: nat): (js: seq<Job>)
    ensures |js| == n
    ensures forall i :: 0 <= i < n ==> js[i] == Job(from + i, t, Redaction)
  {
    if n == 0 then [] else NewJobs(t, from, n - 1) + [Job(from + n - 1, t, Redaction)]
  }

  /** AddPendingJobs. */
  function AddPending(s: Jobs, t: Tenant, from: nat, n: nat): Jobs {
    s.(pending := s.pending[t := Pending(s, t) + NewJobs(t, from, n)])
  }

  // ------------------------------------------------- the batch store and its users

  datatype Step =
    | Pipeline(move: Move)
    | Tick(to: nat)
    | Submit(t: Tenant, dryRun: bool, jobs: nat, armed: bool)
    | StartCleanup(t: Tenant) | CleanupStep(i: nat)
    | Advance(t: Tenant) | AdvanceStep
    | StartRescan(t: Tenant) | Disarm(jobs: nat, rearm: bool) | Enqueue(failed: bool)

  predicate Enabled(s: State, step: Step) {
    match step
    case Pipeline(move) => CanMove(s.jobs, move)
    case Tick(to) => s.now <= to
    case Submit(t, dryRun, jobs, armed) => t !in s.batches && (armed ==> !dryRun) && (jobs > 0 || armed)
    case StartCleanup(t) => true
    case CleanupStep(i) => i < |s.cleanups|
    case Advance(t) => s.maintenance == Resting
    case AdvanceStep => s.maintenance.Advancing? || s.maintenance.Resetting? || s.maintenance.Removing? || s.maintenance.Cleaning?
    case StartRescan(t) =>
      s.maintenance == Resting && t in s.batches && s.batches[t].rescanAfter != 0 && s.batches[t].rescanAfter <= s.now
    case Disarm(jobs, rearm) => s.maintenance.Rescanning?
    case Enqueue(failed) => s.maintenance.Enqueueing?
  }

  function SetRescan(batches: Batches, t: Tenant, after: nat): Batches {
    if t in batches then batches[t := batches[t].(rescanAfter := after)] else batches
  }

  function SetQuiesce(batches: Batches, t: Tenant, until: nat, now: nat): Batches {
    if t in batches
    then batches[t := batches[t].(quiesceUntil := until, entered := if until == 0 then batches[t].entered else now)]
    else batches
  }

  /** One critical section of cleanupBatchIfDone: the new store, and where the call stands (None when it has returned). */
  function CleanupAct(cfg: Config, s: State, c: Cleanup): (Batches, Option<Cleanup>) {
    match c
    case Reading(t) => (s.batches, if t in s.batches then Some(Read(t, s.batches[t])) else None)
    case Read(t, snap) => (s.batches, if HasJobs(s.jobs, t) || snap.rescanAfter > 0 then None else Some(Judged(t, snap)))
    case Judged(t, snap) =>
      if snap.dryRun then (s.batches - {t}, None)
      else if snap.quiesceUntil == 0 then (SetQuiesce(s.batches, t, s.now + cfg.hold, s.now), None)
      else (s.batches, None)
  }

  /** One critical section of advanceQuiescence (or of a cleanup that performRescan calls inline). */
  function AdvanceAct(cfg: Config, s: State): (Batches, Maintenance)
    requires Enabled(s, AdvanceStep)
  {
    match s.maintenance
    case Advancing(t, snap) =>
      (s.batches,
       if HasJobs(s.jobs, t) || snap.rescanAfter > 0
       then (if snap.quiesceUntil != 0 then Resetting(t) else Resting)
       else Removing(t, snap))
    case Resetting(t) => (SetQuiesce(s.batches, t, 0, s.now), Resting)
    case Removing(t, snap) =>
      (if snap.dryRun then s.batches - {t}
       else if snap.quiesceUntil == 0 then SetQuiesce(s.batches, t, s.now + cfg.hold, s.now)
       else if s.now < snap.quiesceUntil then s.batches
       else s.batches - {t}, Resting)
    case Cleaning(c) =>
      var (b', c') := CleanupAct(cfg, s, c);
      (b', if c'.Some? then Cleaning(c'.value) else Resting)
  }

  function Apply(cfg: Config, s: State, step: Step): State
    requires Enabled(s, step)
  {
    match step
    case Pipeline(move) => s.(jobs := MoveAct(s.batches, s.jobs, move))
    case Tick(to) => s.(now := to)
    case Submit(t, dryRun, jobs, armed) =>
      var b := Batch(s.nextId, dryRun, if armed then s.now + cfg.rescanDelay else 0, 0, 0);
      s.(batches := s.batches[t := b], jobs := AddPending(s.jobs, t, s.nextId + 1, jobs), nextId := s.nextId + 1 + jobs)
    case StartCleanup(t) => s.(cleanups := s.cleanups + [Reading(t)])
    case CleanupStep(i) =>
      var (b', c') := CleanupAct(cfg, s, s.cleanups[i]);
      s.(batches := b', cleanups := if c'.Some? then s.cleanups[i := c'.value] else RemoveAt(s.cleanups, i))
    case Advance(t) =>
      if t in s.batches then s.(maintenance := Advancing(t, s.batches[t])) else s
    case AdvanceStep =>
      var (b', m') := AdvanceAct(cfg, s);
      s.(batches := b', maintenance := m')
    case StartRescan(t) => s.(maintenance := Rescanning(t, s.batches[t].id))
    case Disarm(jobs, rearm) =>
      var t := s.maintenance.t;
      s.(batches := SetRescan(s.batches, t, if rearm then s.now + cfg.rescanDelay else 0),
         maintenance := if jobs > 0 then Enqueueing(t, s.maintenance.id, jobs)
                        else if rearm then Resting else Cleaning(Reading(t)))
    case Enqueue(failed) =>
      var m := s.maintenance;
      if failed then s.(maintenance := Resting)
      else s.(maintenance := Resting, jobs := AddPending(s.jobs, m.t, s.nextId, m.jobs), nextId := s.nextId + m.jobs)
  }

  const NoJobs := Jobs(map[], [], map[], map[], false, false, false)

  const Initial := State(1, 1, NoJobs, map[], Resting, [])

  predicate IsRun(cfg: Config, steps: seq<Step>)
    decreases |steps|, 0
  {
    |steps| == 0 ||
    (IsRun(cfg, steps[..|steps| - 1]) && Enabled(Exec(cfg, steps[..|steps| - 1]), steps[|steps| - 1]))
  }

  function Exec(cfg: Config, steps: seq<Step>): State
    requires IsRun(cfg, steps)
    decreases |steps|, 1
  {
    if |steps| == 0 then Initial
    else Apply(cfg, Exec(cfg, steps[..|steps| - 1]), steps[|steps| - 1])
  }

  lemma Extend(cfg: Config, steps: seq<Step>, step: Step)
    requires IsRun(cfg, steps) && Enabled(Exec(cfg, steps), step)
    ensures IsRun(cfg, steps + [step]) && Exec(cfg, steps + [step]) == Apply(cfg, Exec(cfg, steps), step)
  {
    var all := steps + [step];
    assert all[..|all| - 1] == steps;
  }

  lemma {:induction false} PrefixRuns(cfg: Config, steps: seq<Step>, n: nat)
    requires IsRun(cfg, steps) && n <= |steps|
    ensures IsRun(cfg, steps[..n])
    decreases |steps| - n
  {
    if n == |steps| {
      assert steps[..n] == steps;
    } else {
      PrefixRuns(cfg, steps, n + 1);
      assert steps[..n + 1][..n] == steps[..n];
    }
  }

  /** The state after the first n steps. */
  function At(cfg: Config, steps: seq<Step>, n: nat): State
    requires IsRun(cfg, steps) && n <= |steps|
  {
    PrefixRuns(cfg, steps, n);
    Exec(cfg, steps[..n])
  }

  lemma AtNext(cfg: Config, steps: seq<Step>, n: nat)
    requires IsRun(cfg, steps) && n < |steps|
    ensures Enabled(At(cfg, steps, n), steps[n])
    ensures At(cfg, steps, n + 1) == Apply(cfg, At(cfg, steps, n), steps[n])
  {
    PrefixRuns(cfg, steps, n + 1);
    assert steps[..n + 1][..n] == steps[..n];
  }

  // ------------------------------------------------------------- the states of a run

  predicate Linked(cfg: Config, steps: seq<Step>, ss: seq<State>, i: nat)
    requires i < |steps| && |ss| == |steps| + 1
  {
    Enabled(ss[i], steps[i]) && ss[i + 1] == Apply(cfg, ss[i], steps[i])
  }

  /** ss are the states the run goes through, from the initial one to its last. */
  predicate Through(cfg: Config, steps: seq<Step>, ss: seq<State>) {
    && |ss| == |steps| + 1 && ss[0] == Initial
    && forall i {:trigger Linked(cfg, steps, ss, i)} :: 0 <= i < |steps| ==> Linked(cfg, steps, ss, i)
  }

  lemma {:induction false} ThroughIsRun(cfg: Config, steps: seq<Step>, ss: seq<State>, n: nat)
    requires Through(cfg, steps, ss) && n <= |steps|
    ensures IsRun(cfg, steps[..n]) && Exec(cfg, steps[..n]) == ss[n]
  {
    if n > 0 {
      ThroughIsRun(cfg, steps, ss, n - 1);
      assert Linked(cfg, steps, ss, n - 1);
      assert steps[..n][..n - 1] == steps[..n - 1];
    }
  }

  // --------------------------------------------------------- the counters are exact

  ghost predicate PendingTyped(s: Jobs) {
    forall t, j :: j in Pending(s, t) ==> IsRedactionOf(j, t)
  }

  /** Per tenant: in-flight counts the pipeline, and running counts the active redaction jobs. */
  ghost predicate CountsExact(s: Jobs) {
    && PendingTyped(s)
    && (forall t :: InFlight(s, t) == Count(s.slots, t, false))
    && (forall t :: Running(s, t) == Count(s.slots, t, true))
  }

  lemma ReleasedCount(s: Jobs, t: Tenant)
    requires InFlight(s, t) > 0
    ensures forall u :: Get(Released(s.inFlight, t), u, 0) == if u == t then InFlight(s, t) - 1 else InFlight(s, u)
  {
  }

  lemma DequeueCounts(s: Jobs, t: Tenant)
    requires CountsExact(s) && |Pending(s, t)| > 0
    ensures CountsExact(DequeueAct(s, t))
    ensures forall u :: JobsOf(DequeueAct(s, t), u) == JobsOf(s, u)
  {
    var s' := DequeueAct(s, t);
    var job := Pending(s, t)[0];
    assert job in Pending(s, t);
    forall u, j | j in Pending(s', u) ensures IsRedactionOf(j, u) {
      assert j in Pending(s, u);
    }
    forall u, active ensures Count(s'.slots, u, active) == Count(s.slots, u, active) + Weight(Slot(Hand, job), u, active) {
      CountAppend(s.slots, Slot(Hand, job), u, active);
    }
  }

  lemma EmitCounts(s: Jobs, job: Job)
    requires CountsExact(s) && job.kind == Retention
    ensures var s' := s.(slots := s.slots + [Slot(Merged, job)]);
            CountsExact(s') && forall u :: JobsOf(s', u) == JobsOf(s, u)
  {
    var s' := s.(slots := s.slots + [Slot(Merged, job)]);
    forall u, active ensures Count(s'.slots, u, active) == Count(s.slots, u, active) {
      CountAppend(s.slots, Slot(Merged, job), u, active);
    }
    assert forall u :: Pending(s', u) == Pending(s, u);
  }

  /** Changing a slot's place short of assignment changes no count. */
  lemma RelabelCounts(s: Jobs, i: nat, place: Place)
    requires CountsExact(s) && i < |s.slots| && s.slots[i].place != Active && place != Active
    ensures CountsExact(Relabel(s, i, place))
    ensures forall u :: JobsOf(Relabel(s, i, place), u) == JobsOf(s, u)
  {
    var s' := Relabel(s, i, place);
    forall u, active ensures Count(s'.slots, u, active) == Count(s.slots, u, active) {
      CountUpdate(s.slots, i, s.slots[i].(place := place), u, active);
    }
    assert forall u :: Pending(s', u) == Pending(s, u);
  }

  /** A dropped job was counted, so giving its count back never meets the guard at zero. */
  lemma DropCounts(s: Jobs, i: nat)
    requires CountsExact(s) && i < |s.slots| && s.slots[i].place != Active
    ensures CountsExact(Drop(s, i))
    ensures forall u :: JobsOf(Drop(s, i), u) <= JobsOf(s, u)
  {
    var s' := Drop(s, i);
    var job := s.slots[i].job;
    CountRemove(s.slots, i, job.tenant, false);
    if job.kind == Redaction { ReleasedCount(s, job.tenant); }
    forall u, active ensures Count(s'.slots, u, active) == Count(s.slots, u, active) - Weight(s.slots[i], u, active) {
      CountRemove(s.slots, i, u, active);
    }
    assert forall u :: Pending(s', u) == Pending(s, u);
  }

  /** Assignment moves a job from one count to the other. */
  lemma AssignCounts(s: Jobs, i: nat, u: Tenant, active: bool)
    requires i < |s.slots| && s.slots[i].place != Active
    ensures Count(s.slots[i := s.slots[i].(place := Active)], u, active) ==
            Count(s.slots, u, active) + (if IsRedactionOf(s.slots[i].job, u) then (if active then 1 else -1) else 0)
  {
    CountUpdate(s.slots, i, s.slots[i].(place := Active), u, active);
  }

  lemma AssignInFlight(s: Jobs, i: nat, u: Tenant)
    requires CountsExact(s) && i < |s.slots| && s.slots[i].place != Active
    ensures InFlight(AssignAct(s, i), u) == Count(AssignAct(s, i).slots, u, false)
  {
    var job := s.slots[i].job;
    AssignCounts(s, i, u, false);
    if job.kind == Redaction {
      assert InFlight(s, job.tenant) > 0 by { CountRemove(s.slots, i, job.tenant, false); }
      ReleasedCount(s, job.tenant);
    }
  }

  lemma AssignRunning(s: Jobs, i: nat, u: Tenant)
    requires CountsExact(s) && i < |s.slots| && s.slots[i].place != Active
    ensures Running(AssignAct(s, i), u) == Count(AssignAct(s, i).slots, u, true)
  {
    AssignCounts(s, i, u, true);
  }

  lemma AssignKeepsJobs(s: Jobs, i: nat, u: Tenant)
    requires i < |s.slots| && s.slots[i].place != Active
    ensures JobsOf(AssignAct(s, i), u) == JobsOf(s, u)
  {
    AssignCounts(s, i, u, false);
    AssignCounts(s, i, u, true);
  }

  lemma AssignKeepsCounts(s: Jobs, i: nat)
    requires CountsExact(s) && i < |s.slots| && s.slots[i].place != Active
    ensures CountsExact(AssignAct(s, i))
    ensures forall u :: JobsOf(AssignAct(s, i), u) == JobsOf(s, u)
  {
    var s' := AssignAct(s, i);
    assert s'.pending == s.pending;
    forall u, j | j in Pending(s', u) ensures IsRedactionOf(j, u) {
      assert j in Pending(s, u);
    }
    forall u ensures InFlight(s', u) == Count(s'.slots, u, false) && Running(s', u) == Count(s'.slots, u, true)
                     && JobsOf(s', u) == JobsOf(s, u) {
      AssignInFlight(s, i, u);
      AssignRunning(s, i, u);
      AssignKeepsJobs(s, i, u);
    }
  }

  lemma PromoteCounts(s: Jobs, i: nat)
    requires CountsExact(s) && i < |s.slots| && s.slots[i].place != Active
    ensures CountsExact(PromoteAct(s, i))
    ensures forall u :: JobsOf(PromoteAct(s, i), u) <= JobsOf(s, u)
  {
    if HasActive(s.slots, s.slots[i].job.id) { DropCounts(s, i); } else { AssignKeepsCounts(s, i); }
  }

  lemma FinishCounts(s: Jobs, i: nat)
    requires CountsExact(s) && i < |s.slots| && s.slots[i].place == Active
    ensures CountsExact(FinishAct(s, i))
    ensures forall u :: JobsOf(FinishAct(s, i), u) <= JobsOf(s, u)
  {
    var s' := FinishAct(s, i);
    CountRemove(s.slots, i, s.slots[i].job.tenant, true);
    forall u, active ensures Count(s'.slots, u, active) == Count(s.slots, u, active) - Weight(s.slots[i], u, active) {
      CountRemove(s.slots, i, u, active);
    }
    assert forall u :: Pending(s', u) == Pending(s, u);
  }

  lemma SameJobs(s: Jobs, s': Jobs)
    requires s'.pending == s.pending && s'.slots == s.slots && s'.inFlight == s.inFlight && s'.running == s.running
    ensures CountsExact(s) ==> CountsExact(s')
    ensures forall u :: JobsOf(s', u) == JobsOf(s, u)
  {
    assert forall u :: Pending(s', u) == Pending(s, u) && InFlight(s', u) == InFlight(s, u) && Running(s', u) == Running(s, u);
  }

  /** Every move keeps the counters exact, and none makes a redaction job out of nothing. */
  lemma MoveCounts(batches: Batches, s: Jobs, move: Move)
    requires CanMove(s, move) && CountsExact(s)
    ensures CountsExact(MoveAct(batches, s, move))
    ensures forall u :: JobsOf(MoveAct(batches, s, move), u) <= JobsOf(s, u)
  {
    match move
    case Dequeue(t) => DequeueCounts(s, t);
    case EmitRetention(t, id) => EmitCounts(s, Job(id, t, Retention));
    case Pass(i) => RelabelCounts(s, i, Next(s.slots[i].place));
    case Discard(i) => DropCounts(s, i); SameJobs(Drop(s, i), DiscardAct(s, i));
    case Check(i) => DropCounts(s, i); RelabelCounts(s, i, Admitted);
    case Promote(i) => PromoteCounts(s, i);
    case Finish(i) => FinishCounts(s, i);
    case Shutdown => SameJobs(s, s.(shutdown := true));
    case ProviderStop => SameJobs(s, s.(providerDone := true));
    case ForwardStop => SameJobs(s, s.(forwarderDone := true));
  }

  /** Jobs are added to a pending queue only by a submission or by a rescan. */
  lemma AddPendingCounts(s: Jobs, t: Tenant, from: nat, n: nat)
    requires CountsExact(s)
    ensures CountsExact(AddPending(s, t, from, n))
    ensures forall u :: u != t ==> JobsOf(AddPending(s, t, from, n), u) == JobsOf(s, u)
  {
    var s' := AddPending(s, t, from, n);
    forall u, j | j in Pending(s', u) ensures IsRedactionOf(j, u) {
      if u != t { assert j in Pending(s, u); }
      else if j !in Pending(s, u) { assert j in NewJobs(t, from, n); }
    }
  }

  lemma CountsStep(cfg: Config, s: State, step: Step)
    requires CountsExact(s.jobs) && Enabled(s, step)
    ensures CountsExact(Apply(cfg, s, step).jobs)
  {
    match step
    case Pipeline(move) => MoveCounts(s.batches, s.jobs, move);
    case Submit(t, dryRun, jobs, armed) => AddPendingCounts(s.jobs, t, s.nextId + 1, jobs);
    case Enqueue(failed) => AddPendingCounts(s.jobs, s.maintenance.t, s.nextId, s.maintenance.jobs);
    case _ => assert Apply(cfg, s, step).jobs == s.jobs;
  }

  lemma {:induction false} RunCounts(cfg: Config, steps: seq<Step>)
    requires IsRun(cfg, steps)
    ensures CountsExact(Exec(cfg, steps).jobs)
  {
    if |steps| == 0 {
    } else {
      RunCounts(cfg, steps[..|steps| - 1]);
      CountsStep(cfg, Exec(cfg, steps[..|steps| - 1]), steps[|steps| - 1]);
    }
  }

  /** In every run, drains included, a tenant's in-flight count is the number of its redaction jobs in the pipeline. */
  lemma {:induction false} InFlightIsExact(cfg: Config, steps: seq<Step>, t: Tenant)
    requires IsRun(cfg, steps)
    ensures InFlight(Exec(cfg, steps).jobs, t) == InPipeline(Exec(cfg, steps).jobs, t)
    ensures Running(Exec(cfg, steps).jobs, t) == Count(Exec(cfg, steps).jobs.slots, t, true)
  {
    RunCounts(cfg, steps);
  }

  /** A tenant is judged to have no redaction jobs exactly when none exists between the queue and completion. */
  lemma {:induction false} JudgedDoneMeansNoJobs(cfg: Config, steps: seq<Step>, t: Tenant)
    requires IsRun(cfg, steps)
    ensures var s := Exec(cfg, steps).jobs;
            HasJobs(s, t) <==> Pending(s, t) != [] || exists x :: x in s.slots && IsRedactionOf(x.job, t)
  {
    RunCounts(cfg, steps);
    var s := Exec(cfg, steps).jobs;
    CountZero(s.slots, t, false);
    CountZero(s.slots, t, true);
    if x :| x in s.slots && IsRedactionOf(x.job, t) {
      assert Weight(x, t, x.place == Active) == 1;
    }
  }
}
