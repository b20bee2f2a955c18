/**
 When a redaction batch may disappear, and what it holds back until then. The removal acts on what was
 read two critical sections earlier, so the question is whether the batch removed is the one judged.
 */
module SchedulerQuiescence {
  import opened Options
  import opened SchedulerProtocol

  /** The tenant whose batch a step removes, with the batch state the decision rested on. */
  function Removal(s: State, step: Step): Option<(Tenant, Batch)>
    requires Enabled(s, step)
  {
    match step
    case CleanupStep(i) => CleanupRemoval(s.cleanups[i])
    case AdvanceStep =>
      (match s.maintenance
       case Removing(t, snap) =>
         if snap.dryRun || (snap.quiesceUntil != 0 && snap.quiesceUntil <= s.now) then Some((t, snap)) else None
       case Cleaning(c) => CleanupRemoval(c)
       case _ => None)
    case _ => None
  }

  function CleanupRemoval(c: Cleanup): Option<(Tenant, Batch)> {
    if c.Judged? && c.snap.dryRun then Some((c.t, c.snap)) else None
  }

  /** The step removes no batch of tenant t other than the one it judged. */
  predicate RemovesJudged(s: State, step: Step, t: Tenant)
    requires Enabled(s, step)
  {
    var r := Removal(s, step);
    r.Some? && r.value.0 == t && t in s.batches ==> s.batches[t].id == r.value.1.id
  }

  predicate AllRemoveJudged(cfg: Config, steps: seq<Step>, t: Tenant)
    requires IsRun(cfg, steps)
    decreases |steps|
  {
    |steps| == 0 ||
    (var before := steps[..|steps| - 1];
     AllRemoveJudged(cfg, before, t) && RemovesJudged(Exec(cfg, before), steps[|steps| - 1], t))
  }

  // ------------------------------------------- an invariant about one tenant's batch

  predicate GoodBatch(cfg: Config, s: State, b: Batch) {
    && b.id < s.nextId
    && (b.dryRun ==> b.rescanAfter == 0)
    && (b.quiesceUntil != 0 ==> b.quiesceUntil == b.entered + cfg.hold)
  }

  /** The batch that was read is still the tenant's batch. */
  predicate Same(batches: Batches, t: Tenant, snap: Batch) {
    t in batches && batches[t].id == snap.id
  }

  predicate GoodSnap(cfg: Config, s: State, t: Tenant, snap: Batch) {
    && GoodBatch(cfg, s, snap)
    && (Same(s.batches, t, snap) ==> s.batches[t].dryRun == snap.dryRun)
  }

  predicate GoodCleanup(cfg: Config, s: State, c: Cleanup, t: Tenant) {
    c.t == t ==>
      match c
      case Reading(_) => true
      case Read(_, snap) => GoodSnap(cfg, s, t, snap)
      case Judged(_, snap) =>
        GoodSnap(cfg, s, t, snap) && (snap.dryRun && Same(s.batches, t, snap) ==> JobsOf(s.jobs, t) == 0)
  }

  /** The tenant the maintenance goroutine is at work on. */
  predicate WorksOn(m: Maintenance, t: Tenant) {
    match m
    case Resting => false
    case Cleaning(c) => c.t == t
    case _ => m.t == t
  }

  predicate GoodMaintenance(cfg: Config, s: State, t: Tenant) {
    WorksOn(s.maintenance, t) ==>
      match s.maintenance
      case Advancing(_, snap) =>
        GoodSnap(cfg, s, t, snap) && (Same(s.batches, t, snap) ==> s.batches[t].rescanAfter == snap.rescanAfter)
      case Removing(_, snap) =>
        GoodSnap(cfg, s, t, snap) && (Same(s.batches, t, snap) ==> s.batches[t].rescanAfter == 0 && JobsOf(s.jobs, t) == 0)
      case Rescanning(_, id) => t in s.batches && s.batches[t].id == id && !s.batches[t].dryRun
      case Enqueueing(_, id, _) => t in s.batches && s.batches[t].id == id && !s.batches[t].dryRun
      case Cleaning(c) => GoodCleanup(cfg, s, c, t)
      case _ => true
  }

  ghost predicate Inv(cfg: Config, s: State, t: Tenant) {
    && CountsExact(s.jobs)
    && (t in s.batches ==> GoodBatch(cfg, s, s.batches[t]))
    && (forall i :: 0 <= i < |s.cleanups| ==> GoodCleanup(cfg, s, s.cleanups[i], t))
    && GoodMaintenance(cfg, s, t)
  }

  /**
   What may happen to the store without upsetting anyone who has read the tenant's batch: it keeps its
   identity and mode, a new one has a fresh ID, and no dry run that stays gains a job.
   */
  predicate Quiet(cfg: Config, s: State, s': State, t: Tenant) {
    && s.nextId <= s'.nextId
    && (t in s'.batches ==> GoodBatch(cfg, s', s'.batches[t]))
    && (t in s'.batches ==>
          || (t in s.batches && s'.batches[t].id == s.batches[t].id && s'.batches[t].dryRun == s.batches[t].dryRun
              && (s'.batches[t].dryRun ==> JobsOf(s'.jobs, t) <= JobsOf(s.jobs, t)))
          || s.nextId <= s'.batches[t].id)
  }

  lemma QuietCleanup(cfg: Config, s: State, s': State, c: Cleanup, t: Tenant)
    requires Quiet(cfg, s, s', t) && GoodCleanup(cfg, s, c, t)
    ensures GoodCleanup(cfg, s', c, t)
  {
  }

  lemma QuietCleanups(cfg: Config, s: State, s': State, t: Tenant)
    requires Inv(cfg, s, t) && Quiet(cfg, s, s', t) && s'.cleanups == s.cleanups
    ensures forall i :: 0 <= i < |s'.cleanups| ==> GoodCleanup(cfg, s', s'.cleanups[i], t)
  {
    forall i | 0 <= i < |s'.cleanups| ensures GoodCleanup(cfg, s', s'.cleanups[i], t) {
      QuietCleanup(cfg, s, s', s.cleanups[i], t);
    }
  }

  /** The maintenance goroutine's reading also survives, as long as nobody else arms a rescan or adds jobs for the tenant. */
  lemma QuietMaintenance(cfg: Config, s: State, s': State, t: Tenant)
    requires Inv(cfg, s, t) && Quiet(cfg, s, s', t) && s'.maintenance == s.maintenance
    requires t in s'.batches && t in s.batches && s'.batches[t].id == s.batches[t].id ==>
               s'.batches[t].rescanAfter == s.batches[t].rescanAfter && JobsOf(s'.jobs, t) <= JobsOf(s.jobs, t)
    requires t in s.batches && !s.batches[t].dryRun ==> t in s'.batches && s'.batches[t].id == s.batches[t].id
    ensures GoodMaintenance(cfg, s', t)
  {
    if s.maintenance.Cleaning? && s.maintenance.c.t == t { QuietCleanup(cfg, s, s', s.maintenance.c, t); }
  }

  // --------------------------------------------------------- preservation by step

  lemma PipelineKeeps(cfg: Config, s: State, move: Move, t: Tenant)
    requires Inv(cfg, s, t) && Enabled(s, Pipeline(move))
    ensures Inv(cfg, Apply(cfg, s, Pipeline(move)), t)
  {
    var s' := Apply(cfg, s, Pipeline(move));
    MoveCounts(s.batches, s.jobs, move);
    QuietCleanups(cfg, s, s', t);
    QuietMaintenance(cfg, s, s', t);
  }

  lemma SubmitKeeps(cfg: Config, s: State, step: Step, t: Tenant)
    requires Inv(cfg, s, t) && Enabled(s, step) && step.Submit?
    ensures Inv(cfg, Apply(cfg, s, step), t)
  {
    var s' := Apply(cfg, s, step);
    AddPendingCounts(s.jobs, step.t, s.nextId + 1, step.jobs);
    assert step.t != t ==> JobsOf(s'.jobs, t) == JobsOf(s.jobs, t);
    QuietCleanups(cfg, s, s', t);
    QuietMaintenance(cfg, s, s', t);
  }

  /** One cleanup section: the store changes quietly and the call's own facts hold afterwards. */
  lemma CleanupActGood(cfg: Config, s: State, c: Cleanup, s': State, t: Tenant)
    requires Inv(cfg, s, t) && GoodCleanup(cfg, s, c, t)
    requires s'.jobs == s.jobs && s'.nextId == s.nextId && s'.now == s.now
    requires s'.batches == CleanupAct(cfg, s, c).0
    requires s.now + cfg.hold > 0
    ensures Quiet(cfg, s, s', t)
    ensures CleanupAct(cfg, s, c).1.Some? ==> GoodCleanup(cfg, s', CleanupAct(cfg, s, c).1.value, t)
    ensures t in s'.batches ==> t in s.batches && s'.batches[t].rescanAfter == s.batches[t].rescanAfter
  {
  }

  /** A cleanup that removes only what it judged never removes an apply-mode batch. */
  lemma CleanupSparesApply(cfg: Config, s: State, c: Cleanup, t: Tenant)
    requires Inv(cfg, s, t) && GoodCleanup(cfg, s, c, t)
    requires CleanupRemoval(c).Some? && c.t == t && t in s.batches ==> s.batches[t].id == c.snap.id
    requires t in s.batches && !s.batches[t].dryRun
    ensures t in CleanupAct(cfg, s, c).0 && CleanupAct(cfg, s, c).0[t].id == s.batches[t].id
  {
  }

  lemma CleanupStepKeeps(cfg: Config, s: State, i: nat, t: Tenant)
    requires Inv(cfg, s, t) && Enabled(s, CleanupStep(i)) && RemovesJudged(s, CleanupStep(i), t) && s.now > 0
    ensures Inv(cfg, Apply(cfg, s, CleanupStep(i)), t)
  {
    var s' := Apply(cfg, s, CleanupStep(i));
    var c := s.cleanups[i];
    CleanupActGood(cfg, s, c, s', t);
    forall k | 0 <= k < |s.cleanups| ensures GoodCleanup(cfg, s', s.cleanups[k], t) {
      QuietCleanup(cfg, s, s', s.cleanups[k], t);
    }
    if t in s.batches && !s.batches[t].dryRun { CleanupSparesApply(cfg, s, c, t); }
    QuietMaintenance(cfg, s, s', t);
  }

  lemma AdvanceStepKeeps(cfg: Config, s: State, t: Tenant)
    requires Inv(cfg, s, t) && Enabled(s, AdvanceStep) && RemovesJudged(s, AdvanceStep, t) && s.now > 0
    ensures Inv(cfg, Apply(cfg, s, AdvanceStep), t)
  {
    var s' := Apply(cfg, s, AdvanceStep);
    if s.maintenance.Cleaning? { CleanupActGood(cfg, s, s.maintenance.c, s', t); }
    assert Quiet(cfg, s, s', t);
    QuietCleanups(cfg, s, s', t);
  }

  lemma RescanKeeps(cfg: Config, s: State, step: Step, t: Tenant)
    requires Inv(cfg, s, t) && Enabled(s, step)
    requires step.StartRescan? || step.Disarm? || step.Enqueue?
    ensures Inv(cfg, Apply(cfg, s, step), t)
  {
    var s' := Apply(cfg, s, step);
    if step.Enqueue? && !step.failed { AddPendingCounts(s.jobs, s.maintenance.t, s.nextId, s.maintenance.jobs); }
    assert Quiet(cfg, s, s', t);
    QuietCleanups(cfg, s, s', t);
  }

  lemma OtherKeeps(cfg: Config, s: State, step: Step, t: Tenant)
    requires Inv(cfg, s, t) && Enabled(s, step)
    requires step.Tick? || step.StartCleanup? || step.Advance?
    ensures Inv(cfg, Apply(cfg, s, step), t)
  {
    var s' := Apply(cfg, s, step);
    assert Quiet(cfg, s, s', t);
    forall i | 0 <= i < |s.cleanups| ensures GoodCleanup(cfg, s', s.cleanups[i], t) {
      QuietCleanup(cfg, s, s', s.cleanups[i], t);
    }
    if !step.Advance? { QuietMaintenance(cfg, s, s', t); }
  }

  lemma StepKeeps(cfg: Config, s: State, step: Step, t: Tenant)
    requires Inv(cfg, s, t) && Enabled(s, step) && RemovesJudged(s, step, t) && s.now > 0
    ensures Inv(cfg, Apply(cfg, s, step), t) && Apply(cfg, s, step).now > 0
  {
    match step
    case Pipeline(move) => PipelineKeeps(cfg, s, move, t);
    case Submit(_, _, _, _) => SubmitKeeps(cfg, s, step, t);
    case CleanupStep(i) => CleanupStepKeeps(cfg, s, i, t);
    case AdvanceStep => AdvanceStepKeeps(cfg, s, t);
    case StartRescan(_) => RescanKeeps(cfg, s, step, t);
    case Disarm(_, _) => RescanKeeps(cfg, s, step, t);
    case Enqueue(_) => RescanKeeps(cfg, s, step, t);
    case _ => OtherKeeps(cfg, s, step, t);
  }

  lemma {:induction false} RunInv(cfg: Config, steps: seq<Step>, t: Tenant)
    requires IsRun(cfg, steps) && AllRemoveJudged(cfg, steps, t)
    ensures Inv(cfg, Exec(cfg, steps), t) && Exec(cfg, steps).now > 0
  {
    if |steps| == 0 {
    } else {
      RunInv(cfg, steps[..|steps| - 1], t);
      StepKeeps(cfg, Exec(cfg, steps[..|steps| - 1]), steps[|steps| - 1], t);
    }
  }

  // --------------------------------------------------------------- main results

  /** A batch leaves the store only in a removing step. */
  lemma OnlyRemovalRemoves(cfg: Config, s: State, step: Step, t: Tenant)
    requires Enabled(s, step)
    requires t in s.batches && t !in Apply(cfg, s, step).batches
    ensures Removal(s, step).Some? && Removal(s, step).value.0 == t
  {
  }

  /**
   If the step removes t's batch, the tenant has no pending, in-flight or active redaction job and no armed
   rescan, and an apply-mode batch goes only by maintenance, a hold time after the quiescence entry it read.
   */
  predicate SafeFor(cfg: Config, s: State, step: Step, t: Tenant)
    requires Enabled(s, step)
  {
    t in s.batches && t !in Apply(cfg, s, step).batches ==>
      && !HasJobs(s.jobs, t) && JobsOf(s.jobs, t) == 0 && s.batches[t].rescanAfter == 0
      && (!s.batches[t].dryRun ==>
            && step == AdvanceStep && s.maintenance.Removing?
            && s.maintenance.snap.quiesceUntil != 0 && s.maintenance.snap.entered + cfg.hold <= s.now)
  }

  /** Where every removal of t's batch takes the batch it judged, whatever becomes of other tenants', every removal is safe. */
  lemma {:induction false} RemovalIsSafe(cfg: Config, steps: seq<Step>, step: Step, t: Tenant)
    requires IsRun(cfg, steps) && AllRemoveJudged(cfg, steps, t)
    requires Enabled(Exec(cfg, steps), step) && RemovesJudged(Exec(cfg, steps), step, t)
    ensures SafeFor(cfg, Exec(cfg, steps), step, t)
  {
    var s := Exec(cfg, steps);
    RunInv(cfg, steps, t);
    if t in s.batches && t !in Apply(cfg, s, step).batches {
      OnlyRemovalRemoves(cfg, s, step, t);
      if step.CleanupStep? { assert GoodCleanup(cfg, s, s.cleanups[step.i], t); }
    }
  }

  // ------------------------------------------------------ tenants without dry runs

  /** Which submissions are let through, by tenant and dry-run flag. */
  type Policy = (Tenant, bool) -> bool

  predicate Permitted(policy: Policy, steps: seq<Step>) {
    forall i :: 0 <= i < |steps| && steps[i].Submit? ==> policy(steps[i].t, steps[i].dryRun)
  }

  predicate ApplyCleanup(c: Cleanup, t: Tenant) {
    c.t == t && !c.Reading? ==> !c.snap.dryRun
  }

  predicate ApplyInv(s: State, t: Tenant) {
    && (t in s.batches ==> !s.batches[t].dryRun)
    && (forall i :: 0 <= i < |s.cleanups| ==> ApplyCleanup(s.cleanups[i], t))
    && (s.maintenance.Cleaning? ==> ApplyCleanup(s.maintenance.c, t))
    && ((s.maintenance.Advancing? || s.maintenance.Removing?) && s.maintenance.t == t ==>
          !s.maintenance.snap.dryRun && Same(s.batches, t, s.maintenance.snap))
  }

  lemma ApplyInvStep(cfg: Config, s: State, step: Step, t: Tenant)
    requires ApplyInv(s, t) && Enabled(s, step) && (step.Submit? && step.t == t ==> !step.dryRun)
    ensures ApplyInv(Apply(cfg, s, step), t) && RemovesJudged(s, step, t)
  {
  }

  /** If no dry run of the tenant is ever submitted, every removal of its batch takes the batch it judged. */
  lemma {:induction false} WithoutDryRuns(cfg: Config, policy: Policy, steps: seq<Step>, t: Tenant)
    requires IsRun(cfg, steps) && Permitted(policy, steps) && !policy(t, true)
    ensures AllRemoveJudged(cfg, steps, t) && ApplyInv(Exec(cfg, steps), t)
    decreases |steps|
  {
    if |steps| == 0 {
    } else {
      var before := steps[..|steps| - 1];
      assert Permitted(policy, before);
      WithoutDryRuns(cfg, policy, before, t);
      ApplyInvStep(cfg, Exec(cfg, before), steps[|steps| - 1], t);
    }
  }
}
