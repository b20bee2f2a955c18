/**
 Three schedules in which the code does less than its comments say: a clean-up that removes a batch it
 never judged, a removal right after a quiescence re-entry, and a job left behind by the shutdown drain.
 The first settles exactly when removals are safe.
 */
module SchedulerExamples {
  import opened SchedulerProtocol
  import opened SchedulerQuiescence

  ghost predicate Reaches(cfg: Config, policy: Policy, steps: seq<Step>, s: State) {
    IsRun(cfg, steps) && Exec(cfg, steps) == s && Permitted(policy, steps)
  }

  lemma Take(cfg: Config, policy: Policy, steps: seq<Step>, s: State, step: Step, s': State)
    requires Reaches(cfg, policy, steps, s) && Enabled(s, step) && Apply(cfg, s, step) == s'
    requires step.Submit? ==> policy(step.t, step.dryRun)
    ensures Reaches(cfg, policy, steps + [step], s')
  {
    Extend(cfg, steps, step);
  }

  // ------------------------------------------------- a batch whose one job is finished

  function OneJob(t: Tenant): Job { Job(2, t, Redaction) }

  function TheBatch(dryRun: bool): Batch { Batch(1, dryRun, 0, 0, 0) }

  function Submitted(t: Tenant, dryRun: bool): State {
    State(1, 3, NoJobs.(pending := map[t := [OneJob(t)]]), map[t := TheBatch(dryRun)], Resting, [])
  }

  /** The job has been dequeued and stands at the given place short of assignment. */
  function Travelling(t: Tenant, dryRun: bool, place: Place): State {
    State(1, 3, Jobs(map[t := []], [Slot(place, OneJob(t))], map[t := 1], map[], false, false, false),
          map[t := TheBatch(dryRun)], Resting, [])
  }

  function Assigned(t: Tenant, dryRun: bool): State {
    State(1, 3, Jobs(map[t := []], [Slot(Active, OneJob(t))], map[t := 0], map[t := 1], false, false, false),
          map[t := TheBatch(dryRun)], Resting, [])
  }

  function DoneJobs(t: Tenant): Jobs {
    Jobs(map[t := []], [], map[t := 0], map[t := 0], false, false, false)
  }

  function Finished(t: Tenant, dryRun: bool): State {
    State(1, 3, DoneJobs(t), map[t := TheBatch(dryRun)], Resting, [])
  }

  lemma SubmitOne(cfg: Config, policy: Policy, t: Tenant, dryRun: bool)
    requires policy(t, dryRun)
    ensures Reaches(cfg, policy, [Submit(t, dryRun, 1, false)], Submitted(t, dryRun))
  {
    assert NewJobs(t, 2, 1) == [OneJob(t)];
    var s: seq<Step> := [];
    assert s + [Submit(t, dryRun, 1, false)] == [Submit(t, dryRun, 1, false)];
    Take(cfg, policy, s, Initial, Submit(t, dryRun, 1, false), Submitted(t, dryRun));
  }

  lemma DequeueOne(cfg: Config, policy: Policy, steps: seq<Step>, t: Tenant, dryRun: bool) returns (all: seq<Step>)
    requires Reaches(cfg, policy, steps, Submitted(t, dryRun))
    ensures Reaches(cfg, policy, all, Travelling(t, dryRun, Hand))
  {
    var s := Submitted(t, dryRun);
    assert Pending(s.jobs, t) == [OneJob(t)];
    all := steps + [Pipeline(Dequeue(t))];
    Take(cfg, policy, steps, s, Pipeline(Dequeue(t)), Travelling(t, dryRun, Hand));
  }

  /** One hand-over, of the only job there is. */
  lemma PassOn(cfg: Config, policy: Policy, steps: seq<Step>, t: Tenant, dryRun: bool, place: Place) returns (all: seq<Step>)
    requires Reaches(cfg, policy, steps, Travelling(t, dryRun, place)) && place in {Hand, Channel, Forwarder, Merged}
    ensures Reaches(cfg, policy, all, Travelling(t, dryRun, Next(place)))
  {
    var s := Travelling(t, dryRun, place);
    all := steps + [Pipeline(Pass(0))];
    Take(cfg, policy, steps, s, Pipeline(Pass(0)), Travelling(t, dryRun, Next(place)));
  }

  lemma AdmitOne(cfg: Config, policy: Policy, steps: seq<Step>, t: Tenant, dryRun: bool) returns (all: seq<Step>)
    requires Reaches(cfg, policy, steps, Travelling(t, dryRun, Pulled))
    ensures Reaches(cfg, policy, all, Travelling(t, dryRun, Admitted))
  {
    all := steps + [Pipeline(Check(0))];
    Take(cfg, policy, steps, Travelling(t, dryRun, Pulled), Pipeline(Check(0)), Travelling(t, dryRun, Admitted));
  }

  lemma AssignOne(cfg: Config, policy: Policy, steps: seq<Step>, t: Tenant, dryRun: bool) returns (all: seq<Step>)
    requires Reaches(cfg, policy, steps, Travelling(t, dryRun, Admitted))
    ensures Reaches(cfg, policy, all, Assigned(t, dryRun))
  {
    all := steps + [Pipeline(Promote(0))];
    Take(cfg, policy, steps, Travelling(t, dryRun, Admitted), Pipeline(Promote(0)), Assigned(t, dryRun));
  }

  lemma FinishOne(cfg: Config, policy: Policy, steps: seq<Step>, t: Tenant, dryRun: bool) returns (all: seq<Step>)
    requires Reaches(cfg, policy, steps, Assigned(t, dryRun))
    ensures Reaches(cfg, policy, all, Finished(t, dryRun))
  {
    Take(cfg, policy, steps, Assigned(t, dryRun), Pipeline(Finish(0)), Finished(t, dryRun));
    all := steps + [Pipeline(Finish(0))];
  }

  /** A batch of one job whose job has run to completion is reachable. */
  lemma FinishedIsReachable(cfg: Config, policy: Policy, t: Tenant, dryRun: bool) returns (all: seq<Step>)
    requires policy(t, dryRun)
    ensures Reaches(cfg, policy, all, Finished(t, dryRun))
  {
    SubmitOne(cfg, policy, t, dryRun);
    all := DequeueOne(cfg, policy, [Submit(t, dryRun, 1, false)], t, dryRun);
    all := PassOn(cfg, policy, all, t, dryRun, Hand);
    all := PassOn(cfg, policy, all, t, dryRun, Channel);
    all := PassOn(cfg, policy, all, t, dryRun, Forwarder);
    all := PassOn(cfg, policy, all, t, dryRun, Merged);
    all := AdmitOne(cfg, policy, all, t, dryRun);
    all := AssignOne(cfg, policy, all, t, dryRun);
    all := FinishOne(cfg, policy, all, t, dryRun);
  }

  // --------------------------------------------------------- removing another batch

  function DryJudged(t: Tenant, batches: Batches, cleanups: seq<Cleanup>): State {
    State(1, 3, DoneJobs(t), batches, Removing(t, TheBatch(true)), cleanups)
  }

  lemma JudgeDryRun(cfg: Config, policy: Policy, steps: seq<Step>, t: Tenant) returns (all: seq<Step>)
    requires Reaches(cfg, policy, steps, Finished(t, true))
    ensures Reaches(cfg, policy, all, DryJudged(t, map[t := TheBatch(true)], [Reading(t)]))
  {
    var reading := Finished(t, true).(maintenance := Advancing(t, TheBatch(true)));
    Take(cfg, policy, steps, Finished(t, true), Advance(t), reading);
    var removing := DryJudged(t, map[t := TheBatch(true)], []);
    Take(cfg, policy, steps + [Advance(t)], reading, AdvanceStep, removing);
    all := steps + [Advance(t)] + [AdvanceStep];
    Take(cfg, policy, all, removing, StartCleanup(t), DryJudged(t, map[t := TheBatch(true)], [Reading(t)]));
    all := all + [StartCleanup(t)];
  }

  lemma CompleteDryRun(cfg: Config, policy: Policy, steps: seq<Step>, t: Tenant) returns (all: seq<Step>)
    requires Reaches(cfg, policy, steps, DryJudged(t, map[t := TheBatch(true)], [Reading(t)]))
    ensures Reaches(cfg, policy, all, DryJudged(t, map[], []))
  {
    var b := TheBatch(true);
    var there := map[t := b];
    Take(cfg, policy, steps, DryJudged(t, there, [Reading(t)]), CleanupStep(0), DryJudged(t, there, [Read(t, b)]));
    all := steps + [CleanupStep(0)];
    Take(cfg, policy, all, DryJudged(t, there, [Read(t, b)]), CleanupStep(0), DryJudged(t, there, [Judged(t, b)]));
    all := all + [CleanupStep(0)];
    Take(cfg, policy, all, DryJudged(t, there, [Judged(t, b)]), CleanupStep(0), DryJudged(t, map[], []));
    all := all + [CleanupStep(0)];
  }

  /**
   The race: maintenance judges a finished dry run; the completion path removes it; another redaction,
   real or dry, is submitted for the tenant; maintenance then removes that one, with its job still queued.
   */
  lemma {:induction false} DryRunRace(cfg: Config, policy: Policy, t: Tenant, dryRun: bool) returns (all: seq<Step>)
    requires policy(t, true) && policy(t, dryRun)
    ensures IsRun(cfg, all) && Permitted(policy, all) && Enabled(Exec(cfg, all), AdvanceStep)
    ensures var s := Exec(cfg, all);
            && t in s.batches && s.batches[t].dryRun == dryRun && JobsOf(s.jobs, t) == 1
            && t !in Apply(cfg, s, AdvanceStep).batches && !RemovesJudged(s, AdvanceStep, t)
  {
    all := FinishedIsReachable(cfg, policy, t, true);
    all := JudgeDryRun(cfg, policy, all, t);
    all := CompleteDryRun(cfg, policy, all, t);
    var s := DryJudged(t, map[], []);
    var job := Job(4, t, Redaction);
    assert NewJobs(t, 4, 1) == [job];
    var s' := State(1, 5, DoneJobs(t).(pending := map[t := [job]]), map[t := Batch(3, dryRun, 0, 0, 0)], Removing(t, TheBatch(true)), []);
    assert Pending(s.jobs, t) == [];
    Take(cfg, policy, all, s, Submit(t, dryRun, 1, false), s');
    all := all + [Submit(t, dryRun, 1, false)];
    assert Pending(s'.jobs, t) == [job];
  }

  /** Every removal of t's batch is safe, in every run of permitted submissions. */
  ghost predicate RemovalsAreSafe(cfg: Config, policy: Policy, t: Tenant) {
    forall steps, step ::
      IsRun(cfg, steps) && Permitted(policy, steps) && Enabled(Exec(cfg, steps), step) ==> SafeFor(cfg, Exec(cfg, steps), step, t)
  }

  /** Removal is safe for a tenant exactly when dry runs of that tenant are not let through. */
  lemma {:induction false} SafeExactlyWithoutDryRuns(cfg: Config, policy: Policy, t: Tenant)
    ensures RemovalsAreSafe(cfg, policy, t) <==> !policy(t, true)
  {
    if policy(t, true) {
      var all := DryRunRace(cfg, policy, t, true);
      assert !SafeFor(cfg, Exec(cfg, all), AdvanceStep, t);
    } else {
      forall steps, step | IsRun(cfg, steps) && Permitted(policy, steps) && Enabled(Exec(cfg, steps), step)
        ensures SafeFor(cfg, Exec(cfg, steps), step, t)
      {
        WithoutDryRuns(cfg, policy, steps, t);
        if t in Exec(cfg, steps).batches && t !in Apply(cfg, Exec(cfg, steps), step).batches {
          ApplyInvStep(cfg, Exec(cfg, steps), step, t);
          RemovalIsSafe(cfg, steps, step, t);
        }
      }
    }
  }

  // ------------------------------------------------------- removal right after entry

  function Quiescing(t: Tenant, now: nat, until: nat, entered: nat, m: Maintenance, cleanups: seq<Cleanup>): State {
    State(now, 3, DoneJobs(t), map[t := Batch(1, false, 0, until, entered)], m, cleanups)
  }

  lemma {:induction false} StaleJudgement(cfg: Config, policy: Policy, steps: seq<Step>, t: Tenant) returns (all: seq<Step>)
    requires Reaches(cfg, policy, steps, Quiescing(t, 1, 0, 0, Resting, []))
    ensures Reaches(cfg, policy, all, Quiescing(t, 1, 0, 0, Resting, [Judged(t, TheBatch(false))]))
  {
    var b := TheBatch(false);
    var c := StartCleanup(t);
    Take(cfg, policy, steps, Quiescing(t, 1, 0, 0, Resting, []), c, Quiescing(t, 1, 0, 0, Resting, [Reading(t)]));
    all := steps + [c];
    Take(cfg, policy, all, Quiescing(t, 1, 0, 0, Resting, [Reading(t)]), CleanupStep(0), Quiescing(t, 1, 0, 0, Resting, [Read(t, b)]));
    all := all + [CleanupStep(0)];
    Take(cfg, policy, all, Quiescing(t, 1, 0, 0, Resting, [Read(t, b)]), CleanupStep(0), Quiescing(t, 1, 0, 0, Resting, [Judged(t, b)]));
    all := all + [CleanupStep(0)];
  }

  /** Maintenance enters quiescence and, once the hold is over, decides to remove. */
  lemma HoldAndDecide(cfg: Config, policy: Policy, steps: seq<Step>, t: Tenant, cs: seq<Cleanup>) returns (all: seq<Step>)
    requires Reaches(cfg, policy, steps, Quiescing(t, 1, 0, 0, Resting, cs))
    ensures var late := 1 + cfg.hold;
            Reaches(cfg, policy, all, Quiescing(t, late, late, 1, Removing(t, Batch(1, false, 0, late, 1)), cs))
  {
    var b := TheBatch(false);
    var late := 1 + cfg.hold;
    var b' := Batch(1, false, 0, late, 1);
    Take(cfg, policy, steps, Quiescing(t, 1, 0, 0, Resting, cs), Advance(t), Quiescing(t, 1, 0, 0, Advancing(t, b), cs));
    all := steps + [Advance(t)];
    Take(cfg, policy, all, Quiescing(t, 1, 0, 0, Advancing(t, b), cs), AdvanceStep, Quiescing(t, 1, 0, 0, Removing(t, b), cs));
    all := all + [AdvanceStep];
    Take(cfg, policy, all, Quiescing(t, 1, 0, 0, Removing(t, b), cs), AdvanceStep, Quiescing(t, 1, late, 1, Resting, cs));
    all := all + [AdvanceStep];
    Take(cfg, policy, all, Quiescing(t, 1, late, 1, Resting, cs), Tick(late), Quiescing(t, late, late, 1, Resting, cs));
    all := all + [Tick(late)];
    Take(cfg, policy, all, Quiescing(t, late, late, 1, Resting, cs), Advance(t), Quiescing(t, late, late, 1, Advancing(t, b'), cs));
    all := all + [Advance(t)];
    Take(cfg, policy, all, Quiescing(t, late, late, 1, Advancing(t, b'), cs), AdvanceStep, Quiescing(t, late, late, 1, Removing(t, b'), cs));
    all := all + [AdvanceStep];
  }

  lemma {:induction false} Reenter(cfg: Config, policy: Policy, steps: seq<Step>, t: Tenant, now: nat, m: Maintenance) returns (all: seq<Step>)
    requires now > 0 && Reaches(cfg, policy, steps, Quiescing(t, now, now, 1, m, [Judged(t, TheBatch(false))]))
    ensures Reaches(cfg, policy, all, Quiescing(t, now, now + cfg.hold, now, m, []))
  {
    var s := Quiescing(t, now, now, 1, m, [Judged(t, TheBatch(false))]);
    Take(cfg, policy, steps, s, CleanupStep(0), Quiescing(t, now, now + cfg.hold, now, m, []));
    all := steps + [CleanupStep(0)];
  }

  /**
   A completion callback that stalled since before the batch began to quiesce re-enters quiescence
   between maintenance's decision and its removal: the batch goes at the very instant it last entered.
   */
  lemma StaleReentry(cfg: Config, policy: Policy, t: Tenant) returns (all: seq<Step>)
    requires policy(t, false)
    ensures IsRun(cfg, all) && Enabled(Exec(cfg, all), AdvanceStep)
    ensures var s := Exec(cfg, all);
            && t in s.batches && s.batches[t].entered == s.now && s.batches[t].quiesceUntil == s.now + cfg.hold
            && RemovesJudged(s, AdvanceStep, t) && t !in Apply(cfg, s, AdvanceStep).batches
  {
    all := FinishedIsReachable(cfg, policy, t, false);
    all := StaleJudgement(cfg, policy, all, t);
    all := HoldAndDecide(cfg, policy, all, t, [Judged(t, TheBatch(false))]);
    var late := 1 + cfg.hold;
    all := Reenter(cfg, policy, all, t, late, Removing(t, Batch(1, false, 0, late, 1)));
  }

  // --------------------------------------------------------------- the leaking drain

  function Two(t: Tenant, ps: seq<Slot>, shutdown: bool, providerDone: bool, forwarderDone: bool, count: nat): State {
    State(1, 4, Jobs(map[t := []], ps, map[t := count], map[], shutdown, providerDone, forwarderDone), map[t := TheBatch(false)], Resting, [])
  }

  function First(t: Tenant): Job { Job(2, t, Redaction) }
  function Second(t: Tenant): Job { Job(3, t, Redaction) }

  lemma DequeueFirst(cfg: Config, policy: Policy, t: Tenant) returns (all: seq<Step>)
    requires policy(t, false)
    ensures Reaches(cfg, policy, all, FirstUnderWay(t, Hand))
  {
    var submit := Submit(t, false, 2, false);
    assert NewJobs(t, 2, 2) == [First(t), Second(t)];
    var queued := State(1, 4, NoJobs.(pending := map[t := [First(t), Second(t)]]), map[t := TheBatch(false)], Resting, []);
    var s: seq<Step> := [];
    assert Pending(NoJobs, t) + NewJobs(t, 2, 2) == [First(t), Second(t)];
    assert Apply(cfg, Initial, submit) == queued;
    Take(cfg, policy, s, Initial, submit, queued);
    assert Pending(queued.jobs, t) == [First(t), Second(t)] && Pending(queued.jobs, t)[1..] == [Second(t)];
    all := s + [submit] + [Pipeline(Dequeue(t))];
    Take(cfg, policy, s + [submit], queued, Pipeline(Dequeue(t)),
         queued.(jobs := Jobs(map[t := [Second(t)]], [Slot(Hand, First(t))], map[t := 1], map[], false, false, false)));
  }

  /** The first job under way, at the given place, and the second still queued. */
  function FirstUnderWay(t: Tenant, place: Place): State {
    Two(t, [], false, false, false, 1).
      (jobs := Jobs(map[t := [Second(t)]], [Slot(place, First(t))], map[t := 1], map[], false, false, false))
  }

  lemma PassFirst(cfg: Config, policy: Policy, steps: seq<Step>, t: Tenant, place: Place) returns (all: seq<Step>)
    requires Reaches(cfg, policy, steps, FirstUnderWay(t, place)) && place in {Hand, Channel}
    ensures Reaches(cfg, policy, all, FirstUnderWay(t, Next(place)))
  {
    Take(cfg, policy, steps, FirstUnderWay(t, place), Pipeline(Pass(0)), FirstUnderWay(t, Next(place)));
    all := steps + [Pipeline(Pass(0))];
  }

  lemma DequeueSecond(cfg: Config, policy: Policy, t: Tenant) returns (all: seq<Step>)
    requires policy(t, false)
    ensures Reaches(cfg, policy, all, Two(t, [Slot(Forwarder, First(t)), Slot(Hand, Second(t))], false, false, false, 2))
  {
    all := DequeueFirst(cfg, policy, t);
    all := PassFirst(cfg, policy, all, t, Hand);
    all := PassFirst(cfg, policy, all, t, Channel);
    var forwarded := FirstUnderWay(t, Forwarder);
    assert Pending(forwarded.jobs, t) == [Second(t)];
    Take(cfg, policy, all, forwarded, Pipeline(Dequeue(t)), Two(t, [Slot(Forwarder, First(t)), Slot(Hand, Second(t))], false, false, false, 2));
    all := all + [Pipeline(Dequeue(t))];
  }

  lemma FillChannel(cfg: Config, policy: Policy, t: Tenant) returns (all: seq<Step>)
    requires policy(t, false)
    ensures Reaches(cfg, policy, all, Two(t, [Slot(Forwarder, First(t)), Slot(Channel, Second(t))], true, false, false, 2))
  {
    all := DequeueSecond(cfg, policy, t);
    var a := Slot(Forwarder, First(t));
    var b := Slot(Channel, Second(t));
    Take(cfg, policy, all, Two(t, [a, Slot(Hand, Second(t))], false, false, false, 2), Pipeline(Pass(1)), Two(t, [a, b], false, false, false, 2));
    all := all + [Pipeline(Pass(1))];
    Take(cfg, policy, all, Two(t, [a, b], false, false, false, 2), Pipeline(Shutdown), Two(t, [a, b], true, false, false, 2));
    all := all + [Pipeline(Shutdown)];
  }

  /**
   The provider has handed over a second job while the forwarder still held the first. On shutdown the
   forwarder discards its own job and returns without looking at the channel: both goroutines have
   stopped, and the job in the channel is counted for ever.
   */
  lemma ShutdownStrandsAJob(cfg: Config, policy: Policy, t: Tenant) returns (all: seq<Step>)
    requires policy(t, false)
    ensures IsRun(cfg, all)
    ensures var s := Exec(cfg, all).jobs;
            && s.shutdown && s.providerDone && s.forwarderDone
            && s.slots == [Slot(Channel, Second(t))] && InFlight(s, t) == 1
  {
    all := FillChannel(cfg, policy, t);
    var a := Slot(Forwarder, First(t));
    var b := Slot(Channel, Second(t));
    Take(cfg, policy, all, Two(t, [a, b], true, false, false, 2), Pipeline(Discard(0)), Two(t, [b], true, false, true, 1));
    all := all + [Pipeline(Discard(0))];
    Take(cfg, policy, all, Two(t, [b], true, false, true, 1), Pipeline(ProviderStop), Two(t, [b], true, true, true, 1));
    all := all + [Pipeline(ProviderStop)];
  }
}
