/**
 The hold between a batch's last quiescence entry and its removal. Maintenance measures it from the entry it
 read; a completion that enters quiescence again in the meantime starts it anew without maintenance noticing.
 */
module SchedulerHold {
  import opened SchedulerProtocol
  import opened SchedulerQuiescence

  // --------------------------------------------------------------------- the clock

  lemma ClockStep(cfg: Config, steps: seq<Step>, ss: seq<State>, i: nat)
    requires Through(cfg, steps, ss) && i < |steps|
    ensures ss[i].now <= ss[i + 1].now && ss[i].nextId <= ss[i + 1].nextId
  {
    assert Linked(cfg, steps, ss, i);
  }

  lemma {:induction false} Clock(cfg: Config, steps: seq<Step>, ss: seq<State>, j: nat, m: nat)
    requires Through(cfg, steps, ss) && j <= m <= |steps|
    ensures 0 < ss[j].now <= ss[m].now && ss[j].nextId <= ss[m].nextId
    decreases m, j
  {
    if j < m {
      Clock(cfg, steps, ss, j, m - 1);
      ClockStep(cfg, steps, ss, m - 1);
    } else if j > 0 {
      Clock(cfg, steps, ss, j - 1, j - 1);
      ClockStep(cfg, steps, ss, j - 1);
    }
  }

  lemma NewIds(cfg: Config, steps: seq<Step>, ss: seq<State>, i: nat, t: Tenant)
    requires Through(cfg, steps, ss) && i < |steps| && t in ss[i + 1].batches
    requires t in ss[i].batches ==> ss[i].batches[t].id < ss[i].nextId
    ensures ss[i + 1].batches[t].id < ss[i + 1].nextId
  {
    assert Linked(cfg, steps, ss, i);
  }

  lemma {:induction false} IdsAreUsed(cfg: Config, steps: seq<Step>, ss: seq<State>, m: nat, t: Tenant)
    requires Through(cfg, steps, ss) && m <= |steps| && t in ss[m].batches
    ensures ss[m].batches[t].id < ss[m].nextId
    decreases m
  {
    if m > 0 {
      if t in ss[m - 1].batches { IdsAreUsed(cfg, steps, ss, m - 1, t); }
      NewIds(cfg, steps, ss, m - 1, t);
    }
  }

  // --------------------------------------------------------------- the deliberation

  /** Maintenance has read t's batch and has not yet acted on it. */
  predicate Deliberating(s: State, t: Tenant) {
    (s.maintenance.Advancing? || s.maintenance.Removing?) && s.maintenance.t == t
  }

  /** A completion's clean-up that judged t's batch done, and not yet quiescing, enters quiescence now. */
  predicate Enters(s: State, step: Step, t: Tenant) {
    && step.CleanupStep? && step.i < |s.cleanups|
    && var c := s.cleanups[step.i]; c.Judged? && c.t == t && !c.snap.dryRun && c.snap.quiesceUntil == 0
  }

  /** The k-th step reads t's batch, and maintenance has not acted on the reading when the run stops. */
  predicate DeliberatesSince(steps: seq<Step>, ss: seq<State>, k: nat, t: Tenant)
    requires |ss| == |steps| + 1
  {
    && k < |steps| && steps[k] == Advance(t) && t in ss[k].batches
    && forall j :: k < j <= |steps| ==> Deliberating(ss[j], t)
  }

  lemma SnapStep(cfg: Config, steps: seq<Step>, ss: seq<State>, i: nat, t: Tenant)
    requires Through(cfg, steps, ss) && i < |steps| && Deliberating(ss[i], t) && Deliberating(ss[i + 1], t)
    ensures ss[i + 1].maintenance.snap == ss[i].maintenance.snap
  {
    assert Linked(cfg, steps, ss, i);
  }

  lemma ReadStep(cfg: Config, steps: seq<Step>, ss: seq<State>, k: nat, t: Tenant)
    requires Through(cfg, steps, ss) && k < |steps| && steps[k] == Advance(t) && t in ss[k].batches
    ensures ss[k + 1].maintenance == Advancing(t, ss[k].batches[t]) && ss[k + 1].batches == ss[k].batches
  {
    assert Linked(cfg, steps, ss, k);
  }

  /** What maintenance holds is what it read. */
  lemma {:induction false} SnapStays(cfg: Config, steps: seq<Step>, ss: seq<State>, k: nat, m: nat, t: Tenant)
    requires Through(cfg, steps, ss) && DeliberatesSince(steps, ss, k, t) && k < m <= |steps|
    ensures ss[m].maintenance.snap == ss[k].batches[t]
    decreases m
  {
    if m == k + 1 {
      ReadStep(cfg, steps, ss, k, t);
    } else {
      SnapStays(cfg, steps, ss, k, m - 1, t);
      SnapStep(cfg, steps, ss, m - 1, t);
    }
  }

  /** A step taken meanwhile: a batch that was there before is the same one, and its last entry moves only with an entry. */
  lemma EntryStep(cfg: Config, steps: seq<Step>, ss: seq<State>, i: nat, t: Tenant)
    requires Through(cfg, steps, ss) && i < |steps| && Deliberating(ss[i], t) && Deliberating(ss[i + 1], t) && ss[i].now > 0
    requires t in ss[i + 1].batches && ss[i + 1].batches[t].id < ss[i].nextId
    ensures t in ss[i].batches && ss[i].batches[t].id == ss[i + 1].batches[t].id
    ensures ss[i + 1].batches[t].entered == if Enters(ss[i], steps[i], t) then ss[i].now else ss[i].batches[t].entered
  {
    assert Linked(cfg, steps, ss, i);
  }

  /** If the batch that was read is the tenant's at the end, it was so all along, and each step is as above. */
  lemma {:induction false} SameThrough(cfg: Config, steps: seq<Step>, ss: seq<State>, k: nat, m: nat, t: Tenant)
    requires Through(cfg, steps, ss) && DeliberatesSince(steps, ss, k, t) && k < m <= |steps|
    requires Same(ss[|steps|].batches, t, ss[k].batches[t])
    ensures Same(ss[m].batches, t, ss[k].batches[t])
    ensures m < |steps| && t in ss[m + 1].batches ==>
              ss[m + 1].batches[t].entered == if Enters(ss[m], steps[m], t) then ss[m].now else ss[m].batches[t].entered
    decreases |steps| - m
  {
    if m < |steps| {
      SameThrough(cfg, steps, ss, k, m + 1, t);
      IdsAreUsed(cfg, steps, ss, k, t);
      Clock(cfg, steps, ss, k, m);
      Clock(cfg, steps, ss, m, m);
      EntryStep(cfg, steps, ss, m, t);
    }
  }

  /** An entry of t since maintenance's reading. */
  predicate EntrySince(steps: seq<Step>, ss: seq<State>, k: nat, t: Tenant, j: int)
    requires |ss| == |steps| + 1
  {
    k < j < |steps| && Enters(ss[j], steps[j], t)
  }

  /** The last entry is no earlier than any since the reading, and it is one of them or the one that was read. */
  lemma {:induction false} LastEntry(cfg: Config, steps: seq<Step>, ss: seq<State>, k: nat, m: nat, t: Tenant)
    requires Through(cfg, steps, ss) && DeliberatesSince(steps, ss, k, t) && k < m <= |steps|
    requires Same(ss[|steps|].batches, t, ss[k].batches[t])
    ensures Same(ss[m].batches, t, ss[k].batches[t])
    ensures forall j {:trigger EntrySince(steps, ss, k, t, j)} :: EntrySince(steps, ss, k, t, j) && j < m ==> ss[j].now <= ss[m].batches[t].entered
    ensures || ss[m].batches[t].entered == ss[k].batches[t].entered
            || exists j {:trigger EntrySince(steps, ss, k, t, j)} :: EntrySince(steps, ss, k, t, j) && j < m && ss[m].batches[t].entered == ss[j].now
    decreases m
  {
    SameThrough(cfg, steps, ss, k, m, t);
    if m == k + 1 {
      ReadStep(cfg, steps, ss, k, t);
    } else {
      LastEntry(cfg, steps, ss, k, m - 1, t);
      SameThrough(cfg, steps, ss, k, m - 1, t);
      forall j | EntrySince(steps, ss, k, t, j) && j < m ensures ss[j].now <= ss[m].batches[t].entered {
        Clock(cfg, steps, ss, j, m - 1);
      }
      if Enters(ss[m - 1], steps[m - 1], t) { assert EntrySince(steps, ss, k, t, m - 1); }
    }
  }

  /**
   An apply-mode batch is removed a full hold time after its last quiescence entry exactly when every entry
   since maintenance read the batch was that long ago; in particular when there was none.
   */
  lemma {:induction false} HoldSinceLastEntry(cfg: Config, steps: seq<Step>, ss: seq<State>, k: nat, t: Tenant)
    requires Through(cfg, steps, ss) && DeliberatesSince(steps, ss, k, t)
    requires IsRun(cfg, steps) && AllRemoveJudged(cfg, steps, t)
    requires var s := ss[|steps|];
             && Enabled(s, AdvanceStep) && RemovesJudged(s, AdvanceStep, t)
             && t in s.batches && !s.batches[t].dryRun && t !in Apply(cfg, s, AdvanceStep).batches
    ensures var s := ss[|steps|];
            s.batches[t].entered + cfg.hold <= s.now <==>
            forall j {:trigger EntrySince(steps, ss, k, t, j)} :: EntrySince(steps, ss, k, t, j) ==> ss[j].now + cfg.hold <= s.now
  {
    var n := |steps|;
    ThroughIsRun(cfg, steps, ss, n);
    assert steps[..n] == steps;
    RemovalIsSafe(cfg, steps, AdvanceStep, t);
    SnapStays(cfg, steps, ss, k, n, t);
    assert Same(ss[n].batches, t, ss[k].batches[t]);
    LastEntry(cfg, steps, ss, k, n, t);
  }
}
