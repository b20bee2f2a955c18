/** Which logs keep every committed record in exactly one live block, whatever crashes and however far replays read. */
module BuilderTenants {
  import opened BuilderExamples
  import opened BuilderInvariant
  import opened BuilderOnce
  import opened BuilderProtocol
  import opened Options

  /** No partition carries records of two tenants. */
  ghost predicate OneTenantEach(log: Log) {
    forall p, a, b :: log(p, a).Some? && log(p, b).Some? ==> log(p, a) == log(p, b)
  }

  ghost predicate AlwaysOnce(log: Log) {
    forall steps, r :: IsRun(log, steps) && IsCommitted(log, Exec(log, steps), r) ==> InOneLiveBlock(Exec(log, steps), r)
  }

  /** With one tenant, whatever a longer attempt left has the seed of the replay's own block, so the replay marks it. */
  lemma LeftoverIsReplaced(log: Log, s: State, p: Partition, id: BlockId, r: Rec)
    requires Inv(log, s) && OneHolder(s, r) && OneTenantEach(log) && Enabled(log, s, Commit(p))
    requires Holds(s, id, r) && r.partition == p
    ensures r.offset < WorkerOf(s, p).end
  {
    var w := WorkerOf(s, p);
    assert GoodWorker(log, s, p);
    if Committed(s, p) <= r.offset {
      HolderIsFlagged(log, s, id, r);
      FirstUnique(log, p, Committed(s, p), id.seed.start, w.start);
      var t := id.seed.tenant;
      assert log(p, w.start) == log(p, r.offset) == Some(t);
      assert t in SectionTenants(log, p, w.start, w.end);
      assert GoodFlush(log, s, p, t, w.start, w.end, w.tenants[t]);
      assert IsLive(s.blocks, w.tenants[t].id) && IsLive(s.blocks, id);
      SectionRecsFacts(log, t, p, w.start, w.end);
    }
  }

  lemma {:induction false} OneTenantLeavesNothing(log: Log, steps: seq<Step>, r: Rec)
    requires IsRun(log, steps) && OneTenantEach(log)
    ensures !LeftBehind(log, steps, r)
    decreases |steps|
  {
    if |steps| > 0 {
      var before, step := steps[..|steps| - 1], steps[|steps| - 1];
      var s := Exec(log, before);
      OneTenantLeavesNothing(log, before, r);
      RunInv(log, before);
      RunOne(log, before, r);
      if step.Commit? {
        forall id | Holds(s, id, r) && r.partition == step.p ensures r.offset < WorkerOf(s, step.p).end {
          LeftoverIsReplaced(log, s, step.p, id, r);
        }
      }
    }
  }

  /** Two tenants in a partition are enough for a run that duplicates a committed record. */
  lemma {:induction false} TwoTenantsDuplicate(log: Log, p: Partition, a: Offset, b: Offset)
    requires log(p, a).Some? && log(p, b).Some? && log(p, a) != log(p, b)
    ensures !AlwaysOnce(log)
  {
    var start, e, o := FindSwitch(log, p, a, b);
    var steps, x, y := ShortReplayDuplicates(log, p, start, e, o);
    var s := Exec(log, steps);
    assert IsCommitted(log, s, Rec(p, o));
    assert Holds(s, x, Rec(p, o)) && Holds(s, y, Rec(p, o));
  }

  /** Every run over a log keeps each committed record in exactly one live block if and only if no partition carries two tenants. */
  lemma {:induction false} OnceExactlyByTenants(log: Log)
    ensures AlwaysOnce(log) <==> OneTenantEach(log)
  {
    if OneTenantEach(log) {
      forall steps, r | IsRun(log, steps) && IsCommitted(log, Exec(log, steps), r) ensures InOneLiveBlock(Exec(log, steps), r) {
        OneTenantLeavesNothing(log, steps, r);
        OnceUnlessLeftBehind(log, steps, r);
      }
    } else {
      var p, a, b :| log(p, a).Some? && log(p, b).Some? && log(p, a) != log(p, b);
      TwoTenantsDuplicate(log, p, a, b);
    }
  }
}
