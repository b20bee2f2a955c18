/**
 When a committed record is in one live block and no other: exactly when no commit left it behind, that is,
 stopped short of it while it was in the live block of a longer attempt.
 */
module BuilderOnce {
  import opened BuilderInvariant
  import opened BuilderProtocol

  ghost predicate Holds(s: State, id: BlockId, r: Rec) {
    IsLive(s.blocks, id) && r in s.blocks[id].recs
  }

  ghost predicate InOneLiveBlock(s: State, r: Rec) {
    exists id :: Holds(s, id, r) && forall x :: Holds(s, x, r) ==> x == id
  }

  ghost predicate IsCommitted(log: Log, s: State, r: Rec) {
    log(r.partition, r.offset).Some? && r.offset < Committed(s, r.partition)
  }

  /** Partition p is about to commit an offset not past r, and r is in a live block already. */
  ghost predicate Strands(s: State, p: Partition, r: Rec) {
    && WorkerOf(s, p).Flushing? && r.partition == p && WorkerOf(s, p).end <= r.offset
    && exists id :: Holds(s, id, r)
  }

  ghost predicate LeftBehind(log: Log, steps: seq<Step>, r: Rec)
    requires IsRun(log, steps)
    decreases |steps|
  {
    |steps| > 0 &&
    (var before, step := steps[..|steps| - 1], steps[|steps| - 1];
     LeftBehind(log, before, r) || (step.Commit? && Strands(Exec(log, before), step.p, r)))
  }

  // ------------------------------------------------------- nothing left behind: one block

  /** The record has one live block at most, and none from a section that ended before it. */
  ghost predicate OneHolder(s: State, r: Rec) {
    && (forall a, b {:trigger Holds(s, a, r), Holds(s, b, r)} :: Holds(s, a, r) && Holds(s, b, r) ==> a == b)
    && (forall id :: Holds(s, id, r) && id.Built? && id.seed.start < Committed(s, r.partition) ==> r.offset < Committed(s, r.partition))
  }

  lemma OneWrite(log: Log, s: State, p: Partition, t: Tenant, r: Rec)
    requires Inv(log, s) && Enabled(log, s, WriteBlock(p, t)) && OneHolder(s, r)
    ensures OneHolder(Apply(log, s, WriteBlock(p, t)), r)
  {
    var s' := Apply(log, s, WriteBlock(p, t));
    var w := WorkerOf(s, p);
    var id := w.tenants[t].next;
    WriteReady(log, s, p, t);
    SectionRecsFacts(log, t, p, w.start, w.end);
    forall a | Holds(s, a, r) ensures r !in SectionRecs(log, t, p, w.start, w.end) {
      if a.Built? {
        assert GoodBuilt(log, s, a);
        if a.seed.partition == p && a.seed.tenant == t && Committed(s, p) <= a.seed.start {
          FirstUnique(log, p, Committed(s, p), a.seed.start, w.start);
        }
      } else {
        assert RecsCommitted(s, s.blocks[a].recs);
      }
    }
    assert forall a :: Holds(s', a, r) && a != id ==> Holds(s, a, r);
  }

  lemma OneCommit(log: Log, s: State, p: Partition, r: Rec)
    requires Inv(log, s) && Enabled(log, s, Commit(p)) && OneHolder(s, r) && !Strands(s, p, r)
    ensures OneHolder(Apply(log, s, Commit(p)), r)
  {
    var s' := Apply(log, s, Commit(p));
    assert forall a :: Holds(s', a, r) <==> Holds(s, a, r);
    assert GoodWorker(log, s, p);
  }

  lemma OneMerge(log: Log, s: State, inputs: set<BlockId>, k: nat, r: Rec)
    requires Enabled(log, s, Merge(inputs, k)) && OneHolder(s, r)
    ensures OneHolder(Apply(log, s, Merge(inputs, k)), r)
  {
    var s' := Apply(log, s, Merge(inputs, k));
    var out := Merged(k);
    forall a, b | Holds(s', a, r) && Holds(s', b, r) ensures a == b {
      var a0 := if a == out then var x :| x in inputs && x in s.blocks && r in s.blocks[x].recs; x else a;
      var b0 := if b == out then var x :| x in inputs && x in s.blocks && r in s.blocks[x].recs; x else b;
      assert Holds(s, a0, r) && Holds(s, b0, r);
    }
    assert forall a :: Holds(s', a, r) && a.Built? ==> Holds(s, a, r);
  }

  /** A step that makes nothing live, adds no record and commits nothing. */
  lemma OneQuiet(s: State, s': State, r: Rec)
    requires OneHolder(s, r) && s'.committed == s.committed
    requires forall x: BlockId :: Holds(s', x, r) ==> Holds(s, x, r)
    ensures OneHolder(s', r)
  {
  }

  lemma OneStep(log: Log, s: State, step: Step, r: Rec)
    requires Inv(log, s) && Enabled(log, s, step) && OneHolder(s, r)
    requires step.Commit? ==> !Strands(s, step.p, r)
    ensures OneHolder(Apply(log, s, step), r)
  {
    match step
    case WriteBlock(p, t) => OneWrite(log, s, p, t, r);
    case Commit(p) => OneCommit(log, s, p, r);
    case Merge(inputs, k) => OneMerge(log, s, inputs, k, r);
    case _ => OneQuiet(s, Apply(log, s, step), r);
  }

  lemma {:induction false} RunOne(log: Log, steps: seq<Step>, r: Rec)
    requires IsRun(log, steps) && !LeftBehind(log, steps, r)
    ensures OneHolder(Exec(log, steps), r)
  {
    if |steps| > 0 {
      RunInv(log, steps[..|steps| - 1]);
      RunOne(log, steps[..|steps| - 1], r);
      OneStep(log, Exec(log, steps[..|steps| - 1]), steps[|steps| - 1], r);
    }
  }

  // ------------------------------------------------------------- left behind: two blocks

  ghost predicate Releases(s: State, p: Partition, t: Tenant) {
    WorkerOf(s, p).Releasing? && t in WorkerOf(s, p).ids
  }

  /** The block of a longer attempt that nothing will ever mark, merge or release, and once r is committed another one. */
  ghost predicate Stray(s: State, id: BlockId, r: Rec) {
    && Holds(s, id, r) && id.Built? && s.blocks[id].flagged
    && id.seed.partition == r.partition && id.seed.start < Committed(s, r.partition)
    && (forall p, t :: Releases(s, p, t) ==> WorkerOf(s, p).ids[t] != id)
    && (r.offset < Committed(s, r.partition) ==> exists x :: x != id && Holds(s, x, r))
  }

  ghost predicate HasStray(s: State, r: Rec) {
    exists id :: Stray(s, id, r)
  }

  /** What a commit releases are the blocks of its own section. */
  lemma ReleasedIds(log: Log, s: State, p: Partition, t: Tenant)
    requires Inv(log, s) && Enabled(log, s, Commit(p)) && Releases(Apply(log, s, Commit(p)), p, t)
    ensures var id := WorkerOf(Apply(log, s, Commit(p)), p).ids[t];
            && id.Built? && id.seed.start == WorkerOf(s, p).start
            && id in s.blocks && forall r :: r in s.blocks[id].recs ==> r.offset < WorkerOf(s, p).end
  {
    var w := WorkerOf(s, p);
    assert GoodWorker(log, s, p);
    assert GoodFlush(log, s, p, t, w.start, w.end, w.tenants[t]);
    SectionRecsFacts(log, t, p, w.start, w.end);
  }

  /** An owner that is releasing holds only committed records. */
  lemma ReleasingIsCommitted(log: Log, s: State, q: Partition, t: Tenant)
    requires Inv(log, s) && Releases(s, q, t)
    ensures WorkerOf(s, q).ids[t] in s.blocks && RecsCommitted(s, s.blocks[WorkerOf(s, q).ids[t]].recs)
  {
    assert GoodWorker(log, s, q);
  }

  /** A live block that holds an uncommitted record was built, and still has its flag. */
  lemma HolderIsFlagged(log: Log, s: State, id: BlockId, r: Rec)
    requires Inv(log, s) && Holds(s, id, r) && Committed(s, r.partition) <= r.offset
    ensures id.Built? && s.blocks[id].flagged && GoodBuilt(log, s, id) && id.seed.partition == r.partition
  {
    assert !s.blocks[id].flagged ==> RecsCommitted(s, s.blocks[id].recs);
    assert id.Built? ==> GoodBuilt(log, s, id);
  }

  lemma StrayStarts(log: Log, s: State, p: Partition, r: Rec)
    requires Inv(log, s) && Enabled(log, s, Commit(p)) && Strands(s, p, r)
    ensures HasStray(Apply(log, s, Commit(p)), r)
  {
    var s' := Apply(log, s, Commit(p));
    var id :| Holds(s, id, r);
    assert GoodWorker(log, s, p);
    HolderIsFlagged(log, s, id, r);
    if Committed(s, p) <= id.seed.start { FirstUnique(log, p, Committed(s, p), id.seed.start, WorkerOf(s, p).start); }
    forall q, t | Releases(s', q, t) ensures WorkerOf(s', q).ids[t] != id {
      if q == p { ReleasedIds(log, s, p, t); } else { ReleasingIsCommitted(log, s, q, t); }
    }
    assert Stray(s', id, r);
  }

  lemma StrayCommit(log: Log, s: State, p: Partition, id: BlockId, r: Rec)
    requires Inv(log, s) && Enabled(log, s, Commit(p)) && Stray(s, id, r)
    ensures Stray(Apply(log, s, Commit(p)), id, r)
  {
    var s' := Apply(log, s, Commit(p));
    var w := WorkerOf(s, p);
    assert GoodWorker(log, s, p);
    forall q, t | Releases(s', q, t) ensures WorkerOf(s', q).ids[t] != id {
      if q == p { ReleasedIds(log, s, p, t); } else { assert Releases(s, q, t); }
    }
    assert Holds(s', id, r);
    if r.offset < Committed(s', r.partition) {
      if r.offset < Committed(s, r.partition) {
        var x :| x != id && Holds(s, x, r);
        assert Holds(s', x, r);
      } else {
        assert GoodBuilt(log, s, id);
        var t := id.seed.tenant;
        assert t in SectionTenants(log, p, w.start, w.end);
        assert GoodFlush(log, s, p, t, w.start, w.end, w.tenants[t]);
        SectionRecsFacts(log, t, p, w.start, w.end);
        assert Holds(s', w.tenants[t].id, r);
      }
    }
  }

  lemma SameReleases(s: State, s': State, id: BlockId, r: Rec)
    requires Stray(s, id, r)
    requires forall p, t :: Releases(s', p, t) ==> Releases(s, p, t) && WorkerOf(s', p).ids[t] == WorkerOf(s, p).ids[t]
    ensures forall p, t :: Releases(s', p, t) ==> WorkerOf(s', p).ids[t] != id
  {
  }

  lemma StrayMerge(log: Log, s: State, inputs: set<BlockId>, k: nat, id: BlockId, r: Rec)
    requires Inv(log, s) && Enabled(log, s, Merge(inputs, k)) && Stray(s, id, r)
    ensures Stray(Apply(log, s, Merge(inputs, k)), id, r)
  {
    var s' := Apply(log, s, Merge(inputs, k));
    SameReleases(s, s', id, r);
    assert Holds(s', id, r);
    if r.offset < Committed(s, r.partition) {
      var x :| x != id && Holds(s, x, r);
      var y := if x in inputs then Merged(k) else x;
      assert y != id && Holds(s', y, r);
    }
  }

  /** Marking meets only blocks of the section at hand, so neither the stray nor the block that was committed. */
  lemma StrayMark(log: Log, s: State, p: Partition, t: Tenant, id: BlockId, r: Rec)
    requires Inv(log, s) && Enabled(log, s, MarkCompacted(p, t)) && Stray(s, id, r)
    ensures Stray(Apply(log, s, MarkCompacted(p, t)), id, r)
  {
    var s' := Apply(log, s, MarkCompacted(p, t));
    assert GoodWorker(log, s, p);
    MarkTarget(log, s, p, t);
    SameReleases(s, s', id, r);
    assert Holds(s', id, r);
    if r.offset < Committed(s, r.partition) {
      var x :| x != id && Holds(s, x, r);
      assert Holds(s', x, r);
    }
  }

  /** The remaining steps touch no live block but for the flag of one being released. */
  lemma StrayQuiet(log: Log, s: State, step: Step, id: BlockId, r: Rec)
    requires Inv(log, s) && Enabled(log, s, step) && Stray(s, id, r)
    requires !step.Commit? && !step.Merge? && !step.MarkCompacted?
    ensures Stray(Apply(log, s, step), id, r)
  {
    var s' := Apply(log, s, step);
    if step.WriteBlock? { WriteReady(log, s, step.p, step.t); }
    SameReleases(s, s', id, r);
    assert Holds(s', id, r);
    if r.offset < Committed(s, r.partition) {
      var x :| x != id && Holds(s, x, r);
      assert Holds(s', x, r);
    }
  }

  lemma StrayStep(log: Log, s: State, step: Step, id: BlockId, r: Rec)
    requires Inv(log, s) && Enabled(log, s, step) && Stray(s, id, r)
    ensures Stray(Apply(log, s, step), id, r)
  {
    match step
    case Commit(p) => StrayCommit(log, s, p, id, r);
    case Merge(inputs, k) => StrayMerge(log, s, inputs, k, id, r);
    case MarkCompacted(p, t) => StrayMark(log, s, p, t, id, r);
    case _ => StrayQuiet(log, s, step, id, r);
  }

  lemma {:induction false} RunStray(log: Log, steps: seq<Step>, r: Rec)
    requires IsRun(log, steps) && LeftBehind(log, steps, r)
    ensures HasStray(Exec(log, steps), r)
  {
    var before, step := steps[..|steps| - 1], steps[|steps| - 1];
    var s := Exec(log, before);
    RunInv(log, before);
    if LeftBehind(log, before, r) {
      RunStray(log, before, r);
      var id :| Stray(s, id, r);
      StrayStep(log, s, step, id, r);
    } else {
      StrayStarts(log, s, step.p, r);
    }
  }

  // ------------------------------------------------------------------- main results

  /** In every run, a committed record is in exactly one live block if and only if no commit left it behind. */
  lemma {:induction false} OnceUnlessLeftBehind(log: Log, steps: seq<Step>, r: Rec)
    requires IsRun(log, steps) && IsCommitted(log, Exec(log, steps), r)
    ensures InOneLiveBlock(Exec(log, steps), r) <==> !LeftBehind(log, steps, r)
  {
    var s := Exec(log, steps);
    RunInv(log, steps);
    assert Covered(s, r);
    var id :| IsLive(s.blocks, id) && r in s.blocks[id].recs;
    assert Holds(s, id, r);
    if LeftBehind(log, steps, r) {
      RunStray(log, steps, r);
      var y :| Stray(s, y, r);
      var x :| x != y && Holds(s, x, r);
    } else {
      RunOne(log, steps, r);
    }
  }

  /** Every read goes at least as far as any earlier attempt of its partition. */
  ghost predicate ReadsMonotone(log: Log, steps: seq<Step>)
    requires IsRun(log, steps)
    decreases |steps|
  {
    |steps| == 0 ||
    (var before, step := steps[..|steps| - 1], steps[|steps| - 1];
     ReadsMonotone(log, before) && (step.Read? ==> Horizon(Exec(log, before), step.p) <= step.end))
  }

  /** No block reaches past what was read of its partition, and every attempt under way has read that far. */
  ghost predicate WithinHorizon(s: State) {
    && (forall id, r :: id in s.blocks && id.Built? && r in s.blocks[id].recs ==> r.offset < Horizon(s, r.partition))
    && (forall p :: WorkerOf(s, p).Flushing? ==> WorkerOf(s, p).end == Horizon(s, p))
  }

  lemma WithinStep(log: Log, s: State, step: Step)
    requires Inv(log, s) && WithinHorizon(s) && Enabled(log, s, step)
    requires step.Read? ==> Horizon(s, step.p) <= step.end
    ensures WithinHorizon(Apply(log, s, step))
  {
    var s' := Apply(log, s, step);
    if step.WriteBlock? {
      WriteReady(log, s, step.p, step.t);
      SectionRecsFacts(log, step.t, step.p, WorkerOf(s, step.p).start, WorkerOf(s, step.p).end);
    }
    forall q | WorkerOf(s', q).Flushing? ensures WorkerOf(s', q).end == Horizon(s', q) {
      assert !(step.Read? && step.p == q) ==> WorkerOf(s, q).Flushing? && WorkerOf(s, q).end == WorkerOf(s', q).end;
    }
  }

  lemma NoneReachesPast(log: Log, s: State, p: Partition, r: Rec)
    requires Inv(log, s) && WithinHorizon(s) && Enabled(log, s, Commit(p))
    ensures !Strands(s, p, r)
  {
    assert GoodWorker(log, s, p);
    forall id | Holds(s, id, r) && r.partition == p ensures r.offset < WorkerOf(s, p).end {
      assert id.Merged? ==> RecsCommitted(s, s.blocks[id].recs);
    }
  }

  lemma {:induction false} MonotoneLeavesNothing(log: Log, steps: seq<Step>, r: Rec)
    requires IsRun(log, steps) && ReadsMonotone(log, steps)
    ensures WithinHorizon(Exec(log, steps)) && !LeftBehind(log, steps, r)
    decreases |steps|
  {
    if |steps| > 0 {
      var before, step := steps[..|steps| - 1], steps[|steps| - 1];
      var s := Exec(log, before);
      MonotoneLeavesNothing(log, before, r);
      RunInv(log, before);
      WithinStep(log, s, step);
      if step.Commit? { NoneReachesPast(log, s, step.p, r); }
    }
  }

  /** If replays read at least as far as earlier attempts, a committed record is in exactly one live block. */
  lemma {:induction false} CommittedExactlyOnce(log: Log, steps: seq<Step>, r: Rec)
    requires IsRun(log, steps) && ReadsMonotone(log, steps) && IsCommitted(log, Exec(log, steps), r)
    ensures InOneLiveBlock(Exec(log, steps), r)
  {
    MonotoneLeavesNothing(log, steps, r);
    OnceUnlessLeftBehind(log, steps, r);
  }
}
