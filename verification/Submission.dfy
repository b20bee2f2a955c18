/**
 Submitting a redaction: the tenant's blocks are split into those outside the window, those held by a
 compaction and those queued for redaction, and a batch is stored that owns the split.
 */
module Submission {
  import opened Options
  import P = SchedulerProtocol
  import S = Scheduler
  import W = RedactionWindow

  type Tenant = P.Tenant
  type JobId = nat

  /** A block's part in a submission. */
  datatype Part = Outside | Deferred | Queued

  function PartOf(m: W.Meta, w: W.Window, busy: map<nat, JobId>): (p: Part)
    ensures p.Deferred? ==> m.id in busy
  {
    if !W.Overlaps(m, w).0 then Outside else if m.id in busy then Deferred else Queued
  }

  /** The blocks that play a part, in order. */
  function Those(metas: seq<W.Meta>, w: W.Window, busy: map<nat, JobId>, part: Part): seq<W.Meta> {
    if |metas| == 0 then []
    else
      var last := metas[|metas| - 1];
      Those(metas[..|metas| - 1], w, busy, part) + (if PartOf(last, w, busy) == part then [last] else [])
  }

  lemma {:induction false} ThoseExact(metas: seq<W.Meta>, w: W.Window, busy: map<nat, JobId>, part: Part)
    ensures forall m :: m in Those(metas, w, busy, part) <==> m in metas && PartOf(m, w, busy) == part
  {
    if |metas| > 0 {
      ThoseExact(metas[..|metas| - 1], w, busy, part);
      assert metas == metas[..|metas| - 1] + [metas[|metas| - 1]];
    }
  }

  lemma {:induction false} ThoseCount(metas: seq<W.Meta>, w: W.Window, busy: map<nat, JobId>, part: Part, m: W.Meta)
    ensures multiset(Those(metas, w, busy, part))[m] == if PartOf(m, w, busy) == part then multiset(metas)[m] else 0
  {
    if |metas| > 0 {
      ThoseCount(metas[..|metas| - 1], w, busy, part, m);
      assert metas == metas[..|metas| - 1] + [metas[|metas| - 1]];
    }
  }

  /** The three parts in the request's own terms: the window, and whether a compaction holds the block. Copies are kept. */
  lemma PartsAreExact(metas: seq<W.Meta>, w: W.Window, busy: map<nat, JobId>, m: W.Meta)
    ensures m in Those(metas, w, busy, Queued) <==> m in metas && W.Overlaps(m, w).0 && m.id !in busy
    ensures m in Those(metas, w, busy, Deferred) <==> m in metas && W.Overlaps(m, w).0 && m.id in busy
    ensures m in Those(metas, w, busy, Outside) <==> m in metas && !W.Overlaps(m, w).0
    ensures W.Overlaps(m, w).0 && m.id !in busy ==> multiset(Those(metas, w, busy, Queued))[m] == multiset(metas)[m]
    ensures !W.Overlaps(m, w).0 ==> multiset(Those(metas, w, busy, Outside))[m] == multiset(metas)[m]
  {
    ThoseExact(metas, w, busy, Queued);
    ThoseExact(metas, w, busy, Deferred);
    ThoseExact(metas, w, busy, Outside);
    ThoseCount(metas, w, busy, Queued, m);
    ThoseCount(metas, w, busy, Outside, m);
  }

  /** Every block of the snapshot plays exactly one part, so a count derived by subtraction is exact. */
  lemma {:induction false} SplitIsExact(metas: seq<W.Meta>, w: W.Window, busy: map<nat, JobId>)
    ensures multiset(metas) == multiset(Those(metas, w, busy, Outside)) + multiset(Those(metas, w, busy, Deferred)) + multiset(Those(metas, w, busy, Queued))
    ensures |metas| == |Those(metas, w, busy, Outside)| + |Those(metas, w, busy, Deferred)| + |Those(metas, w, busy, Queued)|
  {
    var sum := multiset(Those(metas, w, busy, Outside)) + multiset(Those(metas, w, busy, Deferred)) + multiset(Those(metas, w, busy, Queued));
    forall m ensures multiset(metas)[m] == sum[m] {
      ThoseCount(metas, w, busy, Outside, m);
      ThoseCount(metas, w, busy, Deferred, m);
      ThoseCount(metas, w, busy, Queued, m);
    }
    assert multiset(metas) == sum;
    assert |multiset(metas)| == |metas|;
  }

  /** The compaction jobs that hold deferred blocks. */
  function Holders(metas: seq<W.Meta>, w: W.Window, busy: map<nat, JobId>): set<JobId> {
    set m | m in metas && PartOf(m, w, busy) == Deferred :: busy[m.id]
  }

  lemma HoldersOfNone(metas: seq<W.Meta>, w: W.Window, busy: map<nat, JobId>)
    ensures Holders(metas, w, busy) == {} <==> Those(metas, w, busy, Deferred) == []
  {
    ThoseExact(metas, w, busy, Deferred);
    if Those(metas, w, busy, Deferred) != [] {
      var m := Those(metas, w, busy, Deferred)[0];
      assert m in Those(metas, w, busy, Deferred);
      assert busy[m.id] in Holders(metas, w, busy);
    }
  }

  /** Blocks whose range could not be judged. */
  function OnTrust(metas: seq<W.Meta>, w: W.Window): nat {
    if |metas| == 0 then 0
    else OnTrust(metas[..|metas| - 1], w) + if W.Overlaps(metas[|metas| - 1], w).1 then 1 else 0
  }

  // ----------------------------------------------------------------- the loop

  /** SubmitRedaction's pass over the snapshot. */
  method Select(metas: seq<W.Meta>, w: W.Window, busy: map<nat, JobId>)
    returns (filtered: seq<W.Meta>, holders: set<JobId>, outside: nat, trusted: nat)
    ensures filtered == Those(metas, w, busy, Queued)
    ensures holders == Holders(metas, w, busy)
    ensures outside == |Those(metas, w, busy, Outside)|
    ensures trusted == OnTrust(filtered, w)
  {
    filtered, holders, outside, trusted := [], {}, 0, 0;
    var n := 0;
    while n < |metas|
      invariant 0 <= n <= |metas|
      invariant filtered == Those(metas[..n], w, busy, Queued)
      invariant holders == Holders(metas[..n], w, busy)
      invariant outside == |Those(metas[..n], w, busy, Outside)|
      invariant trusted == OnTrust(filtered, w)
    {
      var m := metas[n];
      HoldersGrow(metas, n, w, busy);
      assert metas[..n + 1][..n] == metas[..n];
      n := n + 1;
      var (overlaps, indeterminate) := W.Overlaps(m, w);
      if !overlaps {
        outside := outside + 1;
        continue;
      }
      if m.id in busy {
        holders := holders + {busy[m.id]};
        continue;
      }
      if indeterminate { trusted := trusted + 1; }
      filtered := filtered + [m];
      assert filtered[..|filtered| - 1] + [m] == filtered;
    }
    assert metas[..n] == metas;
  }

  lemma HoldersGrow(metas: seq<W.Meta>, n: nat, w: W.Window, busy: map<nat, JobId>)
    requires n < |metas|
    ensures Holders(metas[..n + 1], w, busy) ==
            Holders(metas[..n], w, busy) + (if PartOf(metas[n], w, busy) == Deferred then {busy[metas[n].id]} else {})
  {
    assert metas[..n + 1] == metas[..n] + [metas[n]];
  }

  // --------------------------------------------------------------- submission

  datatype Error = Invalid(reason: W.Error) | CompactionDisabled | AlreadyExists | NoBlocks | AllBusy | NothingOverlaps | Internal

  /** What a stored batch carries besides its state in the work store. */
  datatype Detail = Detail(request: W.Request, skipped: set<JobId>)

  /** The block a pending job is for. */
  datatype Target = Target(id: nat, batch: nat, block: nat)

  datatype Result = Created(jobs: nat, skippedBlocks: nat) | Refused(error: Error)

  /** What the scheduler knows of the tenant when the call comes in. */
  datatype Scene = Scene(compactionDisabled: bool, metas: seq<W.Meta>, busy: map<nat, JobId>, now: nat, rescanDelay: nat)

  predicate IsDryRun(r: W.Request) { r.mode == W.DryRun }

  /** The refusals, in the order the code meets them; None when the batch is stored. */
  function Refusal(taken: bool, r: W.Request, scene: Scene): Option<Error> {
    var queue := Those(scene.metas, r.window, scene.busy, Queued);
    var deferred := Those(scene.metas, r.window, scene.busy, Deferred);
    if W.ValidateRequest(r).Rejected? then Some(Invalid(W.ValidateRequest(r).error))
    else if scene.compactionDisabled then Some(CompactionDisabled)
    else if taken then Some(AlreadyExists)
    else if scene.metas == [] then Some(NoBlocks)
    else if queue == [] && deferred != [] && IsDryRun(r) then Some(AllBusy)
    else if queue == [] && deferred == [] then Some(NothingOverlaps)
    else None
  }

  /** An apply-mode batch remembers the compactions that hold its blocks, and a rescan for them. */
  predicate Defers(r: W.Request, scene: Scene) {
    Holders(scene.metas, r.window, scene.busy) != {} && !IsDryRun(r)
  }

  function BatchFor(id: nat, r: W.Request, scene: Scene): P.Batch {
    P.Batch(id, IsDryRun(r), if Defers(r, scene) then scene.now + scene.rescanDelay else 0, 0, 0)
  }

  function DetailFor(r: W.Request, scene: Scene): Detail {
    Detail(r, if Defers(r, scene) then Holders(scene.metas, r.window, scene.busy) else {})
  }

  function TargetsFor(base: nat, batch: nat, queue: seq<W.Meta>): seq<Target> {
    seq(|queue|, i requires 0 <= i < |queue| => Target(base + i, batch, queue[i].id))
  }

  lemma NewIsQueueable(q: S.Queue, shard: map<nat, P.Job>, t: Tenant, from: nat, jobs: seq<P.Job>)
    requires S.Below(q, shard, from) && jobs == P.NewJobs(t, from, |jobs|)
    ensures S.AllQueueable(q, shard, jobs)
  {
  }

  lemma NewIsFresh(t: Tenant, from: nat, jobs: seq<P.Job>, known: set<nat>)
    requires jobs == P.NewJobs(t, from, |jobs|) && forall id :: id in known ==> id < from
    ensures forall u :: S.Fresh(jobs, |jobs|, u, known) == if u == t then jobs else []
  {
    forall u ensures S.Fresh(jobs, |jobs|, u, known) == if u == t then jobs else [] {
      S.FreshAll(jobs, |jobs|, t, u, known);
      assert jobs[..|jobs|] == jobs;
    }
  }

  lemma TargetsArePending(base: nat, batch: nat, t: Tenant, queue: seq<W.Meta>)
    ensures var those, jobs := TargetsFor(base, batch, queue), P.NewJobs(t, base, |queue|);
            forall i :: 0 <= i < |those| ==> those[i].batch == batch && P.Job(those[i].id, t, P.Redaction) in jobs
  {
    var those, jobs := TargetsFor(base, batch, queue), P.NewJobs(t, base, |queue|);
    forall i | 0 <= i < |those| ensures those[i].batch == batch && P.Job(those[i].id, t, P.Redaction) in jobs {
      assert jobs[i] == P.Job(base + i, t, P.Redaction);
    }
  }

  class Submitter {
    const work: S.Work
    var details: map<Tenant, Detail>
    var targets: seq<Target>
    var nextId: nat

    /** Fresh IDs have not been used. */
    ghost predicate Valid()
      reads this, work
    {
      work.Valid() && S.Below(work.queue, work.shard, nextId)
    }

    constructor (work: S.Work, nextId: nat)
      requires work.Valid() && S.Below(work.queue, work.shard, nextId)
      ensures Valid() && this.work == work && details == map[] && targets == []
    {
      this.work, details, targets, this.nextId := work, map[], [], nextId;
    }

    method MakeJobs(t: Tenant, batch: nat, metas: seq<W.Meta>) returns (jobs: seq<P.Job>, those: seq<Target>)
      modifies `nextId
      ensures jobs == P.NewJobs(t, old(nextId), |metas|) && those == TargetsFor(old(nextId), batch, metas)
      ensures nextId == old(nextId) + |metas|
    {
      jobs, those := [], [];
      var i := 0;
      while i < |metas|
        invariant 0 <= i <= |metas| && nextId == old(nextId) + i
        invariant jobs == P.NewJobs(t, old(nextId), i)
        invariant those == TargetsFor(old(nextId), batch, metas[..i])
      {
        jobs := jobs + [P.Job(nextId, t, P.Redaction)];
        those := those + [Target(nextId, batch, metas[i].id)];
        nextId := nextId + 1;
        i := i + 1;
      }
      assert metas[..i] == metas;
    }

    /** AddPendingJobs with jobs of fresh IDs: the tenant's queue gains them all, in order, and no other changes. */
    method Enqueue(t: Tenant, from: nat, jobs: seq<P.Job>)
      requires work.Valid() && S.Below(work.queue, work.shard, from) && from + |jobs| <= nextId
      requires jobs == P.NewJobs(t, from, |jobs|)
      modifies work`queue, work`shard
      ensures Valid()
      ensures forall u :: work.PendingOf(u) == old(work.PendingOf(u)) + (if u == t then jobs else [])
    {
      NewIsQueueable(work.queue, work.shard, t, from, jobs);
      NewIsFresh(t, from, jobs, work.shard.Keys);
      BelowMore(work.queue, work.shard, from, nextId);
      work.AddPendingJobs(jobs);
    }

    /** The second half: the batch is stored and its jobs are added; if they are not accepted, it is taken back. */
    method StoreBatch(t: Tenant, r: W.Request, scene: Scene, filtered: seq<W.Meta>, holders: set<JobId>, accepts: bool)
      requires Valid() && t !in work.batches && nextId > 0 && S.Below(work.queue, work.shard, nextId - 1)
      requires holders == Holders(scene.metas, r.window, scene.busy)
      modifies this, work`batches, work`queue, work`shard
      ensures Valid()
      ensures !accepts ==>
                && work.batches == old(work.batches) && details == old(details) && targets == old(targets)
                && forall u :: work.PendingOf(u) == old(work.PendingOf(u))
      ensures accepts ==>
                && work.batches == old(work.batches)[t := BatchFor(old(nextId) - 1, r, scene)]
                && details == old(details)[t := DetailFor(r, scene)]
                && targets == old(targets) + TargetsFor(old(nextId), old(nextId) - 1, filtered)
                && forall u :: work.PendingOf(u) == old(work.PendingOf(u)) +
                     (if u == t then P.NewJobs(t, old(nextId), |filtered|) else [])
    {
      var batchId, from := nextId - 1, nextId;
      var jobs, those := MakeJobs(t, batchId, filtered);
      var rescanAfter, skipped := 0, {};
      if holders != {} && !IsDryRun(r) {
        skipped, rescanAfter := holders, scene.now + scene.rescanDelay;
      }
      var batch := P.Batch(batchId, IsDryRun(r), rescanAfter, 0, 0);
      BelowMore(work.queue, work.shard, from, nextId);
      if !accepts {
        TakenBack(work.batches, t, batch);
        work.batches := work.batches[t := batch];
        work.batches := work.batches - {t};
        return;
      }
      work.batches := work.batches[t := batch];
      details := details[t := Detail(r, skipped)];
      targets := targets + those;
      Enqueue(t, from, jobs);
    }

    /** `accepts` is AddPendingJobs' success; on its failure the batch is taken back. */
    method SubmitRedaction(t: Tenant, r: W.Request, scene: Scene, accepts: bool) returns (result: Result)
      requires Valid()
      modifies this, work`batches, work`queue, work`shard
      ensures Valid()
      ensures Refusal(t in old(work.batches), r, scene).Some? ==> result == Refused(Refusal(t in old(work.batches), r, scene).value)
      ensures Refusal(t in old(work.batches), r, scene).None? && !accepts ==> result == Refused(Internal)
      ensures result.Refused? ==>
                && work.batches == old(work.batches) && details == old(details) && targets == old(targets)
                && forall u :: work.PendingOf(u) == old(work.PendingOf(u))
      ensures Refusal(t in old(work.batches), r, scene).None? && accepts ==>
                result == Created(|Those(scene.metas, r.window, scene.busy, Queued)|, |Those(scene.metas, r.window, scene.busy, Deferred)|)
      ensures result.Created? ==>
                && work.batches == old(work.batches)[t := BatchFor(old(nextId), r, scene)]
                && details == old(details)[t := DetailFor(r, scene)]
                && targets == old(targets) + TargetsFor(old(nextId) + 1, old(nextId), Those(scene.metas, r.window, scene.busy, Queued))
                && forall u :: work.PendingOf(u) == old(work.PendingOf(u)) +
                     (if u == t then P.NewJobs(t, old(nextId) + 1, |Those(scene.metas, r.window, scene.busy, Queued)|) else [])
      ensures result.Created? ==> |targets| >= |old(targets)| && forall b {:trigger HasJob(targets[|old(targets)|..], b)} ::
                HasJob(targets[|old(targets)|..], b) <==> InWindowAndFree(scene.metas, r.window, scene.busy, b)
      ensures result.Created? ==> t in work.batches && |targets| >= |old(targets)| && forall i :: |old(targets)| <= i < |targets| ==>
                targets[i].batch == work.batches[t].id && P.Job(targets[i].id, t, P.Redaction) in work.PendingOf(t)
    {
      BelowMore(work.queue, work.shard, nextId, nextId + 1);
      var valid := W.ValidateRequest(r);
      if valid.Rejected? { return Refused(Invalid(valid.error)); }
      if scene.compactionDisabled { return Refused(CompactionDisabled); }
      if t in work.batches { return Refused(AlreadyExists); }
      nextId := nextId + 1;
      if |scene.metas| == 0 { return Refused(NoBlocks); }

      var filtered, holders, busySkipped := Split(r.window, scene);
      if |filtered| == 0 && holders != {} && IsDryRun(r) { return Refused(AllBusy); }
      if |filtered| == 0 && holders == {} { return Refused(NothingOverlaps); }

      forall b ensures HasJob(TargetsFor(nextId, nextId - 1, filtered), b) <==> InWindowAndFree(scene.metas, r.window, scene.busy, b) {
        JobsAreForFreeBlocks(nextId, nextId - 1, scene.metas, r.window, scene.busy, b);
      }
      StoreBatch(t, r, scene, filtered, holders, accepts);
      assert accepts ==> targets[|old(targets)|..] == TargetsFor(old(nextId) + 1, old(nextId), filtered);
      TargetsArePending(old(nextId) + 1, old(nextId), t, filtered);
      return if accepts then Created(|filtered|, busySkipped) else Refused(Internal);
    }
  }

  lemma BelowMore(q: S.Queue, shard: map<nat, P.Job>, n: nat, m: nat)
    requires S.Below(q, shard, n) && n <= m
    ensures S.Below(q, shard, m)
  {
  }

  lemma TakenBack(batches: P.Batches, t: Tenant, b: P.Batch)
    requires t !in batches
    ensures batches[t := b] - {t} == batches
  {
  }

  /** The selection and the count of busy blocks, derived as the code derives it. */
  method Split(w: W.Window, scene: Scene) returns (filtered: seq<W.Meta>, holders: set<JobId>, busySkipped: nat)
    ensures filtered == Those(scene.metas, w, scene.busy, Queued)
    ensures holders == Holders(scene.metas, w, scene.busy)
    ensures holders == {} <==> Those(scene.metas, w, scene.busy, Deferred) == []
    ensures busySkipped == |Those(scene.metas, w, scene.busy, Deferred)|
  {
    var outside, trusted;
    filtered, holders, outside, trusted := Select(scene.metas, w, scene.busy);
    SplitIsExact(scene.metas, w, scene.busy);
    HoldersOfNone(scene.metas, w, scene.busy);
    busySkipped := |scene.metas| - |filtered| - outside;
  }

  // ------------------------------------------------------------- what it means

  /** Some block reaches into the window, and no compaction holds it. */
  predicate SomeFree(metas: seq<W.Meta>, w: W.Window, busy: map<nat, JobId>) {
    exists m :: m in metas && W.Overlaps(m, w).0 && m.id !in busy
  }

  /** Some block reaches into the window, and a compaction holds it. */
  predicate SomeHeld(metas: seq<W.Meta>, w: W.Window, busy: map<nat, JobId>) {
    exists m :: m in metas && W.Overlaps(m, w).0 && m.id in busy
  }

  lemma PartsAreSome(metas: seq<W.Meta>, w: W.Window, busy: map<nat, JobId>)
    ensures Those(metas, w, busy, Queued) != [] <==> SomeFree(metas, w, busy)
    ensures Those(metas, w, busy, Deferred) != [] <==> SomeHeld(metas, w, busy)
  {
    var queue, held := Those(metas, w, busy, Queued), Those(metas, w, busy, Deferred);
    forall m ensures (m in queue <==> m in metas && W.Overlaps(m, w).0 && m.id !in busy)
                  && (m in held <==> m in metas && W.Overlaps(m, w).0 && m.id in busy) {
      PartsAreExact(metas, w, busy, m);
    }
    assert queue != [] ==> queue[0] in queue;
    assert held != [] ==> held[0] in held;
  }

  /**
   A stored batch will scan something: a free block of the window, or it is an apply-mode batch armed to
   follow the compactions that hold the blocks of the window. A dry run arms nothing.
   */
  lemma StoredBatchScansSomething(taken: bool, r: W.Request, scene: Scene, id: nat)
    requires Refusal(taken, r, scene).None? && scene.rescanDelay > 0
    ensures var b := BatchFor(id, r, scene);
            && (SomeFree(scene.metas, r.window, scene.busy) || (r.mode == W.Apply && b.rescanAfter > 0))
            && (b.rescanAfter > 0 <==> r.mode == W.Apply && SomeHeld(scene.metas, r.window, scene.busy))
            && (b.rescanAfter > 0 ==> b.rescanAfter == scene.now + scene.rescanDelay)
            && (b.dryRun <==> r.mode == W.DryRun) && b.quiesceUntil == 0
            && (DetailFor(r, scene).skipped != {} <==> b.rescanAfter > 0) && DetailFor(r, scene).request == r
  {
    HoldersOfNone(scene.metas, r.window, scene.busy);
    PartsAreSome(scene.metas, r.window, scene.busy);
  }

  /** The recorded compactions of an apply-mode batch are exactly those that hold an in-window block. */
  lemma DeferredBlocksAreFollowed(r: W.Request, scene: Scene, j: JobId)
    requires !IsDryRun(r)
    ensures j in DetailFor(r, scene).skipped <==>
            exists m :: m in scene.metas && W.Overlaps(m, r.window).0 && m.id in scene.busy && scene.busy[m.id] == j
  {
    if m :| m in scene.metas && W.Overlaps(m, r.window).0 && m.id in scene.busy && scene.busy[m.id] == j {
      assert PartOf(m, r.window, scene.busy) == Deferred;
    }
  }

  /** A submission is refused exactly if it is invalid, not possible now, or nothing would ever be scanned for it. */
  lemma EmptySelectionIsRefused(taken: bool, r: W.Request, scene: Scene)
    ensures Refusal(taken, r, scene).None? <==>
            && W.ValidateRequest(r).Accepted? && !scene.compactionDisabled && !taken
            && (SomeFree(scene.metas, r.window, scene.busy)
                || (r.mode == W.Apply && SomeHeld(scene.metas, r.window, scene.busy)))
    ensures Refusal(taken, r, scene) == Some(NothingOverlaps) ==> forall m :: m in scene.metas ==> !W.Overlaps(m, r.window).0
    ensures Refusal(taken, r, scene) == Some(AllBusy) ==> r.mode == W.DryRun && SomeHeld(scene.metas, r.window, scene.busy)
  {
    PartsAreSome(scene.metas, r.window, scene.busy);
  }

  /** A block left out of the submission holds no trace that a scan of the window would find. */
  lemma LeftOutHoldsNothing(r: W.Request, scene: Scene, b: W.Block, t: W.Trace)
    requires W.ValidateRequest(r).Accepted? && r.window.Representable() && W.Recorded(b) && t in b.traces
    requires b.meta in Those(scene.metas, r.window, scene.busy, Outside)
    ensures !W.Scanned(t, r.window.FetchBounds())
  {
    PartsAreExact(scene.metas, r.window, scene.busy, b.meta);
    W.AcceptedIsHonoured(r);
    W.UnselectedHoldsNothing(b, r.window, W.Second, t);
  }

  /**
   No trace that a scan would find is overlooked: its block gets a job, or a compaction holds the block,
   and then an apply-mode batch remembers that compaction.
   */
  lemma FindableTracesAreAttended(r: W.Request, scene: Scene, b: W.Block, t: W.Trace)
    requires W.ValidateRequest(r).Accepted? && r.window.Representable() && W.Recorded(b) && t in b.traces
    requires b.meta in scene.metas && W.Scanned(t, r.window.FetchBounds())
    ensures if b.meta.id !in scene.busy then InWindowAndFree(scene.metas, r.window, scene.busy, b.meta.id)
            else r.mode == W.Apply ==> scene.busy[b.meta.id] in DetailFor(r, scene).skipped
  {
    PartsAreExact(scene.metas, r.window, scene.busy, b.meta);
    if !W.Overlaps(b.meta, r.window).0 {
      LeftOutHoldsNothing(r, scene, b, t);
    } else if b.meta.id in scene.busy && r.mode == W.Apply {
      DeferredBlocksAreFollowed(r, scene, scene.busy[b.meta.id]);
    }
  }

  /** The protocol's step for a submission that is not refused. */
  function SubmitStep(t: Tenant, r: W.Request, scene: Scene): P.Step {
    P.Submit(t, IsDryRun(r), |Those(scene.metas, r.window, scene.busy, Queued)|, Defers(r, scene))
  }

  lemma QueuesOrDefers(taken: bool, r: W.Request, scene: Scene)
    requires Refusal(taken, r, scene).None?
    ensures |Those(scene.metas, r.window, scene.busy, Queued)| > 0 || Defers(r, scene)
  {
    HoldersOfNone(scene.metas, r.window, scene.busy);
  }

  /** What SubmitRedaction makes of the work store is an enabled Submit step of the protocol. */
  lemma SubmissionIsAStep(cfg: P.Config, s: P.State, t: Tenant, r: W.Request, scene: Scene)
    requires Refusal(t in s.batches, r, scene).None? && scene.rescanDelay == cfg.rescanDelay > 0 && scene.now == s.now
    ensures P.Enabled(s, SubmitStep(t, r, scene))
    ensures var s' := P.Apply(cfg, s, SubmitStep(t, r, scene));
            && s'.batches == s.batches[t := BatchFor(s.nextId, r, scene)]
            && forall u :: P.Pending(s'.jobs, u) == P.Pending(s.jobs, u) +
                 (if u == t then P.NewJobs(t, s.nextId + 1, |Those(scene.metas, r.window, scene.busy, Queued)|) else [])
  {
    QueuesOrDefers(t in s.batches, r, scene);
  }

  predicate DistinctIds(metas: seq<W.Meta>) {
    forall i, k :: 0 <= i < k < |metas| ==> metas[i].id != metas[k].id
  }

  lemma {:induction false} QueueKeepsDistinct(metas: seq<W.Meta>, w: W.Window, busy: map<nat, JobId>)
    requires DistinctIds(metas)
    ensures DistinctIds(Those(metas, w, busy, Queued))
  {
    if |metas| > 0 {
      var before := metas[..|metas| - 1];
      QueueKeepsDistinct(before, w, busy);
      ThoseExact(before, w, busy, Queued);
      var queue := Those(before, w, busy, Queued);
      forall i | 0 <= i < |queue| ensures queue[i].id != metas[|metas| - 1].id {
        assert queue[i] in queue;
        var k :| 0 <= k < |before| && before[k] == queue[i];
      }
    }
  }

  predicate HasJob(jobs: seq<Target>, block: nat) {
    exists i :: 0 <= i < |jobs| && jobs[i].block == block
  }

  /** A block of this ID reaches into the window, and no compaction holds it. */
  predicate InWindowAndFree(metas: seq<W.Meta>, w: W.Window, busy: map<nat, JobId>, block: nat) {
    block !in busy && exists m :: m in metas && W.Overlaps(m, w).0 && m.id == block
  }

  lemma JobsAreForFreeBlocks(base: nat, batch: nat, metas: seq<W.Meta>, w: W.Window, busy: map<nat, JobId>, block: nat)
    ensures HasJob(TargetsFor(base, batch, Those(metas, w, busy, Queued)), block) <==> InWindowAndFree(metas, w, busy, block)
  {
    var queue := Those(metas, w, busy, Queued);
    var jobs := TargetsFor(base, batch, queue);
    ThoseExact(metas, w, busy, Queued);
    if HasJob(jobs, block) {
      var i :| 0 <= i < |jobs| && jobs[i].block == block;
      assert queue[i] in queue;
    }
    if InWindowAndFree(metas, w, busy, block) {
      var m :| m in metas && W.Overlaps(m, w).0 && m.id == block;
      assert m in queue;
      var i :| 0 <= i < |queue| && queue[i] == m;
      assert jobs[i].block == block;
    }
  }

  /** Each block of the window that no compaction holds gets exactly one job, and no job is for another block. */
  lemma OneJobPerQueuedBlock(base: nat, batch: nat, metas: seq<W.Meta>, w: W.Window, busy: map<nat, JobId>)
    requires DistinctIds(metas)
    ensures var jobs := TargetsFor(base, batch, Those(metas, w, busy, Queued));
            && (forall i, k :: 0 <= i < k < |jobs| ==> jobs[i].block != jobs[k].block && jobs[i].id != jobs[k].id)
            && (forall b :: HasJob(jobs, b) <==> InWindowAndFree(metas, w, busy, b))
  {
    QueueKeepsDistinct(metas, w, busy);
    forall b ensures HasJob(TargetsFor(base, batch, Those(metas, w, busy, Queued)), b) <==> InWindowAndFree(metas, w, busy, b) {
      JobsAreForFreeBlocks(base, batch, metas, w, busy, b);
    }
  }
}
