/**
 What every step of the block-builder protocol keeps: how blocks, committed offsets and the owners'
 progress fit together.
 */
module BuilderInvariant {
  import opened BuilderProtocol
  import opened Options

  ghost predicate GoodBuilt(log: Log, s: State, id: BlockId)
    requires id in s.blocks && id.Built?
  {
    var b := s.blocks[id];
    && id.n >= 1
    && b.recs != {}
    && (forall r :: r in b.recs ==>
          r.partition == id.seed.partition && id.seed.start <= r.offset && log(r.partition, r.offset) == Some(id.seed.tenant))
    && (id.seed.start < Committed(s, id.seed.partition) ||
        (IsFirst(log, id.seed.partition, Committed(s, id.seed.partition), id.seed.start) && b.status != Cleared))
    && (id.n > 1 ==> Built(id.seed, id.n - 1) in s.blocks)
  }

  ghost predicate RecsCommitted(s: State, recs: set<Rec>) {
    forall r :: r in recs ==> r.offset < Committed(s, r.partition)
  }

  ghost predicate BlocksGood(log: Log, s: State) {
    && (forall id {:trigger GoodBuilt(log, s, id)} :: id in s.blocks && id.Built? ==> GoodBuilt(log, s, id))
    && (forall id :: id in s.blocks && id.Merged? ==> !s.blocks[id].flagged)
    && (forall id {:trigger s.blocks[id].recs} ::
          id in s.blocks && !s.blocks[id].flagged ==> RecsCommitted(s, s.blocks[id].recs))
  }

  /** At most one block of a seeded sequence is live. */
  ghost predicate OneLivePerSeed(s: State) {
    forall a, b {:trigger IsLive(s.blocks, a), IsLive(s.blocks, b)} ::
      IsLive(s.blocks, a) && IsLive(s.blocks, b) && a.Built? && b.Built? && a.seed == b.seed ==> a == b
  }

  ghost predicate Covered(s: State, r: Rec) {
    exists id :: IsLive(s.blocks, id) && r in s.blocks[id].recs
  }

  ghost predicate CommittedCovered(log: Log, s: State) {
    forall r: Rec :: r.offset < Committed(s, r.partition) && log(r.partition, r.offset).Some? ==> Covered(s, r)
  }

  ghost predicate GoodFlush(log: Log, s: State, p: Partition, t: Tenant, start: Offset, end: Offset, f: TenantFlush) {
    var seed := Seed(t, p, start);
    match f
    case Waiting => true
    case Marking(todo, next) =>
      && next.Built? && next.seed == seed && next.n >= 1
      && next !in s.blocks
      && (next.n > 1 ==> Built(seed, next.n - 1) in s.blocks)
      && (forall id :: id in todo <==> (id.Built? && id.seed == seed && IsLive(s.blocks, id)))
      && |todo| <= 1
    case Written(id) =>
      && id.Built? && id.seed == seed
      && id in s.blocks
      && s.blocks[id] == Block(Live, true, SectionRecs(log, t, p, start, end))
  }

  ghost predicate GoodWorker(log: Log, s: State, p: Partition) {
    match WorkerOf(s, p)
    case Idle => true
    case Flushing(start, end, tenants) =>
      && IsFirst(log, p, Committed(s, p), start)
      && start < end
      && tenants.Keys == SectionTenants(log, p, start, end)
      && forall t :: t in tenants ==> GoodFlush(log, s, p, t, start, end, tenants[t])
    case Releasing(ids) =>
      forall t :: t in ids ==>
        (ids[t].Built? && ids[t].seed.partition == p && ids[t].seed.tenant == t
         && ids[t] in s.blocks && RecsCommitted(s, s.blocks[ids[t]].recs))
  }

  ghost predicate Inv(log: Log, s: State) {
    && BlocksGood(log, s)
    && OneLivePerSeed(s)
    && CommittedCovered(log, s)
    && forall p :: GoodWorker(log, s, p)
  }

  // ------------------------------------------------- preservation, step by step

  lemma SectionRecsFacts(log: Log, t: Tenant, p: Partition, start: Offset, end: Offset)
    requires t in SectionTenants(log, p, start, end)
    ensures SectionRecs(log, t, p, start, end) != {}
    ensures forall r :: r in SectionRecs(log, t, p, start, end) <==>
              r.partition == p && start <= r.offset < end && log(p, r.offset) == Some(t)
  {
    var o :| start <= o < end && log(p, o).Some? && log(p, o).value == t;
    assert Rec(p, o) in SectionRecs(log, t, p, start, end);
  }

  /** A block of a section that starts at or after the committed offset still carries its flag. */
  lemma UncommittedIsFlagged(log: Log, s: State, id: BlockId)
    requires BlocksGood(log, s)
    requires id in s.blocks && id.Built? && Committed(s, id.seed.partition) <= id.seed.start
    ensures s.blocks[id].flagged
  {
    assert GoodBuilt(log, s, id);
    var r :| r in s.blocks[id].recs;
  }

  lemma ReadKeeps(log: Log, s: State, p: Partition, start: Offset, end: Offset)
    requires Inv(log, s) && Enabled(log, s, Read(p, start, end))
    ensures Inv(log, Apply(log, s, Read(p, start, end)))
  {
    var s' := Apply(log, s, Read(p, start, end));
    SameBlocksKeep(log, s, s');
    forall q ensures GoodWorker(log, s', q) {
      if q != p { assert WorkerOf(s', q) == WorkerOf(s, q); SameWorkerKeeps(log, s, s', q); }
    }
  }

  /** Block facts depend only on the blocks and the committed offsets. */
  lemma SameBlocksKeep(log: Log, s: State, s': State)
    requires Inv(log, s)
    requires s'.blocks == s.blocks && s'.committed == s.committed
    ensures BlocksGood(log, s') && OneLivePerSeed(s') && CommittedCovered(log, s')
  {
    forall id | id in s'.blocks && id.Built? ensures GoodBuilt(log, s', id) {
      assert GoodBuilt(log, s, id);
    }
    forall r: Rec | r.offset < Committed(s', r.partition) && log(r.partition, r.offset).Some?
      ensures Covered(s', r)
    {
      assert Covered(s, r);
    }
    forall id | id in s'.blocks && !s'.blocks[id].flagged ensures RecsCommitted(s', s'.blocks[id].recs) {
      assert RecsCommitted(s, s.blocks[id].recs);
    }
  }

  lemma SameWorkerKeeps(log: Log, s: State, s': State, q: Partition)
    requires Inv(log, s)
    requires s'.blocks == s.blocks && s'.committed == s.committed
    requires WorkerOf(s', q) == WorkerOf(s, q)
    ensures GoodWorker(log, s', q)
  {
    assert GoodWorker(log, s, q);
    if WorkerOf(s, q).Flushing? {
      var w := WorkerOf(s, q);
      forall t | t in w.tenants ensures GoodFlush(log, s', q, t, w.start, w.end, w.tenants[t]) {
        assert GoodFlush(log, s, q, t, w.start, w.end, w.tenants[t]);
      }
    }
    if WorkerOf(s, q).Releasing? {
      var ids := WorkerOf(s, q).ids;
      forall t | t in ids ensures RecsCommitted(s', s'.blocks[ids[t]].recs) {
        assert RecsCommitted(s, s.blocks[ids[t]].recs);
      }
    }
  }

  lemma IdleKeeps(log: Log, s: State, p: Partition)
    requires Inv(log, s)
    ensures Inv(log, s.(workers := s.workers[p := Idle]))
  {
    var s' := s.(workers := s.workers[p := Idle]);
    SameBlocksKeep(log, s, s');
    forall q ensures GoodWorker(log, s', q) {
      if q != p { SameWorkerKeeps(log, s, s', q); }
    }
  }

  /** The used IDs of a sequence are closed downward. */
  lemma {:induction false} DownwardClosed(log: Log, s: State, seed: Seed, i: nat, j: nat)
    requires BlocksGood(log, s)
    requires 1 <= i <= j && Built(seed, j) in s.blocks
    ensures Built(seed, i) in s.blocks
    decreases j
  {
    assert GoodBuilt(log, s, Built(seed, j));
    if i < j { DownwardClosed(log, s, seed, i, j - 1); }
  }

  /** In a section still to be committed, an ID that was ever used is not free. */
  lemma UncommittedUsedNotFree(log: Log, s: State, id: BlockId)
    requires BlocksGood(log, s)
    requires id in s.blocks && id.Built? && Committed(s, id.seed.partition) <= id.seed.start
    ensures !Free(s.blocks, id)
  {
    assert GoodBuilt(log, s, id);
  }

  lemma PairOf<T>(ids: seq<T>)
    requires |ids| > 1 && forall i, j :: 0 <= i < j < |ids| ==> ids[i] != ids[j]
    ensures exists x, y :: x in ids && y in ids && x != y
  {
    assert ids[0] in ids && ids[1] in ids;
  }

  lemma {:induction false} LiveIdsDistinct(blocks: Blocks, seed: Seed, k: nat)
    ensures forall i, j :: 0 <= i < j < |LiveIds(blocks, seed, k)| ==> LiveIds(blocks, seed, k)[i] != LiveIds(blocks, seed, k)[j]
  {
    if k > 0 { LiveIdsDistinct(blocks, seed, k - 1); }
  }

  lemma DetermineGood(log: Log, s: State, p: Partition, t: Tenant, start: Offset, end: Offset, todo: seq<BlockId>, next: BlockId)
    requires BlocksGood(log, s) && OneLivePerSeed(s)
    requires Committed(s, p) <= start
    requires Determined(s.blocks, Seed(t, p, start), todo, next)
    ensures GoodFlush(log, s, p, t, start, end, Marking(todo, next))
  {
    var seed := Seed(t, p, start);
    if next in s.blocks { UncommittedUsedNotFree(log, s, next); }
    if next.n > 1 { assert !Free(s.blocks, Built(seed, next.n - 1)); }
    forall id: BlockId | id.Built? && id.seed == seed && IsLive(s.blocks, id)
      ensures id in todo
    {
      assert GoodBuilt(log, s, id);
      assert id == Built(seed, id.n);
      if next.n <= id.n { DownwardClosed(log, s, seed, next.n, id.n); }
    }
    LiveIdsDistinct(s.blocks, seed, next.n - 1);
    if |todo| > 1 { PairOf(todo); }
  }

  lemma SetTenantKeeps(log: Log, s: State, p: Partition, t: Tenant, f: TenantFlush)
    requires Inv(log, s) && InFlush(s, p, t)
    requires GoodFlush(log, s, p, t, WorkerOf(s, p).start, WorkerOf(s, p).end, f)
    ensures Inv(log, SetTenant(s, p, t, f))
  {
    var s' := SetTenant(s, p, t, f);
    var w := WorkerOf(s, p);
    SameBlocksKeep(log, s, s');
    assert GoodWorker(log, s, p);
    forall u | u in w.tenants
      ensures GoodFlush(log, s', p, u, w.start, w.end, WorkerOf(s', p).tenants[u])
    {
      assert GoodFlush(log, s, p, u, w.start, w.end, w.tenants[u]);
    }
    assert WorkerOf(s', p).tenants.Keys == w.tenants.Keys;
    forall q ensures GoodWorker(log, s', q) {
      if q != p { SameWorkerKeeps(log, s, s', q); }
    }
  }

  lemma DetermineKeeps(log: Log, s: State, p: Partition, t: Tenant, todo: seq<BlockId>, next: BlockId)
    requires Inv(log, s) && Enabled(log, s, Determine(p, t, todo, next))
    ensures Inv(log, Apply(log, s, Determine(p, t, todo, next)))
  {
    var w := WorkerOf(s, p);
    assert GoodWorker(log, s, p);
    DetermineGood(log, s, p, t, w.start, w.end, todo, next);
    SetTenantKeeps(log, s, p, t, Marking(todo, next));
  }

  /** The block about to be marked by a replay is live, flagged, and holds nothing committed. */
  lemma MarkTarget(log: Log, s: State, p: Partition, t: Tenant)
    requires Inv(log, s) && Enabled(log, s, MarkCompacted(p, t))
    ensures var id := WorkerOf(s, p).tenants[t].todo[0];
            && id.Built? && id.seed == Seed(t, p, WorkerOf(s, p).start)
            && s.blocks[id].status == Live && s.blocks[id].flagged
            && (forall r :: r in s.blocks[id].recs ==> r.partition == p && Committed(s, p) <= r.offset)
  {
    assert GoodWorker(log, s, p);
    var w := WorkerOf(s, p);
    assert GoodFlush(log, s, p, t, w.start, w.end, w.tenants[t]);
    var id := w.tenants[t].todo[0];
    assert id in w.tenants[t].todo;
    assert GoodBuilt(log, s, id);
    UncommittedIsFlagged(log, s, id);
  }

  /** The store differs from `s` in one seeded block only, written or changed. */
  ghost predicate OneChange(s: State, s': State, id: BlockId) {
    && s'.committed == s.committed
    && id.Built?
    && s'.blocks.Keys == s.blocks.Keys + {id}
    && forall x :: x in s.blocks && x != id ==> s'.blocks[x] == s.blocks[x]
  }

  lemma FewerLive(s: State, s': State)
    requires OneLivePerSeed(s)
    requires forall x: BlockId :: x.Built? && IsLive(s'.blocks, x) ==> IsLive(s.blocks, x)
    ensures OneLivePerSeed(s')
  {
    forall a, b | IsLive(s'.blocks, a) && IsLive(s'.blocks, b) && a.Built? && b.Built? && a.seed == b.seed ensures a == b {
      assert IsLive(s.blocks, a) && IsLive(s.blocks, b);
    }
  }

  lemma OneChangeBlocksGood(log: Log, s: State, s': State, id: BlockId)
    requires Inv(log, s) && OneChange(s, s', id)
    requires GoodBuilt(log, s', id)
    requires !s'.blocks[id].flagged ==> RecsCommitted(s', s'.blocks[id].recs)
    ensures BlocksGood(log, s')
  {
    forall x | x in s'.blocks && x.Built? ensures GoodBuilt(log, s', x) {
      if x != id { assert GoodBuilt(log, s, x); }
    }
    forall x | x in s'.blocks && !s'.blocks[x].flagged ensures RecsCommitted(s', s'.blocks[x].recs) {
      if x != id { assert RecsCommitted(s, s.blocks[x].recs); }
    }
  }

  lemma OneChangeCovered(log: Log, s: State, s': State, id: BlockId)
    requires Inv(log, s) && OneChange(s, s', id)
    requires IsLive(s.blocks, id) ==>
               (s'.blocks[id].status == Live && s'.blocks[id].recs == s.blocks[id].recs)
               || (forall r :: r in s.blocks[id].recs ==> Committed(s, r.partition) <= r.offset)
    ensures CommittedCovered(log, s')
  {
    forall r: Rec | r.offset < Committed(s', r.partition) && log(r.partition, r.offset).Some?
      ensures Covered(s', r)
    {
      assert Covered(s, r);
      var x :| IsLive(s.blocks, x) && r in s.blocks[x].recs;
      assert IsLive(s'.blocks, x) && r in s'.blocks[x].recs;
    }
  }

  /** A flush at another seed does not see the change. */
  lemma OtherFlushKeeps(log: Log, s: State, s': State, id: BlockId, q: Partition, u: Tenant)
    requires OneChange(s, s', id)
    requires WorkerOf(s, q).Flushing? && u in WorkerOf(s, q).tenants
    requires Seed(u, q, WorkerOf(s, q).start) != id.seed
    requires GoodFlush(log, s, q, u, WorkerOf(s, q).start, WorkerOf(s, q).end, WorkerOf(s, q).tenants[u])
    ensures GoodFlush(log, s', q, u, WorkerOf(s, q).start, WorkerOf(s, q).end, WorkerOf(s, q).tenants[u])
  {
    var f := WorkerOf(s, q).tenants[u];
    if f.Marking? {
      forall x ensures x in f.todo <==>
          (x.Built? && x.seed == Seed(u, q, WorkerOf(s, q).start) && IsLive(s'.blocks, x)) {
        if x != id { assert x in s'.blocks <==> x in s.blocks; }
      }
    }
  }

  /** Nor does the owner of another partition. */
  lemma OtherWorkerKeeps(log: Log, s: State, s': State, id: BlockId, q: Partition)
    requires Inv(log, s) && OneChange(s, s', id)
    requires id.seed.partition != q
    requires WorkerOf(s', q) == WorkerOf(s, q)
    ensures GoodWorker(log, s', q)
  {
    assert GoodWorker(log, s, q);
    var w := WorkerOf(s, q);
    if w.Flushing? {
      forall u | u in w.tenants ensures GoodFlush(log, s', q, u, w.start, w.end, w.tenants[u]) {
        assert GoodFlush(log, s, q, u, w.start, w.end, w.tenants[u]);
        OtherFlushKeeps(log, s, s', id, q, u);
      }
    }
    if w.Releasing? {
      forall t | t in w.ids ensures RecsCommitted(s', s'.blocks[w.ids[t]].recs) {
        assert RecsCommitted(s, s.blocks[w.ids[t]].recs);
      }
    }
  }

  /** Moving tenant t's own flush on, together with one change to its sequence, keeps every owner's facts. */
  lemma FlushStepKeepsWorkers(log: Log, s: State, s': State, p: Partition, t: Tenant, id: BlockId)
    requires Inv(log, s) && OneChange(s, s', id)
    requires InFlush(s, p, t) && id.seed == Seed(t, p, WorkerOf(s, p).start)
    requires InFlush(s', p, t)
    requires s'.workers == SetTenant(s, p, t, WorkerOf(s', p).tenants[t]).workers
    requires GoodFlush(log, s', p, t, WorkerOf(s, p).start, WorkerOf(s, p).end, WorkerOf(s', p).tenants[t])
    ensures forall q :: GoodWorker(log, s', q)
  {
    var w := WorkerOf(s, p);
    assert GoodWorker(log, s, p);
    forall u | u in w.tenants
      ensures GoodFlush(log, s', p, u, w.start, w.end, WorkerOf(s', p).tenants[u])
    {
      if u != t {
        assert GoodFlush(log, s, p, u, w.start, w.end, w.tenants[u]);
        OtherFlushKeeps(log, s, s', id, p, u);
      }
    }
    assert WorkerOf(s', p).tenants.Keys == w.tenants.Keys;
    forall q ensures GoodWorker(log, s', q) {
      if q != p { OtherWorkerKeeps(log, s, s', id, q); }
    }
  }

  lemma MarkFlush(log: Log, s: State, s': State, p: Partition, t: Tenant)
    requires Inv(log, s) && Enabled(log, s, MarkCompacted(p, t))
    requires s'.blocks == Apply(log, s, MarkCompacted(p, t)).blocks
    ensures GoodFlush(log, s', p, t, WorkerOf(s, p).start, WorkerOf(s, p).end,
                      Marking(WorkerOf(s, p).tenants[t].todo[1..], WorkerOf(s, p).tenants[t].next))
  {
    var w := WorkerOf(s, p);
    var m := w.tenants[t];
    assert GoodWorker(log, s, p);
    assert GoodFlush(log, s, p, t, w.start, w.end, m);
    assert m.todo == [m.todo[0]];
    forall x: BlockId | x.Built? && x.seed == m.next.seed ensures !IsLive(s'.blocks, x) {
      if x != m.todo[0] { assert x !in m.todo; }
    }
  }

  lemma MarkKeeps(log: Log, s: State, p: Partition, t: Tenant)
    requires Inv(log, s) && Enabled(log, s, MarkCompacted(p, t))
    ensures Inv(log, Apply(log, s, MarkCompacted(p, t)))
  {
    var s' := Apply(log, s, MarkCompacted(p, t));
    var id := WorkerOf(s, p).tenants[t].todo[0];
    MarkTarget(log, s, p, t);
    assert OneChange(s, s', id);
    assert GoodBuilt(log, s', id) by { assert GoodBuilt(log, s, id); }
    OneChangeBlocksGood(log, s, s', id);
    OneChangeCovered(log, s, s', id);
    FewerLive(s, s');
    MarkFlush(log, s, s', p, t);
    FlushStepKeepsWorkers(log, s, s', p, t, id);
  }

  /** What the writer knows just before it writes: the ID is new and nothing of its sequence is live. */
  lemma WriteReady(log: Log, s: State, p: Partition, t: Tenant)
    requires Inv(log, s) && Enabled(log, s, WriteBlock(p, t))
    ensures var w := WorkerOf(s, p);
            var id := w.tenants[t].next;
            && id.Built? && id.seed == Seed(t, p, w.start) && id.n >= 1 && id !in s.blocks
            && (id.n > 1 ==> Built(id.seed, id.n - 1) in s.blocks)
            && IsFirst(log, p, Committed(s, p), w.start) && w.start < w.end
            && t in SectionTenants(log, p, w.start, w.end)
            && forall x: BlockId :: x.Built? && x.seed == id.seed ==> !IsLive(s.blocks, x)
  {
    var w := WorkerOf(s, p);
    assert GoodWorker(log, s, p);
    assert GoodFlush(log, s, p, t, w.start, w.end, w.tenants[t]);
    forall x: BlockId | x.Built? && x.seed == w.tenants[t].next.seed ensures !IsLive(s.blocks, x) {
      assert x !in w.tenants[t].todo;
    }
  }

  lemma WriteKeeps(log: Log, s: State, p: Partition, t: Tenant)
    requires Inv(log, s) && Enabled(log, s, WriteBlock(p, t))
    ensures Inv(log, Apply(log, s, WriteBlock(p, t)))
  {
    var s' := Apply(log, s, WriteBlock(p, t));
    var w := WorkerOf(s, p);
    var id := w.tenants[t].next;
    WriteReady(log, s, p, t);
    SectionRecsFacts(log, t, p, w.start, w.end);
    assert OneChange(s, s', id);
    assert GoodBuilt(log, s', id);
    OneChangeBlocksGood(log, s, s', id);
    OneChangeCovered(log, s, s', id);
    forall a, b | IsLive(s'.blocks, a) && IsLive(s'.blocks, b) && a.Built? && b.Built? && a.seed == b.seed ensures a == b {
      assert a != id ==> IsLive(s.blocks, a);
      assert b != id ==> IsLive(s.blocks, b);
    }
    FlushStepKeepsWorkers(log, s, s', p, t, id);
  }

  lemma CommitKeeps(log: Log, s: State, p: Partition)
    requires Inv(log, s) && Enabled(log, s, Commit(p))
    ensures Inv(log, Apply(log, s, Commit(p)))
  {
    var s' := Apply(log, s, Commit(p));
    var w := WorkerOf(s, p);
    assert GoodWorker(log, s, p);
    forall q ensures Committed(s, q) <= Committed(s', q) {}
    forall x | x in s'.blocks && x.Built? ensures GoodBuilt(log, s', x) {
      assert GoodBuilt(log, s, x);
      if x.seed.partition == p && Committed(s, p) <= x.seed.start {
        FirstUnique(log, p, Committed(s, p), x.seed.start, w.start);
      }
    }
    forall x | x in s'.blocks && !s'.blocks[x].flagged ensures RecsCommitted(s', s'.blocks[x].recs) {
      assert RecsCommitted(s, s.blocks[x].recs);
    }
    forall r: Rec | r.offset < Committed(s', r.partition) && log(r.partition, r.offset).Some?
      ensures Covered(s', r)
    {
      if r.offset < Committed(s, r.partition) {
        assert Covered(s, r);
      } else {
        assert r.partition == p && w.start <= r.offset < w.end;
        var t := log(p, r.offset).value;
        assert t in SectionTenants(log, p, w.start, w.end);
        assert GoodFlush(log, s, p, t, w.start, w.end, w.tenants[t]);
        assert Rec(p, r.offset) in SectionRecs(log, t, p, w.start, w.end);
        var id := w.tenants[t].id;
        assert IsLive(s'.blocks, id) && r in s'.blocks[id].recs;
      }
    }
    forall t | t in w.tenants ensures
        var id := w.tenants[t].id;
        id.Built? && id.seed.partition == p && id.seed.tenant == t && id in s'.blocks && RecsCommitted(s', s'.blocks[id].recs)
    {
      assert GoodFlush(log, s, p, t, w.start, w.end, w.tenants[t]);
      SectionRecsFacts(log, t, p, w.start, w.end);
    }
    assert GoodWorker(log, s', p);
    forall q ensures GoodWorker(log, s', q) {
      if q != p { OtherCommitKeeps(log, s, s', q); }
    }
  }

  lemma FirstUnique(log: Log, p: Partition, from: Offset, a: Offset, b: Offset)
    requires IsFirst(log, p, from, a) && IsFirst(log, p, from, b)
    ensures a == b
  {
  }

  lemma OtherCommitKeeps(log: Log, s: State, s': State, q: Partition)
    requires Inv(log, s)
    requires s'.blocks == s.blocks && WorkerOf(s', q) == WorkerOf(s, q)
    requires Committed(s', q) == Committed(s, q)
    requires forall p :: Committed(s, p) <= Committed(s', p)
    ensures GoodWorker(log, s', q)
  {
    assert GoodWorker(log, s, q);
    var w := WorkerOf(s, q);
    if w.Flushing? {
      forall t | t in w.tenants ensures GoodFlush(log, s', q, t, w.start, w.end, w.tenants[t]) {
        assert GoodFlush(log, s, q, t, w.start, w.end, w.tenants[t]);
      }
    }
    if w.Releasing? {
      forall t | t in w.ids ensures RecsCommitted(s', s'.blocks[w.ids[t]].recs) {
        assert RecsCommitted(s, s.blocks[w.ids[t]].recs);
      }
    }
  }

  lemma FlagOnlyKeepsBlocks(log: Log, s: State, s': State, id: BlockId)
    requires Inv(log, s) && OneChange(s, s', id)
    requires id in s.blocks && s'.blocks[id] == s.blocks[id].(flagged := false)
    requires RecsCommitted(s, s.blocks[id].recs)
    ensures BlocksGood(log, s') && OneLivePerSeed(s') && CommittedCovered(log, s')
  {
    assert GoodBuilt(log, s', id) by { assert GoodBuilt(log, s, id); }
    OneChangeBlocksGood(log, s, s', id);
    OneChangeCovered(log, s, s', id);
    FewerLive(s, s');
  }

  lemma DeleteFlagKeeps(log: Log, s: State, p: Partition, t: Tenant)
    requires Inv(log, s) && Enabled(log, s, DeleteFlag(p, t))
    ensures Inv(log, Apply(log, s, DeleteFlag(p, t)))
  {
    var s' := Apply(log, s, DeleteFlag(p, t));
    var w := WorkerOf(s, p);
    var id := w.ids[t];
    assert GoodWorker(log, s, p);
    assert OneChange(s, s', id);
    FlagOnlyKeepsBlocks(log, s, s', id);
    forall u | u in w.ids ensures RecsCommitted(s', s'.blocks[w.ids[u]].recs) {
      assert RecsCommitted(s, s.blocks[w.ids[u]].recs);
    }
    forall q ensures GoodWorker(log, s', q) {
      if q != p { OtherWorkerKeeps(log, s, s', id, q); }
    }
  }

  /** A change that only touches committed sections' blocks leaves every owner's facts alone. */
  lemma CommittedChangeKeepsWorkers(log: Log, s: State, s': State, q: Partition)
    requires Inv(log, s)
    requires s'.committed == s.committed && s'.workers == s.workers
    requires s.blocks.Keys <= s'.blocks.Keys
    requires forall x :: x in s'.blocks && x !in s.blocks ==> x.Merged?
    requires forall x :: x in s.blocks ==> s'.blocks[x].recs == s.blocks[x].recs
    requires forall x :: x in s.blocks && x.Built? && Committed(s, x.seed.partition) <= x.seed.start ==> s'.blocks[x] == s.blocks[x]
    ensures GoodWorker(log, s', q)
  {
    assert GoodWorker(log, s, q);
    var w := WorkerOf(s, q);
    if w.Flushing? {
      forall t | t in w.tenants ensures GoodFlush(log, s', q, t, w.start, w.end, w.tenants[t]) {
        assert GoodFlush(log, s, q, t, w.start, w.end, w.tenants[t]);
      }
    }
    if w.Releasing? {
      forall t | t in w.ids ensures RecsCommitted(s', s'.blocks[w.ids[t]].recs) {
        assert RecsCommitted(s, s.blocks[w.ids[t]].recs);
      }
    }
  }

  lemma MergeBlocksGood(log: Log, s: State, s': State, inputs: set<BlockId>, k: nat)
    requires Inv(log, s) && Enabled(log, s, Merge(inputs, k))
    requires s'.committed == s.committed && s'.blocks == MergeBlocks(s.blocks, inputs, k)
    ensures BlocksGood(log, s')
  {
    forall x | x in s'.blocks && x.Built? ensures GoodBuilt(log, s', x) {
      assert GoodBuilt(log, s, x);
    }
    forall x | x in s'.blocks && !s'.blocks[x].flagged ensures RecsCommitted(s', s'.blocks[x].recs) {
      if x != Merged(k) {
        assert RecsCommitted(s, s.blocks[x].recs);
      } else {
        forall r | r in s'.blocks[x].recs ensures r.offset < Committed(s', r.partition) {
          var id :| id in inputs && id in s.blocks && r in s.blocks[id].recs;
          assert RecsCommitted(s, s.blocks[id].recs);
        }
      }
    }
  }

  lemma MergeKeeps(log: Log, s: State, inputs: set<BlockId>, k: nat)
    requires Inv(log, s) && Enabled(log, s, Merge(inputs, k))
    ensures Inv(log, Apply(log, s, Merge(inputs, k)))
  {
    var s' := Apply(log, s, Merge(inputs, k));
    var out := Merged(k);
    MergeBlocksGood(log, s, s', inputs, k);
    FewerLive(s, s');
    forall r: Rec | r.offset < Committed(s', r.partition) && log(r.partition, r.offset).Some?
      ensures Covered(s', r)
    {
      assert Covered(s, r);
      var x :| IsLive(s.blocks, x) && r in s.blocks[x].recs;
      var y := if x in inputs then out else x;
      assert IsLive(s'.blocks, y) && r in s'.blocks[y].recs;
    }
    forall x | x in s.blocks && x.Built? && Committed(s, x.seed.partition) <= x.seed.start
      ensures s'.blocks[x] == s.blocks[x]
    {
      UncommittedIsFlagged(log, s, x);
    }
    forall q ensures GoodWorker(log, s', q) { CommittedChangeKeepsWorkers(log, s, s', q); }
  }

  lemma ClearBlocksGood(log: Log, s: State, s': State, id: BlockId)
    requires Inv(log, s) && Enabled(log, s, Clear(id))
    requires s'.committed == s.committed && s'.blocks == s.blocks[id := s.blocks[id].(status := Cleared)]
    ensures BlocksGood(log, s')
  {
    forall x | x in s'.blocks && x.Built? ensures GoodBuilt(log, s', x) {
      assert GoodBuilt(log, s, x);
    }
    forall x | x in s'.blocks && !s'.blocks[x].flagged ensures RecsCommitted(s', s'.blocks[x].recs) {
      assert RecsCommitted(s, s.blocks[x].recs);
    }
  }

  lemma ClearKeeps(log: Log, s: State, id: BlockId)
    requires Inv(log, s) && Enabled(log, s, Clear(id))
    ensures Inv(log, Apply(log, s, Clear(id)))
  {
    var s' := Apply(log, s, Clear(id));
    ClearBlocksGood(log, s, s', id);
    FewerLive(s, s');
    forall r: Rec | r.offset < Committed(s', r.partition) && log(r.partition, r.offset).Some?
      ensures Covered(s', r)
    {
      assert Covered(s, r);
      var x :| IsLive(s.blocks, x) && r in s.blocks[x].recs;
      assert IsLive(s'.blocks, x) && r in s'.blocks[x].recs;
    }
    forall q ensures GoodWorker(log, s', q) { CommittedChangeKeepsWorkers(log, s, s', q); }
  }

  /** Every step keeps the invariant. */
  lemma StepKeeps(log: Log, s: State, step: Step)
    requires Inv(log, s) && Enabled(log, s, step)
    ensures Inv(log, Apply(log, s, step))
  {
    match step
    case Read(p, start, end) => ReadKeeps(log, s, p, start, end);
    case Determine(p, t, todo, next) => DetermineKeeps(log, s, p, t, todo, next);
    case MarkCompacted(p, t) => MarkKeeps(log, s, p, t);
    case WriteBlock(p, t) => WriteKeeps(log, s, p, t);
    case Commit(p) => CommitKeeps(log, s, p);
    case DeleteFlag(p, t) => DeleteFlagKeeps(log, s, p, t);
    case Finish(p) => IdleKeeps(log, s, p);
    case Crash(p) => IdleKeeps(log, s, p);
    case Merge(inputs, k) => MergeKeeps(log, s, inputs, k);
    case Clear(id) => ClearKeeps(log, s, id);
  }

  lemma {:induction false} RunInv(log: Log, steps: seq<Step>)
    requires IsRun(log, steps)
    ensures Inv(log, Exec(log, steps))
  {
    if |steps| == 0 {
    } else {
      RunInv(log, steps[..|steps| - 1]);
      StepKeeps(log, Exec(log, steps[..|steps| - 1]), steps[|steps| - 1]);
    }
  }
}
