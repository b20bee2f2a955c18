/**
 The block-builder's consume / flush / commit / allow-compaction cycle as a crash-restart
 state machine.

 A partition is a log of records. A cycle reads a section of it starting at the committed
 offset, writes one block per tenant under an ID drawn from a sequence seeded by
 (tenant, partition, first offset), commits the offset, and only then removes the nocompact
 flags. Every effect is a step of its own and a crash may follow any of them; the backend and
 the offset store survive, the cycle does not.
 */
module BuilderProtocol {
  import opened Options

  type Tenant = string
  type Partition = nat
  type Offset = nat

  /** A record's position; its tenant is given by the log. */
  datatype Rec = Rec(partition: Partition, offset: Offset)

  /** The log of every partition. Offsets may have gaps. */
  type Log = (Partition, Offset) -> Option<Tenant>

  /** What seeds a deterministic ID sequence. */
  datatype Seed = Seed(tenant: Tenant, partition: Partition, start: Offset)

  /** Either the n-th ID of a seeded sequence (n from 1), or a random ID given to a compaction output. */
  datatype BlockId = Built(seed: Seed, n: nat) | Merged(k: nat)

  datatype Status = Live | Compacted | Cleared

  datatype Block = Block(status: Status, flagged: bool, recs: set<Rec>)

  type Blocks = map<BlockId, Block>

  /** Progress of one tenant's flush inside a section. */
  datatype TenantFlush =
    | Waiting
    | Marking(todo: seq<BlockId>, next: BlockId)
    | Written(id: BlockId)

  /** What the single owner of a partition holds in memory. */
  datatype Worker =
    | Idle
    | Flushing(start: Offset, end: Offset, tenants: map<Tenant, TenantFlush>)
    | Releasing(ids: map<Tenant, BlockId>)

  /** `horizon` records how far any attempt since the start has read, per partition; no step consults it. */
  datatype State = State(
    blocks: Blocks,
    committed: map<Partition, Offset>,
    workers: map<Partition, Worker>,
    horizon: map<Partition, Offset>)

  function Committed(s: State, p: Partition): Offset {
    if p in s.committed then s.committed[p] else 0
  }

  function WorkerOf(s: State, p: Partition): Worker {
    if p in s.workers then s.workers[p] else Idle
  }

  function Horizon(s: State, p: Partition): Offset {
    if p in s.horizon then s.horizon[p] else 0
  }

  function Max(a: nat, b: nat): nat {
    if a < b then b else a
  }

  // ---------------------------------------------------------------- sections

  /** `start` is the first record at or after the committed offset `from`. */
  ghost predicate IsFirst(log: Log, p: Partition, from: Offset, start: Offset) {
    && from <= start
    && log(p, start).Some?
    && forall o: Offset :: from <= o < start ==> log(p, o).None?
  }

  ghost function SectionRecs(log: Log, t: Tenant, p: Partition, start: Offset, end: Offset): set<Rec> {
    set o: Offset | start <= o < end && log(p, o) == Some(t) :: Rec(p, o)
  }

  ghost function SectionTenants(log: Log, p: Partition, start: Offset, end: Offset): set<Tenant> {
    set o: Offset | start <= o < end && log(p, o).Some? :: log(p, o).value
  }

  // ------------------------------------------------------------- block IDs

  predicate IsLive(blocks: Blocks, id: BlockId) {
    id in blocks && blocks[id].status == Live
  }

  /** The backend holds neither a live nor a compacted block under `id` (a cleared one leaves no trace). */
  predicate Free(blocks: Blocks, id: BlockId) {
    id !in blocks || blocks[id].status == Cleared
  }

  /** The live IDs among the first `k` of the sequence, in order. */
  function LiveIds(blocks: Blocks, seed: Seed, k: nat): (ids: seq<BlockId>)
    ensures forall id :: id in ids <==>
              (id.Built? && id.seed == seed && 1 <= id.n <= k && IsLive(blocks, id))
  {
    if k == 0 then [] else
    var rest := LiveIds(blocks, seed, k - 1);
    var id := Built(seed, k);
    if IsLive(blocks, id) then rest + [id] else rest
  }

  /** What determineBlockIDs returns: the first free ID, and every live block found before it. */
  ghost predicate Determined(blocks: Blocks, seed: Seed, todo: seq<BlockId>, next: BlockId) {
    && next.Built? && next.seed == seed && next.n >= 1
    && Free(blocks, next)
    && (forall j :: 1 <= j < next.n ==> !Free(blocks, Built(seed, j)))
    && todo == LiveIds(blocks, seed, next.n - 1)
  }

  // ----------------------------------------------------------------- steps

  datatype Step =
    | Read(p: Partition, start: Offset, end: Offset)
    | Determine(p: Partition, t: Tenant, todo: seq<BlockId>, next: BlockId)
    | MarkCompacted(p: Partition, t: Tenant)
    | WriteBlock(p: Partition, t: Tenant)
    | Commit(p: Partition)
    | DeleteFlag(p: Partition, t: Tenant)
    | Finish(p: Partition)
    | Crash(p: Partition)
    | Merge(inputs: set<BlockId>, k: nat)
    | Clear(id: BlockId)

  ghost predicate InFlush(s: State, p: Partition, t: Tenant) {
    WorkerOf(s, p).Flushing? && t in WorkerOf(s, p).tenants
  }

  ghost predicate Enabled(log: Log, s: State, step: Step) {
    match step
    case Read(p, start, end) =>
      && WorkerOf(s, p) == Idle
      && start < end
      && IsFirst(log, p, Committed(s, p), start)
      && log(p, end - 1).Some?
    case Determine(p, t, todo, next) =>
      && InFlush(s, p, t)
      && WorkerOf(s, p).tenants[t] == Waiting
      && Determined(s.blocks, Seed(t, p, WorkerOf(s, p).start), todo, next)
    case MarkCompacted(p, t) =>
      && InFlush(s, p, t)
      && WorkerOf(s, p).tenants[t].Marking?
      && WorkerOf(s, p).tenants[t].todo != []
      && WorkerOf(s, p).tenants[t].todo[0] in s.blocks
    case WriteBlock(p, t) =>
      && InFlush(s, p, t)
      && WorkerOf(s, p).tenants[t].Marking?
      && WorkerOf(s, p).tenants[t].todo == []
    case Commit(p) =>
      && WorkerOf(s, p).Flushing?
      && forall t :: t in WorkerOf(s, p).tenants ==> WorkerOf(s, p).tenants[t].Written?
    case DeleteFlag(p, t) =>
      && WorkerOf(s, p).Releasing?
      && t in WorkerOf(s, p).ids
      && WorkerOf(s, p).ids[t] in s.blocks
    case Finish(p) =>
      WorkerOf(s, p).Releasing?
    case Crash(p) =>
      true
    case Merge(inputs, k) =>
      && Merged(k) !in s.blocks
      && forall id :: id in inputs ==> IsLive(s.blocks, id) && !s.blocks[id].flagged
    case Clear(id) =>
      && id in s.blocks && s.blocks[id].status == Compacted
      && (id.Built? ==> id.seed.start < Committed(s, id.seed.partition))
  }

  function SetTenant(s: State, p: Partition, t: Tenant, f: TenantFlush): State
    requires WorkerOf(s, p).Flushing?
  {
    var w := WorkerOf(s, p);
    s.(workers := s.workers[p := w.(tenants := w.tenants[t := f])])
  }

  ghost function UnionRecs(blocks: Blocks, ids: set<BlockId>): set<Rec> {
    set id, r | id in ids && id in blocks && r in blocks[id].recs :: r
  }

  ghost function MergeBlocks(blocks: Blocks, inputs: set<BlockId>, k: nat): Blocks {
    (map id | id in blocks ::
       if id in inputs then blocks[id].(status := Compacted) else blocks[id])
    [Merged(k) := Block(Live, false, UnionRecs(blocks, inputs))]
  }

  ghost function Apply(log: Log, s: State, step: Step): State
    requires Enabled(log, s, step)
  {
    match step
    case Read(p, start, end) =>
      s.(workers := s.workers[p := Flushing(start, end, map t | t in SectionTenants(log, p, start, end) :: Waiting)],
         horizon := s.horizon[p := Max(Horizon(s, p), end)])
    case Determine(p, t, todo, next) =>
      SetTenant(s, p, t, Marking(todo, next))
    case MarkCompacted(p, t) =>
      var m := WorkerOf(s, p).tenants[t];
      SetTenant(s, p, t, Marking(m.todo[1..], m.next))
        .(blocks := s.blocks[m.todo[0] := s.blocks[m.todo[0]].(status := Compacted)])
    case WriteBlock(p, t) =>
      var w := WorkerOf(s, p);
      var id := w.tenants[t].next;
      SetTenant(s, p, t, Written(id))
        .(blocks := s.blocks[id := Block(Live, true, SectionRecs(log, t, p, w.start, w.end))])
    case Commit(p) =>
      var w := WorkerOf(s, p);
      s.(committed := s.committed[p := w.end],
         workers := s.workers[p := Releasing(map t | t in w.tenants :: w.tenants[t].id)])
    case DeleteFlag(p, t) =>
      var id := WorkerOf(s, p).ids[t];
      s.(blocks := s.blocks[id := s.blocks[id].(flagged := false)])
    case Finish(p) => s.(workers := s.workers[p := Idle])
    case Crash(p) => s.(workers := s.workers[p := Idle])
    case Merge(inputs, k) => s.(blocks := MergeBlocks(s.blocks, inputs, k))
    case Clear(id) => s.(blocks := s.blocks[id := s.blocks[id].(status := Cleared)])
  }

  const Initial := State(map[], map[], map[], map[])

  /** The steps can be taken one after the other from an empty store. */
  ghost predicate IsRun(log: Log, steps: seq<Step>)
    decreases |steps|, 0
  {
    |steps| == 0 || (IsRun(log, steps[..|steps| - 1]) && Enabled(log, Exec(log, steps[..|steps| - 1]), steps[|steps| - 1]))
  }

  /** The state a run ends in. */
  ghost function Exec(log: Log, steps: seq<Step>): State
    requires IsRun(log, steps)
    decreases |steps|, 1
  {
    if |steps| == 0 then Initial
    else Apply(log, Exec(log, steps[..|steps| - 1]), steps[|steps| - 1])
  }

  lemma Extend(log: Log, steps: seq<Step>, step: Step)
    requires IsRun(log, steps) && Enabled(log, Exec(log, steps), step)
    ensures IsRun(log, steps + [step]) && Exec(log, steps + [step]) == Apply(log, Exec(log, steps), step)
  {
    var all := steps + [step];
    assert all[..|all| - 1] == steps;
  }
}
