/**
 The block-builder's own code: consuming a partition section, flushing one block per tenant,
 committing, and releasing the nocompact flags. Every effect on the backend or the offset store
 is one step of BuilderProtocol, so whatever is proved there of every run holds after any call
 here, whether the call succeeded or stopped at a failed operation.
 */
module BlockBuilder {
  import opened BuilderInvariant
  import opened BuilderProtocol
  import opened Options

  /** A Kafka record as the consumer sees it. */
  datatype Record = Record(offset: Offset, tenant: Tenant, time: int, size: nat)

  /** The outcome of one poll. */
  datatype Fetch = Records(rs: seq<Record>) | Nothing | Failed

  // ------------------------------------------------- what a section contains

  /** `rs` are the log's records from `from` on, in order and without omission. */
  ghost predicate Delivers(log: Log, p: Partition, from: Offset, rs: seq<Record>) {
    && (forall i :: 0 <= i < |rs| ==> log(p, rs[i].offset) == Some(rs[i].tenant))
    && (|rs| > 0 ==> IsFirst(log, p, from, rs[0].offset))
    && (forall i, j :: 0 <= i < j < |rs| && j == i + 1 ==> IsFirst(log, p, rs[i].offset + 1, rs[j].offset))
  }

  lemma DeliversPrefix(log: Log, p: Partition, from: Offset, rs: seq<Record>, k: nat)
    requires Delivers(log, p, from, rs) && k <= |rs|
    ensures Delivers(log, p, from, rs[..k])
  {
  }

  /** The log entries of the section a delivery spans are exactly its records. */
  lemma {:induction false} DeliveredSection(log: Log, p: Partition, from: Offset, rs: seq<Record>)
    requires Delivers(log, p, from, rs) && |rs| > 0
    ensures rs[0].offset <= rs[|rs| - 1].offset
    ensures forall o: Offset :: rs[0].offset <= o <= rs[|rs| - 1].offset && log(p, o).Some? ==>
              exists i :: 0 <= i < |rs| && rs[i].offset == o
    ensures forall i :: 0 <= i < |rs| ==> rs[0].offset <= rs[i].offset <= rs[|rs| - 1].offset
    decreases |rs|
  {
    if |rs| > 1 {
      var init := rs[..|rs| - 1];
      DeliversPrefix(log, p, from, rs, |rs| - 1);
      DeliveredSection(log, p, from, init);
      assert IsFirst(log, p, rs[|rs| - 2].offset + 1, rs[|rs| - 1].offset);
      forall o: Offset | rs[0].offset <= o <= rs[|rs| - 1].offset && log(p, o).Some?
        ensures exists i :: 0 <= i < |rs| && rs[i].offset == o
      {
        if o <= rs[|rs| - 2].offset {
          var i :| 0 <= i < |init| && init[i].offset == o;
          assert rs[i].offset == o;
        } else {
          assert rs[|rs| - 1].offset == o;
        }
      }
    }
  }

  function Offsets(rs: seq<Record>, t: Tenant): set<Offset> {
    set i | 0 <= i < |rs| && rs[i].tenant == t :: rs[i].offset
  }

  function Tenants(rs: seq<Record>): set<Tenant> {
    set i | 0 <= i < |rs| :: rs[i].tenant
  }

  lemma SectionOfDelivery(log: Log, p: Partition, from: Offset, rs: seq<Record>)
    requires Delivers(log, p, from, rs) && |rs| > 0
    ensures var end := rs[|rs| - 1].offset + 1;
            && SectionTenants(log, p, rs[0].offset, end) == Tenants(rs)
            && forall t :: SectionRecs(log, t, p, rs[0].offset, end) == (set o | o in Offsets(rs, t) :: Rec(p, o))
  {
    DeliveredSection(log, p, from, rs);
    var start, end := rs[0].offset, rs[|rs| - 1].offset + 1;
    forall t | t in SectionTenants(log, p, start, end) ensures t in Tenants(rs) {
      var o :| start <= o < end && log(p, o).Some? && log(p, o).value == t;
      var i :| 0 <= i < |rs| && rs[i].offset == o;
      assert rs[i].tenant == t;
    }
    forall t | t in Tenants(rs) ensures t in SectionTenants(log, p, start, end) {
      var i :| 0 <= i < |rs| && rs[i].tenant == t;
      assert log(p, rs[i].offset).value == t;
    }
    forall t, r | r in SectionRecs(log, t, p, start, end) ensures r in (set o | o in Offsets(rs, t) :: Rec(p, o)) {
      var i :| 0 <= i < |rs| && rs[i].offset == r.offset;
      assert rs[i].offset in Offsets(rs, t);
    }
    forall t, o | o in Offsets(rs, t) ensures Rec(p, o) in SectionRecs(log, t, p, start, end) {
      var i :| 0 <= i < |rs| && rs[i].tenant == t && rs[i].offset == o;
    }
  }

  // ------------------------------------------------------- where a section ends

  function Bytes(rs: seq<Record>): nat {
    if |rs| == 0 then 0 else Bytes(rs[..|rs| - 1]) + rs[|rs| - 1].size
  }

  /** The byte budget of a cycle is used up (0 means no budget). */
  predicate Full(rs: seq<Record>, maxBytes: nat) {
    maxBytes > 0 && Bytes(rs) >= maxBytes
  }

  /** How many of the delivered records belong to the section. */
  function SectionLength(rs: seq<Record>, duration: nat, maxBytes: nat): (n: nat)
    ensures n <= |rs|
  {
    if |rs| == 0 then 0 else
    var init := rs[..|rs| - 1];
    var n := SectionLength(init, duration, maxBytes);
    if n < |init| || (|init| > 0 && Full(init, maxBytes)) || rs[0].time + duration < rs[|rs| - 1].time then n else |rs|
  }

  lemma {:induction false} SectionStaysCut(rs: seq<Record>, k: nat, duration: nat, maxBytes: nat)
    requires k <= |rs|
    requires SectionLength(rs[..k], duration, maxBytes) < k || (0 < k && Full(rs[..k], maxBytes))
    ensures SectionLength(rs, duration, maxBytes) == SectionLength(rs[..k], duration, maxBytes)
    decreases |rs|
  {
    if k == |rs| {
      assert rs[..k] == rs;
    } else {
      var init := rs[..|rs| - 1];
      assert init[..k] == rs[..k];
      SectionStaysCut(init, k, duration, maxBytes);
    }
  }

  /**
   The cut is where it should be: a non-empty delivery yields a non-empty section, every record in it
   falls within the cycle duration of the first and starts below the byte budget, and the next record,
   if there is one, would break one of the two.
   */
  lemma {:induction false} SectionIsMaximal(rs: seq<Record>, duration: nat, maxBytes: nat)
    ensures var n := SectionLength(rs, duration, maxBytes);
            && (|rs| > 0 ==> n > 0)
            && (forall i :: 0 <= i < n ==> rs[i].time <= rs[0].time + duration)
            && (forall i :: 1 <= i < n ==> maxBytes == 0 || Bytes(rs[..i]) < maxBytes)
            && (n < |rs| ==> (maxBytes > 0 && Bytes(rs[..n]) >= maxBytes) || rs[0].time + duration < rs[n].time)
    decreases |rs|
  {
    if |rs| > 0 {
      var init := rs[..|rs| - 1];
      SectionIsMaximal(init, duration, maxBytes);
      forall i | 0 <= i < |rs| ensures rs[..i] == init[..i] {}
      assert init[..|init|] == init;
    }
  }

  // ------------------------------------------------ backend and offset store

  /** Which of the first `ops` operations have failed. */
  ghost function FailedBy(faults: set<nat>, ops: nat): set<nat> {
    set n | n in faults && 1 <= n <= ops
  }

  lemma FailedByNext(faults: set<nat>, ops: nat)
    ensures FailedBy(faults, ops + 1) == if ops + 1 in faults then FailedBy(faults, ops) + {ops + 1} else FailedBy(faults, ops)
  {
  }

  /** What outlives a crash. `run` is the history of protocol steps taken so far, `state` where it has led. */
  class Cluster {
    ghost const log: Log
    var blocks: Blocks
    var committed: map<Partition, Offset>
    ghost var run: seq<Step>
    ghost var state: State

    /** Operations are numbered from 1 as they are attempted; `faults` are the ones that fail, `failed` of them so far. */
    const faults: set<nat>
    var ops: nat
    ghost var failed: nat

    ghost predicate Valid()
      reads this
    {
      && IsRun(log, run)
      && state == Exec(log, run)
      && state.blocks == blocks
      && state.committed == committed
      && failed == |FailedBy(faults, ops)|
    }

    constructor (ghost log: Log, faults: set<nat>)
      ensures Valid() && this.log == log && run == [] && this.faults == faults && ops == 0
    {
      this.log := log;
      this.blocks, this.committed, this.run, this.state := map[], map[], [], Initial;
      this.faults, this.ops, this.failed := faults, 0, 0;
    }

    method Attempt() returns (ok: bool)
      requires Valid()
      modifies this`ops, this`failed
      ensures Valid() && Attempted(ok, old(ops), old(failed))
    {
      FailedByNext(faults, ops);
      ops := ops + 1;
      ok := ops !in faults;
      if !ok { failed := failed + 1; }
    }

    /** The effect of one attempt on the counters. */
    ghost predicate Attempted(ok: bool, ops0: nat, failed0: nat)
      reads this
    {
      ops == ops0 + 1 && ok == (ops !in faults) && failed == if ok then failed0 else failed0 + 1
    }

    /** Records a step that touches nothing outside the process. */
    ghost method Note(step: Step)
      requires Valid() && Enabled(log, state, step)
      requires Apply(log, state, step).blocks == blocks && Apply(log, state, step).committed == committed
      modifies this`run, this`state
      ensures Valid() && run == old(run) + [step] && state == Apply(log, old(state), step)
    {
      Extend(log, run, step);
      run, state := run + [step], Apply(log, state, step);
    }

    method BlockMeta(id: BlockId) returns (ok: bool, live: bool, compacted: bool)
      requires Valid()
      modifies this`ops, this`failed
      ensures Valid() && Attempted(ok, old(ops), old(failed))
      ensures ok ==> live == IsLive(blocks, id) && (!live && !compacted <==> Free(blocks, id))
    {
      ok := Attempt();
      live := id in blocks && blocks[id].status == Live;
      compacted := id in blocks && blocks[id].status == Compacted;
    }

    method MarkBlockCompacted(ghost p: Partition, ghost t: Tenant, id: BlockId) returns (ok: bool)
      requires Valid() && Enabled(log, state, MarkCompacted(p, t))
      requires id == WorkerOf(state, p).tenants[t].todo[0]
      modifies this
      ensures Valid() && Attempted(ok, old(ops), old(failed))
      ensures run == if ok then old(run) + [MarkCompacted(p, t)] else old(run)
      ensures ok ==> state == Apply(log, old(state), MarkCompacted(p, t))
    {
      ok := Attempt();
      if ok {
        Extend(log, run, MarkCompacted(p, t));
        blocks := blocks[id := blocks[id].(status := Compacted)];
        run, state := run + [MarkCompacted(p, t)], Apply(log, state, MarkCompacted(p, t));
      }
    }

    method Write(ghost p: Partition, ghost t: Tenant, id: BlockId, recs: set<Rec>) returns (ok: bool)
      requires Valid() && Enabled(log, state, WriteBlock(p, t))
      requires id == WorkerOf(state, p).tenants[t].next
      requires recs == SectionRecs(log, t, p, WorkerOf(state, p).start, WorkerOf(state, p).end)
      modifies this
      ensures Valid() && Attempted(ok, old(ops), old(failed))
      ensures run == if ok then old(run) + [WriteBlock(p, t)] else old(run)
      ensures ok ==> state == Apply(log, old(state), WriteBlock(p, t))
    {
      ok := Attempt();
      if ok {
        Extend(log, run, WriteBlock(p, t));
        blocks := blocks[id := Block(Live, true, recs)];
        run, state := run + [WriteBlock(p, t)], Apply(log, state, WriteBlock(p, t));
      }
    }

    method CommitOffset(p: Partition, at: Offset) returns (ok: bool)
      requires Valid() && Enabled(log, state, Commit(p)) && at == WorkerOf(state, p).end
      modifies this
      ensures Valid() && Attempted(ok, old(ops), old(failed))
      ensures run == if ok then old(run) + [Commit(p)] else old(run)
      ensures ok ==> state == Apply(log, old(state), Commit(p))
    {
      ok := Attempt();
      if ok {
        Extend(log, run, Commit(p));
        committed := committed[p := at];
        run, state := run + [Commit(p)], Apply(log, state, Commit(p));
      }
    }

    method DeleteNoCompactFlag(ghost p: Partition, ghost t: Tenant, id: BlockId) returns (ok: bool)
      requires Valid() && Enabled(log, state, DeleteFlag(p, t)) && id == WorkerOf(state, p).ids[t]
      modifies this
      ensures Valid() && Attempted(ok, old(ops), old(failed))
      ensures run == if ok then old(run) + [DeleteFlag(p, t)] else old(run)
      ensures ok ==> state == Apply(log, old(state), DeleteFlag(p, t))
    {
      ok := Attempt();
      if ok {
        Extend(log, run, DeleteFlag(p, t));
        blocks := blocks[id := blocks[id].(flagged := false)];
        run, state := run + [DeleteFlag(p, t)], Apply(log, state, DeleteFlag(p, t));
      }
    }
  }

  // ---------------------------------------------------------- section writer

  /** IDs of the seed that the search has not looked at yet; they run out because the store is finite. */
  ghost function Beyond(blocks: Blocks, seed: Seed, n: nat): set<BlockId> {
    set id | id in blocks && id.Built? && id.seed == seed && id.n > n
  }

  lemma BeyondShrinks(blocks: Blocks, seed: Seed, n: nat)
    requires Built(seed, n + 1) in blocks
    ensures |Beyond(blocks, seed, n + 1)| < |Beyond(blocks, seed, n)|
  {
    var id := Built(seed, n + 1);
    assert id in Beyond(blocks, seed, n);
    var rest := Beyond(blocks, seed, n + 1);
    assert Beyond(blocks, seed, n) == rest + (Beyond(blocks, seed, n) - rest);
  }

  /** The first `n` IDs are all used, and `existing` are the live ones among them. */
  ghost predicate Walked(blocks: Blocks, seed: Seed, n: nat, existing: seq<BlockId>) {
    && existing == LiveIds(blocks, seed, n)
    && forall j :: 1 <= j <= n ==> !Free(blocks, Built(seed, j))
  }

  lemma WalkOn(blocks: Blocks, seed: Seed, n: nat, existing: seq<BlockId>)
    requires Walked(blocks, seed, n, existing)
    ensures var id := Built(seed, n + 1);
            if Free(blocks, id) then Determined(blocks, seed, existing, id)
            else Walked(blocks, seed, n + 1, if IsLive(blocks, id) then existing + [id] else existing)
                 && |Beyond(blocks, seed, n + 1)| < |Beyond(blocks, seed, n)|
  {
    if !Free(blocks, Built(seed, n + 1)) { BeyondShrinks(blocks, seed, n); }
  }

  /** determineBlockIDs: walk the sequence to the first unused ID, collecting live blocks on the way. */
  method DetermineBlockIDs(c: Cluster, seed: Seed) returns (ok: bool, next: BlockId, existing: seq<BlockId>)
    requires c.Valid()
    modifies c`ops, c`failed
    ensures c.Valid() && (if ok then c.failed == old(c.failed) else c.failed > old(c.failed))
    ensures ok ==> Determined(c.blocks, seed, existing, next)
  {
    var n: nat := 0;
    existing, next := [], Built(seed, 1);
    while true
      invariant c.Valid() && c.failed == old(c.failed)
      invariant Walked(c.blocks, seed, n, existing)
      decreases |Beyond(c.blocks, seed, n)|
    {
      next := Built(seed, n + 1);
      var found, live, compacted := c.BlockMeta(next);
      if !found { return false, next, existing; }
      WalkOn(c.blocks, seed, n, existing);
      if !live && !compacted { return true, next, existing; }
      if live { existing := existing + [next]; }
      n := n + 1;
    }
  }

  /** What a tenant's store keeps: the offsets pushed to it and the block it may have to release. */
  datatype TenantStore = TenantStore(live: set<Offset>, noCompactBlockID: Option<BlockId>)

  class SectionWriter {
    const partition: Partition
    const start: Offset
    var m: map<Tenant, TenantStore>

    constructor (p: Partition, start: Offset)
      ensures partition == p && this.start == start && m == map[]
    {
      partition, this.start, m := p, start, map[];
    }

    /** pushBytes, including instanceForTenant. */
    method Push(r: Record)
      modifies this
      ensures m == old(m)[r.tenant := TenantStore(
                  (if r.tenant in old(m) then old(m)[r.tenant].live else {}) + {r.offset},
                  if r.tenant in old(m) then old(m)[r.tenant].noCompactBlockID else None)]
    {
      if r.tenant !in m { m := m[r.tenant := TenantStore({}, None)]; }
      m := m[r.tenant := m[r.tenant].(live := m[r.tenant].live + {r.offset})];
    }

    /** The writer holds tenant t's part of the section its owner is flushing. */
    ghost predicate Holds(c: Cluster, t: Tenant)
      reads this, c
    {
      && InFlush(c.state, partition, t) && t in m
      && WorkerOf(c.state, partition).start == start
      && (set o | o in m[t].live :: Rec(partition, o)) == SectionRecs(c.log, t, partition, start, WorkerOf(c.state, partition).end)
    }

    /** Marks what an earlier attempt left behind, one block at a time. */
    method MarkExisting(c: Cluster, t: Tenant, existing: seq<BlockId>, next: BlockId) returns (ok: bool)
      requires c.Valid() && InFlush(c.state, partition, t)
      requires WorkerOf(c.state, partition).tenants[t] == Marking(existing, next)
      modifies c
      ensures c.Valid() && old(c.run) <= c.run
      ensures (if ok then c.failed == old(c.failed) else c.failed > old(c.failed))
      ensures c.state.committed == old(c.state).committed
      ensures ok ==> c.state.workers == SetTenant(old(c.state), partition, t, Marking([], next)).workers
    {
      ghost var s0 := c.state;
      SetTenantSame(s0, partition, t);
      var i := 0;
      while i < |existing|
        invariant 0 <= i <= |existing|
        invariant c.Valid() && old(c.run) <= c.run
        invariant c.failed == old(c.failed)
        invariant c.state.committed == s0.committed
        invariant c.state.workers == SetTenant(s0, partition, t, Marking(existing[i..], next)).workers
      {
        ghost var s := c.state;
        RunInv(c.log, c.run);
        MarkTargetStored(c.log, s, partition, t);
        var marked := c.MarkBlockCompacted(partition, t, existing[i]);
        if !marked { return false; }
        assert existing[i..][1..] == existing[i + 1..];
        SetTenantTwice(s0, s, partition, t, Marking(existing[i..], next), Marking(existing[i + 1..], next));
        i := i + 1;
      }
      assert existing[i..] == [];
      ok := true;
    }

    /** Flush of one tenant: mark what an earlier attempt left, then write the block. */
    method FlushTenant(c: Cluster, t: Tenant) returns (ok: bool)
      requires c.Valid() && Holds(c, t) && WorkerOf(c.state, partition).tenants[t] == Waiting
      modifies this, c
      ensures c.Valid() && old(c.run) <= c.run
      ensures (if ok then c.failed == old(c.failed) else c.failed > old(c.failed))
      ensures c.state.committed == old(c.state.committed)
      ensures m.Keys == old(m.Keys) && m[t].live == old(m[t].live)
      ensures forall u :: u in old(m) && u != t ==> m[u] == old(m[u])
      ensures ok ==> m[t].noCompactBlockID.Some?
                     && c.state.workers == SetTenant(old(c.state), partition, t, Written(m[t].noCompactBlockID.value)).workers
    {
      ghost var s0 := c.state;
      var found, next, existing := DetermineBlockIDs(c, Seed(t, partition, start));
      if !found { return false; }
      c.Note(Determine(partition, t, existing, next));
      ghost var s1 := c.state;
      ok := MarkExisting(c, t, existing, next);
      if !ok { return; }
      SetTenantTwice(s0, s1, partition, t, Marking(existing, next), Marking([], next));
      ghost var s2 := c.state;
      var recs := set o | o in m[t].live :: Rec(partition, o);
      ok := c.Write(partition, t, next, recs);
      SetTenantTwice(s0, s2, partition, t, Marking([], next), Written(next));
      if ok { m := m[t := m[t].(noCompactBlockID := Some(next))]; }
    }

    /** Every tenant of the section is held, and none has been flushed. */
    ghost predicate Ready(c: Cluster)
      reads this, c
    {
      && WorkerOf(c.state, partition).Flushing? && WorkerOf(c.state, partition).start == start
      && WorkerOf(c.state, partition).tenants.Keys == m.Keys
      && forall t :: t in m ==> Holds(c, t) && WorkerOf(c.state, partition).tenants[t] == Waiting
    }

    /** Tenant t's block is written and remembered for release. */
    ghost predicate HoldsWritten(c: Cluster, t: Tenant)
      reads this, c
    {
      && InFlush(c.state, partition, t) && t in m && m[t].noCompactBlockID.Some?
      && WorkerOf(c.state, partition).tenants[t] == Written(m[t].noCompactBlockID.value)
    }

    /** flush: every tenant, in any order. On success the section can be committed. */
    method Flush(c: Cluster) returns (ok: bool)
      requires c.Valid() && Ready(c)
      modifies this, c
      ensures c.Valid() && old(c.run) <= c.run
      ensures (if ok then c.failed == old(c.failed) else c.failed > old(c.failed))
      ensures c.state.committed == old(c.state.committed)
      ensures m.Keys == old(m.Keys)
      ensures ok ==> Enabled(c.log, c.state, Commit(partition))
                     && WorkerOf(c.state, partition).start == start
                     && WorkerOf(c.state, partition).end == old(WorkerOf(c.state, partition).end)
                     && WorkerOf(c.state, partition).tenants.Keys == m.Keys
                     && forall t :: t in m ==> HoldsWritten(c, t)
    {
      var todo := m.Keys;
      while todo != {}
        invariant c.Valid() && old(c.run) <= c.run
        invariant c.failed == old(c.failed)
        invariant c.state.committed == old(c.state.committed)
        invariant todo <= m.Keys
        invariant m.Keys == old(m.Keys)
        invariant WorkerOf(c.state, partition).Flushing? && WorkerOf(c.state, partition).start == old(WorkerOf(c.state, partition).start)
        invariant WorkerOf(c.state, partition).end == old(WorkerOf(c.state, partition).end)
        invariant WorkerOf(c.state, partition).tenants.Keys == m.Keys
        invariant forall t :: t in todo ==> Holds(c, t) && WorkerOf(c.state, partition).tenants[t] == Waiting
        invariant forall t :: t in m && t !in todo ==> HoldsWritten(c, t)
        decreases todo
      {
        var t :| t in todo;
        ghost var before := WorkerOf(c.state, partition);
        var flushed := FlushTenant(c, t);
        if !flushed { return false; }
        assert WorkerOf(c.state, partition) ==
               before.(tenants := before.tenants[t := Written(m[t].noCompactBlockID.value)]);
        todo := todo - {t};
      }
      ok := true;
    }

    /** The tenants whose written block has still to be released. */
    ghost function Left(): set<Tenant>
      reads this
    {
      set t | t in m && m[t].noCompactBlockID.Some?
    }

    /** The writer remembers each written block, and each still carries its flag. */
    ghost predicate Remembers(blocks: Blocks, ids: map<Tenant, BlockId>)
      reads this
    {
      && ids.Keys == m.Keys
      && forall t :: t in m ==> m[t].noCompactBlockID == Some(ids[t]) && ids[t] in blocks && blocks[ids[t]].flagged
    }

    /** tenantStore.AllowCompaction. */
    method ReleaseTenant(c: Cluster, t: Tenant) returns (deleted: bool)
      requires c.Valid() && t in m && m[t].noCompactBlockID.Some? && MayRelease(c, t, m[t].noCompactBlockID.value)
      modifies this, c
      ensures c.Valid() && old(c.run) <= c.run && c.failed == old(c.failed) + (if deleted then 0 else 1)
      ensures c.state.committed == old(c.state.committed) && c.state.workers == old(c.state.workers)
      ensures m == if deleted then old(m)[t := old(m[t]).(noCompactBlockID := None)] else old(m)
      ensures Left() == (if deleted then old(Left()) - {t} else old(Left())) && t in old(Left())
      ensures |Left()| == |old(Left())| - (if deleted then 1 else 0)
      ensures var id := old(m[t]).noCompactBlockID.value;
              c.blocks == if deleted then old(c.blocks)[id := old(c.blocks[id]).(flagged := false)] else old(c.blocks)
    {
      deleted := c.DeleteNoCompactFlag(partition, t, m[t].noCompactBlockID.value);
      if deleted {
        m := m[t := m[t].(noCompactBlockID := None)];
        assert Left() == old(Left()) - {t};
      }
    }

    ghost predicate MayRelease(c: Cluster, t: Tenant, id: BlockId)
      reads this, c
    {
      && WorkerOf(c.state, partition).Releasing? && t in WorkerOf(c.state, partition).ids
      && WorkerOf(c.state, partition).ids[t] == id && id in c.blocks
    }

    /** Between two releases: `todo` have still to be tried, and of the others each failure has left one over. */
    ghost predicate Midway(c: Cluster, ids: map<Tenant, BlockId>, todo: set<Tenant>, blocks0: Blocks, failed0: nat)
      reads this, c
    {
      && WorkerOf(c.state, partition) == Releasing(ids)
      && m.Keys == ids.Keys && todo <= Left()
      && (forall t :: t in todo ==> m[t].noCompactBlockID == Some(ids[t]) && ids[t] in c.blocks)
      && |Left()| == |todo| + c.failed - failed0
      && Released(blocks0, c.blocks, ids, Left())
    }

    method ReleaseNext(c: Cluster, t: Tenant, ghost ids: map<Tenant, BlockId>, ghost todo: set<Tenant>,
                       ghost blocks0: Blocks, ghost failed0: nat)
      requires c.Valid() && t in todo && DistinctIds(ids) && Midway(c, ids, todo, blocks0, failed0)
      modifies this, c
      ensures c.Valid() && old(c.run) <= c.run
      ensures c.state.committed == old(c.state.committed) && c.state.workers == old(c.state.workers)
      ensures Midway(c, ids, todo - {t}, blocks0, failed0)
    {
      ghost var before, left, rest := c.blocks, Left(), todo - {t};
      assert |rest| == |todo| - 1;
      var deleted := ReleaseTenant(c, t);
      if deleted { ReleaseOne(blocks0, before, c.blocks, ids, left, t); }
    }

    /**
     allowCompaction: best effort, after the offset is committed. A tenant is left over exactly when the
     deletion of its flag failed, and no other block is touched.
     */
    method AllowCompaction(c: Cluster)
      requires c.Valid() && WorkerOf(c.state, partition).Releasing?
      requires Remembers(c.blocks, WorkerOf(c.state, partition).ids)
      requires DistinctIds(WorkerOf(c.state, partition).ids)
      modifies this, c
      ensures c.Valid() && old(c.run) <= c.run
      ensures c.state.committed == old(c.state.committed) && c.state.workers == old(c.state.workers)
      ensures m.Keys == old(m.Keys)
      ensures |Left()| == c.failed - old(c.failed)
      ensures Left() <= m.Keys && Released(old(c.blocks), c.blocks, old(WorkerOf(c.state, partition).ids), Left())
    {
      var todo := m.Keys;
      ghost var ids := WorkerOf(c.state, partition).ids;
      assert Left() == todo;
      while todo != {}
        invariant c.Valid() && old(c.run) <= c.run
        invariant c.state.committed == old(c.state.committed) && c.state.workers == old(c.state.workers)
        invariant Midway(c, ids, todo, old(c.blocks), old(c.failed))
        decreases todo
      {
        var t :| t in todo;
        ReleaseNext(c, t, ids, todo, old(c.blocks), old(c.failed));
        todo := todo - {t};
      }
    }
  }

  ghost predicate DistinctIds(ids: map<Tenant, BlockId>) {
    forall t, u :: t in ids && u in ids && ids[t] == ids[u] ==> t == u
  }

  /** `after` is `before` with the flag removed from the blocks of all tenants but those `left` over. */
  ghost predicate Released(before: Blocks, after: Blocks, ids: map<Tenant, BlockId>, left: set<Tenant>) {
    && after.Keys == before.Keys
    && (forall t :: t in ids && ids[t] in before ==>
          after[ids[t]] == if t in left then before[ids[t]] else before[ids[t]].(flagged := false))
    && (forall id :: id in before && id !in ids.Values ==> after[id] == before[id])
  }

  lemma ReleaseOne(b0: Blocks, b1: Blocks, b2: Blocks, ids: map<Tenant, BlockId>, left: set<Tenant>, t: Tenant)
    requires Released(b0, b1, ids, left) && DistinctIds(ids)
    requires t in ids && t in left && ids[t] in b1
    requires b2 == b1[ids[t] := b1[ids[t]].(flagged := false)]
    ensures Released(b0, b2, ids, left - {t})
  {
  }

  /** The tenants of `ids` whose block no compactor may take yet. */
  ghost function Withheld(blocks: Blocks, ids: map<Tenant, BlockId>): set<Tenant> {
    set t | t in ids && ids[t] in blocks && blocks[ids[t]].flagged
  }

  lemma WithheldAreLeft(before: Blocks, after: Blocks, ids: map<Tenant, BlockId>, left: set<Tenant>)
    requires DistinctIds(ids) && left <= ids.Keys && Released(before, after, ids, left)
    requires forall t :: t in ids ==> ids[t] in before && before[ids[t]].flagged
    ensures Withheld(after, ids) == left
  {
  }

  lemma SetTenantSame(s: State, p: Partition, t: Tenant)
    requires InFlush(s, p, t)
    ensures SetTenant(s, p, t, WorkerOf(s, p).tenants[t]).workers == s.workers
  {
    var w := WorkerOf(s, p);
    assert w.tenants[t := w.tenants[t]] == w.tenants;
    assert s.workers[p := w] == s.workers;
  }

  lemma SetTenantTwice(s0: State, s: State, p: Partition, t: Tenant, f: TenantFlush, g: TenantFlush)
    requires InFlush(s0, p, t) && s.workers == SetTenant(s0, p, t, f).workers
    ensures SetTenant(s, p, t, g).workers == SetTenant(s0, p, t, g).workers
  {
    var w := WorkerOf(s0, p);
    assert w.tenants[t := f][t := g] == w.tenants[t := g];
  }

  /** What is still to be marked is in the store, so the next mark can be attempted. */
  lemma MarkTargetStored(log: Log, s: State, p: Partition, t: Tenant)
    requires Inv(log, s) && InFlush(s, p, t)
    requires WorkerOf(s, p).tenants[t].Marking? && WorkerOf(s, p).tenants[t].todo != []
    ensures Enabled(log, s, MarkCompacted(p, t))
  {
    var w := WorkerOf(s, p);
    assert GoodWorker(log, s, p);
    assert GoodFlush(log, s, p, t, w.start, w.end, w.tenants[t]);
    assert w.tenants[t].todo[0] in w.tenants[t].todo;
  }

  // ------------------------------------------------------- one partition cycle

  /** What has been polled when the loop stops asking: everything before the first empty poll. */
  function Polled(fetches: seq<Fetch>): seq<Record> {
    if |fetches| == 0 || !fetches[0].Records? then []
    else fetches[0].rs + Polled(fetches[1..])
  }

  /** What is polled is all records of the polls before the first one that brings none, in order. */
  lemma {:induction false} PolledIsEverything(before: seq<Fetch>, next: Fetch, rest: seq<Fetch>)
    requires forall f :: f in before ==> f.Records?
    ensures next.Records? ==> Polled(before + [next]) == Polled(before) + next.rs
    ensures !next.Records? ==> Polled(before + [next] + rest) == Polled(before)
    ensures Polled([]) == []
  {
    if |before| == 0 {
      assert before + [next] == [next] && [next][1..] == [];
      assert before + [next] + rest == [next] + rest;
    } else {
      var tail := before[1..];
      PolledIsEverything(tail, next, rest);
      assert (before + [next])[1..] == tail + [next];
      assert (before + [next] + rest)[1..] == tail + [next] + rest;
    }
  }

  /** The writer holds exactly the records seen so far. */
  ghost predicate Collected(w: SectionWriter, rs: seq<Record>)
    reads w
  {
    && w.m.Keys == Tenants(rs)
    && forall t :: t in w.m ==> w.m[t] == TenantStore(Offsets(rs, t), None)
  }

  lemma CollectOne(rs: seq<Record>, r: Record)
    ensures Tenants(rs + [r]) == Tenants(rs) + {r.tenant}
    ensures forall t :: Offsets(rs + [r], t) == if t == r.tenant then Offsets(rs, t) + {r.offset} else Offsets(rs, t)
  {
    var all := rs + [r];
    assert all[|rs|] == r;
    forall i | 0 <= i < |rs| ensures all[i] == rs[i] {}
    forall t | t in Tenants(rs) ensures t in Tenants(all) {
      var i :| 0 <= i < |rs| && rs[i].tenant == t;
      assert all[i].tenant == t;
    }
    forall t, o | o in Offsets(rs, t) ensures o in Offsets(all, t) {
      var i :| 0 <= i < |rs| && rs[i].tenant == t && rs[i].offset == o;
      assert all[i].tenant == t && all[i].offset == o;
    }
  }

  /** The loop's variables agree with the records taken so far, and the section is still open. */
  ghost predicate Gathering(p: Partition, duration: nat, maxBytes: nat, taken: seq<Record>,
                            w: SectionWriter?, lastRec: Option<Record>, consumed: nat, end: int)
    reads w
  {
    && SectionLength(taken, duration, maxBytes) == |taken|
    && consumed == Bytes(taken)
    && (|taken| == 0 ==> lastRec == None)
    && (|taken| > 0 ==>
          && !Full(taken, maxBytes)
          && lastRec == Some(taken[|taken| - 1])
          && end == taken[0].time + duration
          && Holding(p, taken, w))
  }

  ghost predicate Holding(p: Partition, taken: seq<Record>, w: SectionWriter?)
    requires |taken| > 0
    reads w
  {
    w != null && w.partition == p && w.start == taken[0].offset && Collected(w, taken)
  }

  /** `taken` is the section that the cut rule selects from `all`. */
  ghost predicate IsSection(taken: seq<Record>, all: seq<Record>, duration: nat, maxBytes: nat) {
    taken == all[..SectionLength(all, duration, maxBytes)]
  }

  /** The section, and it ends before the delivery does or at the budget. */
  ghost predicate IsCut(taken: seq<Record>, all: seq<Record>, duration: nat, maxBytes: nat) {
    IsSection(taken, all, duration, maxBytes) && 0 < |taken| && (|taken| == |all| ==> Full(all, maxBytes))
  }

  /** One record of the inner loop: how the section's length moves, and when it is final. */
  lemma TakeOne(all: seq<Record>, n: nat, duration: nat, maxBytes: nat)
    requires n < |all|
    requires SectionLength(all[..n], duration, maxBytes) == n && (n > 0 ==> !Full(all[..n], maxBytes))
    ensures Bytes(all[..n + 1]) == Bytes(all[..n]) + all[n].size
    ensures var late := all[0].time + duration < all[n].time;
            && SectionLength(all[..n + 1], duration, maxBytes) == (if late then n else n + 1)
            && (late ==> IsCut(all[..n], all, duration, maxBytes))
            && (!late && Full(all[..n + 1], maxBytes) ==> IsCut(all[..n + 1], all, duration, maxBytes))
  {
    var longer := all[..n + 1];
    assert longer[..n] == all[..n];
    if SectionLength(longer, duration, maxBytes) < n + 1 || Full(longer, maxBytes) {
      SectionStaysCut(all, n + 1, duration, maxBytes);
    }
  }

  method PushOn(w: SectionWriter, ghost p: Partition, ghost all: seq<Record>, ghost n: nat, rec: Record)
    requires n < |all| && all[n] == rec
    requires w.partition == p && w.start == all[0].offset && Collected(w, all[..n])
    modifies w
    ensures Holding(p, all[..n + 1], w)
  {
    CollectOne(all[..n], rec);
    assert all[..n] + [rec] == all[..n + 1];
    w.Push(rec);
  }

  /** One record: start the section if it is the first, stop if it is too late, else take it and stop if it fills the budget. */
  method TakeRecord(p: Partition, duration: nat, maxBytes: nat, ghost all: seq<Record>, ghost n: nat,
                    w0: SectionWriter?, last0: Option<Record>, consumed0: nat, end0: int, rec: Record)
    returns (stop: bool, w: SectionWriter?, lastRec: Option<Record>, consumed: nat, end: int, ghost taken: seq<Record>)
    requires n < |all| && all[n] == rec
    requires Gathering(p, duration, maxBytes, all[..n], w0, last0, consumed0, end0)
    modifies w0
    ensures if n > 0 then w == w0 else w != null && fresh(w)
    ensures !stop ==> taken == all[..n + 1] && Gathering(p, duration, maxBytes, taken, w, lastRec, consumed, end)
    ensures stop ==> IsCut(taken, all, duration, maxBytes)
                     && |taken| > 0 && lastRec == Some(taken[|taken| - 1]) && Holding(p, taken, w)
  {
    TakeOne(all, n, duration, maxBytes);
    w, lastRec, consumed, end, taken := w0, last0, consumed0, end0, all[..n];
    if last0.None? {
      end := rec.time + duration;
      w := new SectionWriter(p, rec.offset);
    }
    if rec.time > end {
      stop := true;
    } else {
      PushOn(w, p, all, n, rec);
      lastRec, consumed, taken := Some(rec), consumed + rec.size, all[..n + 1];
      stop := maxBytes > 0 && consumed >= maxBytes;
    }
  }

  /** The records of one poll. Stops at the cut, which no later record moves. */
  method CollectFetch(p: Partition, duration: nat, maxBytes: nat, rs: seq<Record>, ghost all: seq<Record>, ghost n0: nat,
                      w0: SectionWriter?, last0: Option<Record>, consumed0: nat, end0: int)
    returns (stop: bool, w: SectionWriter?, lastRec: Option<Record>, consumed: nat, end: int, ghost taken: seq<Record>)
    requires n0 + |rs| <= |all| && rs == all[n0..n0 + |rs|]
    requires Gathering(p, duration, maxBytes, all[..n0], w0, last0, consumed0, end0)
    modifies w0
    ensures w == w0 || (w != null && fresh(w) && n0 == 0)
    ensures !stop ==> taken == all[..n0 + |rs|] && Gathering(p, duration, maxBytes, taken, w, lastRec, consumed, end)
    ensures stop ==> IsCut(taken, all, duration, maxBytes)
                     && |taken| > 0 && lastRec == Some(taken[|taken| - 1]) && Holding(p, taken, w)
  {
    w, lastRec, consumed, end, taken := w0, last0, consumed0, end0, all[..n0];
    stop := false;
    var j := 0;
    while j < |rs|
      invariant 0 <= j <= |rs|
      invariant taken == all[..n0 + j]
      invariant Gathering(p, duration, maxBytes, taken, w, lastRec, consumed, end)
      invariant w == w0 || (w != null && fresh(w) && n0 == 0)
      invariant n0 + j == 0 ==> w == w0
    {
      stop, w, lastRec, consumed, end, taken :=
        TakeRecord(p, duration, maxBytes, all, n0 + j, w, lastRec, consumed, end, rs[j]);
      if stop { return; }
      j := j + 1;
    }
  }

  lemma PolledStep(fetches: seq<Fetch>, f: nat, all: seq<Record>, n: nat)
    requires f < |fetches| && fetches[f].Records? && n <= |all| && Polled(fetches[f..]) == all[n..]
    ensures var k := n + |fetches[f].rs|;
            k <= |all| && fetches[f].rs == all[n..k] && Polled(fetches[f + 1..]) == all[k..]
  {
    assert fetches[f..][1..] == fetches[f + 1..];
    var rs, rest := fetches[f].rs, Polled(fetches[f + 1..]);
    assert all[n..] == rs + rest;
    assert all[n..][..|rs|] == rs && all[n..][|rs|..] == rest;
  }

  /** The first poll that brings no records fails, and the section is still open when it does. */
  predicate PollFails(fetches: seq<Fetch>, duration: nat, maxBytes: nat) {
    && SectionLength(Polled(fetches), duration, maxBytes) == |Polled(fetches)|
    && !(|Polled(fetches)| > 0 && Full(Polled(fetches), maxBytes))
    && exists f :: 0 <= f < |fetches| && fetches[f] == Failed && forall i :: 0 <= i < f ==> fetches[i].Records?
  }

  /** A section that was cut: what is left out, or the budget, says why. */
  lemma CutIsClosed(all: seq<Record>, taken: seq<Record>, fetches: seq<Fetch>, duration: nat, maxBytes: nat)
    requires all == Polled(fetches) && IsCut(taken, all, duration, maxBytes)
    ensures !PollFails(fetches, duration, maxBytes)
  {
  }

  lemma UnansweredAt(fetches: seq<Fetch>, f: nat)
    requires f <= |fetches| && (forall i :: 0 <= i < f ==> fetches[i].Records?) && (f < |fetches| ==> !fetches[f].Records?)
    ensures (exists k :: 0 <= k < |fetches| && fetches[k] == Failed && forall i :: 0 <= i < k ==> fetches[i].Records?)
            <==> f < |fetches| && fetches[f] == Failed
  {
  }

  /** The polling loop of consumePartition: gather records until the section is cut or nothing more arrives. */
  method Collect(p: Partition, fetches: seq<Fetch>, duration: nat, maxBytes: nat)
    returns (failed: bool, w: SectionWriter?, lastRec: Option<Record>, ghost taken: seq<Record>)
    ensures failed <==> PollFails(fetches, duration, maxBytes)
    ensures !failed ==> IsSection(taken, Polled(fetches), duration, maxBytes)
    ensures !failed && |taken| == 0 ==> lastRec == None
    ensures !failed && |taken| > 0 ==> lastRec == Some(taken[|taken| - 1]) && Holding(p, taken, w) && fresh(w)
  {
    ghost var all := Polled(fetches);
    failed, w, lastRec, taken := false, null, None, all[..0];
    var consumed: nat, end: int, f: nat := 0, 0, 0;
    ghost var n: nat := 0;
    while f < |fetches| && fetches[f].Records?
      invariant 0 <= f <= |fetches|
      invariant n <= |all| && taken == all[..n]
      invariant Polled(fetches[f..]) == all[n..]
      invariant forall i :: 0 <= i < f ==> fetches[i].Records?
      invariant Gathering(p, duration, maxBytes, taken, w, lastRec, consumed, end)
      invariant w != null ==> fresh(w)
    {
      PolledStep(fetches, f, all, n);
      var stop;
      stop, w, lastRec, consumed, end, taken :=
        CollectFetch(p, duration, maxBytes, fetches[f].rs, all, n, w, lastRec, consumed, end);
      if stop {
        CutIsClosed(all, taken, fetches, duration, maxBytes);
        return;
      }
      n := n + |fetches[f].rs|;
      f := f + 1;
    }
    UnansweredAt(fetches, f);
    failed := f < |fetches| && fetches[f] == Failed;
    assert |all[n..]| == 0 && all[..n] == all;
  }

  /** Every tenant of the section has a live block of its own under `ids`, with exactly that tenant's records. */
  ghost predicate Stored(log: Log, blocks: Blocks, p: Partition, start: Offset, end: Offset, ids: map<Tenant, BlockId>) {
    forall t :: t in ids ==>
      && ids[t].Built? && ids[t].seed == Seed(t, p, start) && ids[t] in blocks
      && blocks[ids[t]].status == Live && blocks[ids[t]].recs == SectionRecs(log, t, p, start, end)
  }

  /** What a successful flush leaves in the store. */
  lemma FlushedIsStored(c: Cluster, w: SectionWriter, ids: map<Tenant, BlockId>)
    requires c.Valid() && WorkerOf(c.state, w.partition).Flushing?
    requires forall t :: t in w.m ==> w.HoldsWritten(c, t)
    requires ids == map t | t in w.m && w.m[t].noCompactBlockID.Some? :: w.m[t].noCompactBlockID.value
    ensures var f := WorkerOf(c.state, w.partition);
            Stored(c.log, c.blocks, w.partition, f.start, f.end, ids)
    ensures DistinctIds(ids) && w.Remembers(c.blocks, ids)
  {
    RunInv(c.log, c.run);
    var f := WorkerOf(c.state, w.partition);
    assert GoodWorker(c.log, c.state, w.partition);
    forall t | t in w.m ensures GoodFlush(c.log, c.state, w.partition, t, f.start, f.end, f.tenants[t]) {
      assert w.HoldsWritten(c, t);
    }
  }

  /** The last leg: the offset is committed, and the blocks may be released. */
  method Release(c: Cluster, w: SectionWriter, ghost start: Offset, ghost end: Offset, ghost ids: map<Tenant, BlockId>)
    requires c.Valid() && WorkerOf(c.state, w.partition) == Releasing(ids)
    requires DistinctIds(ids) && w.Remembers(c.blocks, ids) && Stored(c.log, c.blocks, w.partition, start, end, ids)
    modifies c, w
    ensures c.Valid() && old(c.run) <= c.run && WorkerOf(c.state, w.partition) == Idle
    ensures c.committed == old(c.committed)
    ensures Stored(c.log, c.blocks, w.partition, start, end, ids) && |Withheld(c.blocks, ids)| == c.failed - old(c.failed)
  {
    w.AllowCompaction(c);
    WithheldAreLeft(old(c.blocks), c.blocks, ids, w.Left());
    c.Note(Finish(w.partition));
  }

  /** The middle leg: write every tenant's block, then commit the offset. */
  method WriteAndCommit(c: Cluster, w: SectionWriter, at: Offset) returns (ok: bool, ghost ids: map<Tenant, BlockId>)
    requires c.Valid() && w.Ready(c) && at == WorkerOf(c.state, w.partition).end
    modifies c, w
    ensures c.Valid() && old(c.run) <= c.run && (if ok then c.failed == old(c.failed) else c.failed > old(c.failed))
    ensures c.committed == if ok then old(c.committed)[w.partition := at] else old(c.committed)
    ensures ok ==> ids.Keys == old(w.m.Keys) && WorkerOf(c.state, w.partition) == Releasing(ids)
    ensures ok ==> DistinctIds(ids) && w.Remembers(c.blocks, ids) && Stored(c.log, c.blocks, w.partition, w.start, at, ids)
  {
    ok := w.Flush(c);
    ids := map t | t in w.m && w.m[t].noCompactBlockID.Some? :: w.m[t].noCompactBlockID.value;
    if ok {
      ghost var s := c.state;
      FlushedIsStored(c, w, ids);
      ok := c.CommitOffset(w.partition, at);
      if ok { CommittedIds(c, s, w, ids); }
    }
  }

  lemma CommittedIds(c: Cluster, s: State, w: SectionWriter, ids: map<Tenant, BlockId>)
    requires Enabled(c.log, s, Commit(w.partition)) && c.state == Apply(c.log, s, Commit(w.partition))
    requires WorkerOf(s, w.partition).tenants.Keys == ids.Keys
    requires forall t :: t in ids ==> WorkerOf(s, w.partition).tenants[t] == Written(ids[t])
    ensures WorkerOf(c.state, w.partition) == Releasing(ids)
  {
    assert WorkerOf(c.state, w.partition).ids == ids;
  }

  /**
   From a read section to a released one: flush, commit, allow compaction. It fails only if an operation
   fails; on success every tenant's block stands, and one tenant is withheld per failed operation.
   */
  method FinishSection(c: Cluster, w: SectionWriter, at: Offset) returns (ok: bool, ghost ids: map<Tenant, BlockId>)
    requires c.Valid() && w.Ready(c) && at == WorkerOf(c.state, w.partition).end
    modifies c, w
    ensures c.Valid() && old(c.run) <= c.run && WorkerOf(c.state, w.partition) == Idle
    ensures c.committed == if ok then old(c.committed)[w.partition := at] else old(c.committed)
    ensures !ok ==> c.failed > old(c.failed)
    ensures ok ==> ids.Keys == old(w.m.Keys) && Stored(c.log, c.blocks, w.partition, w.start, at, ids)
                   && |Withheld(c.blocks, ids)| == c.failed - old(c.failed)
  {
    ok, ids := WriteAndCommit(c, w, at);
    if ok { Release(c, w, w.start, at, ids); } else { c.Note(Crash(w.partition)); }
  }

  /** A collected section, once its read is noted, is ready to be flushed. */
  lemma ReadMakesReady(c: Cluster, w: SectionWriter, s0: State, taken: seq<Record>)
    requires c.Valid() && |taken| > 0 && Holding(w.partition, taken, w)
    requires Delivers(c.log, w.partition, Committed(s0, w.partition), taken)
    requires var read := Read(w.partition, taken[0].offset, taken[|taken| - 1].offset + 1);
             Enabled(c.log, s0, read) && c.state == Apply(c.log, s0, read)
    ensures w.Ready(c)
  {
    SectionOfDelivery(c.log, w.partition, Committed(s0, w.partition), taken);
    forall t | t in w.m ensures w.Holds(c, t) {
      assert w.m[t].live == Offsets(taken, t);
    }
  }

  /** Each tenant of the section has a live block under `ids`, holding exactly the records it was sent. */
  ghost predicate SectionStored(blocks: Blocks, p: Partition, taken: seq<Record>, ids: map<Tenant, BlockId>) {
    && ids.Keys == Tenants(taken)
    && forall t :: t in ids ==> IsLive(blocks, ids[t]) && blocks[ids[t]].recs == (set o | o in Offsets(taken, t) :: Rec(p, o))
  }

  /**
   consumePartition. Whatever fails, and wherever, the store's history stays a run of the protocol. On
   success with data the committed offset moves to just past the last record of the section that the
   cut rule prescribes, each tenant's records are in a live block, and a block stays withheld from
   compaction only for each release that failed; otherwise the offset does not move. It gives up only if
   a poll or an operation failed.
   */
  method ConsumePartition(c: Cluster, p: Partition, fetches: seq<Fetch>, duration: nat, maxBytes: nat)
    returns (ok: bool, commitOffset: int, ghost ids: map<Tenant, BlockId>)
    requires c.Valid() && WorkerOf(c.state, p) == Idle
    requires Delivers(c.log, p, Committed(c.state, p), Polled(fetches))
    modifies c
    ensures c.Valid() && old(c.run) <= c.run && WorkerOf(c.state, p) == Idle
    ensures var taken := Polled(fetches)[..SectionLength(Polled(fetches), duration, maxBytes)];
            if ok && |taken| > 0
            then commitOffset == taken[|taken| - 1].offset + 1 && c.committed == old(c.committed)[p := commitOffset]
                 && SectionStored(c.blocks, p, taken, ids) && |Withheld(c.blocks, ids)| == c.failed - old(c.failed)
            else commitOffset == -1 && c.committed == old(c.committed)
    ensures !ok <==> PollFails(fetches, duration, maxBytes) || (commitOffset == -1 && c.failed > old(c.failed))
  {
    ghost var s0 := c.state;
    ids := map[];
    var failed, w, lastRec, taken := Collect(p, fetches, duration, maxBytes);
    if failed { return false, -1, ids; }
    if lastRec.None? { return true, -1, ids; }
    var at := lastRec.value.offset + 1;
    DeliversPrefix(c.log, p, Committed(s0, p), Polled(fetches), |taken|);
    assert w.start < at by { DeliveredSection(c.log, p, Committed(s0, p), taken); }
    c.Note(Read(p, w.start, at));
    ReadMakesReady(c, w, s0, taken);
    ok, ids := FinishSection(c, w, at);
    SectionOfDelivery(c.log, p, Committed(s0, p), taken);
    commitOffset := if ok then at else -1;
  }
}
