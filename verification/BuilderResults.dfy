/** What the block-builder protocol promises, in every run. */
module BuilderResults {
  import opened BuilderInvariant
  import opened BuilderProtocol

  /** In every run, an accepted record below the committed offset is in a live block. */
  lemma {:induction false} CommittedRecordsSurvive(log: Log, steps: seq<Step>, r: Rec)
    requires IsRun(log, steps)
    requires log(r.partition, r.offset).Some? && r.offset < Committed(Exec(log, steps), r.partition)
    ensures Covered(Exec(log, steps), r)
  {
    RunInv(log, steps);
  }

  /** In every run, a block that compaction may touch holds only committed records. */
  lemma {:induction false} CompactableIsCommitted(log: Log, steps: seq<Step>, id: BlockId)
    requires IsRun(log, steps)
    requires id in Exec(log, steps).blocks && !Exec(log, steps).blocks[id].flagged
    ensures forall r :: r in Exec(log, steps).blocks[id].recs ==> r.offset < Committed(Exec(log, steps), r.partition)
  {
    RunInv(log, steps);
    assert RecsCommitted(Exec(log, steps), Exec(log, steps).blocks[id].recs);
  }

  /** In every run, what a replay marks compacted is a live, flagged block with no committed record in it. */
  lemma {:induction false} ReplayNeverMarksCompactable(log: Log, steps: seq<Step>, p: Partition, t: Tenant)
    requires IsRun(log, steps) && Enabled(log, Exec(log, steps), MarkCompacted(p, t))
    ensures var s := Exec(log, steps);
            var id := WorkerOf(s, p).tenants[t].todo[0];
            && s.blocks[id].status == Live && s.blocks[id].flagged
            && forall r :: r in s.blocks[id].recs ==> Committed(s, r.partition) <= r.offset
  {
    RunInv(log, steps);
    MarkTarget(log, Exec(log, steps), p, t);
  }

  /** In every run, the used IDs of a sequence are a prefix of it and at most one of them is live. */
  lemma {:induction false} UsedIdsArePrefix(log: Log, steps: seq<Step>, seed: Seed)
    requires IsRun(log, steps)
    ensures var blocks := Exec(log, steps).blocks;
            && (forall j :: Built(seed, j) in blocks ==> 1 <= j)
            && (forall i, j :: 1 <= i <= j && Built(seed, j) in blocks ==> Built(seed, i) in blocks)
            && (forall i, j :: IsLive(blocks, Built(seed, i)) && IsLive(blocks, Built(seed, j)) ==> i == j)
  {
    var s := Exec(log, steps);
    RunInv(log, steps);
    forall j | Built(seed, j) in s.blocks ensures 1 <= j {
      assert GoodBuilt(log, s, Built(seed, j));
    }
    forall i, j | 1 <= i <= j && Built(seed, j) in s.blocks ensures Built(seed, i) in s.blocks {
      DownwardClosed(log, s, seed, i, j);
    }
    forall i, j | IsLive(s.blocks, Built(seed, i)) && IsLive(s.blocks, Built(seed, j)) ensures i == j {
      assert Built(seed, i) == Built(seed, j);
    }
  }

  /** A cleared ID is handed out again, and live blocks after it go unseen: why nothing uncommitted may be cleared. */
  lemma ClearedIdHidesLater(blocks: Blocks, seed: Seed, todo: seq<BlockId>, next: BlockId, j: nat, live: BlockId)
    requires j >= 1 && Built(seed, j) in blocks && blocks[Built(seed, j)].status == Cleared
    requires live.Built? && live.seed == seed && live.n > j
    requires Determined(blocks, seed, todo, next)
    ensures next.n <= j && live !in todo
  {
    if next.n > j { assert Free(blocks, Built(seed, j)); }
  }
}
