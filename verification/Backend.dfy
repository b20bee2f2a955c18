/**
 The methods that change backend blocks: compaction, redaction of one block, and retention. Each keeps a
 record of its effects as a run of BlockLifecycle, so what is proved of all runs holds of every order of
 effects these methods can produce, wherever they stop.
 */
module Backend {
  import opened BlockLifecycle
  import opened Options

  datatype Outcome = Done | Failed | MarkErrors(n: nat)

  function Union(blocks: seq<Block>, ids: seq<BlockId>): set<Trace>
    requires forall i :: 0 <= i < |ids| ==> ids[i] < |blocks|
  {
    set i, t | 0 <= i < |ids| && t in blocks[ids[i]].content :: t
  }

  function UnionOf(contents: seq<set<Trace>>): set<Trace> {
    set i, t | 0 <= i < |contents| && t in contents[i] :: t
  }

  /** An entry of the live block list, and one of the compacted list with the mark's recorded time. */
  datatype Listed = Listed(b: BlockId, end: int, owned: bool)
  datatype CompactedEntry = CompactedEntry(b: BlockId, recorded: nat, owned: bool)

  /** The compacted list names marked blocks, with a time no earlier than the mark. */
  predicate KnownMarked(blocks: seq<Block>, e: CompactedEntry) {
    e.b < |blocks| && !blocks[e.b].status.Live? && blocks[e.b].status.at <= e.recorded
  }

  /** The first n of the given blocks are live, and none of them is given twice. */
  predicate Markable(blocks: seq<Block>, ids: seq<BlockId>, n: nat)
    requires n <= |ids|
  {
    && (forall i :: 0 <= i < n ==> ids[i] < |blocks| && blocks[ids[i]].status.Live?)
    && (forall i, k :: 0 <= i < k < n ==> ids[i] != ids[k])
  }

  class Store {
    const cfg: Config
    var blocks: seq<Block>
    var now: nat
    ghost var run: seq<Step>

    /** How many backend operations have failed. */
    ghost var faults: nat

    ghost predicate Valid()
      reads this
    {
      IsRun(cfg, run) && blocks == Exec(cfg, run).blocks && now == Exec(cfg, run).now
    }

    ghost function Processes(): seq<Process>
      requires Valid()
      reads this
    {
      Exec(cfg, run).processes
    }

    constructor (cfg: Config)
      ensures Valid() && this.cfg == cfg && blocks == [] && run == []
    {
      this.cfg, blocks, now, run, faults := cfg, [], 0, [], 0;
    }

    /** One backend operation. */
    method Attempt() returns (ok: bool)
      modifies `faults
      ensures faults == if ok then old(faults) else old(faults) + 1
    {
      ok := *;
      if !ok { faults := faults + 1; }
    }

    /** Performs a step on the record. */
    ghost method Note(step: Step)
      requires IsRun(cfg, run) && Enabled(cfg, Exec(cfg, run), step)
      modifies `run
      ensures IsRun(cfg, run) && run == old(run) + [step]
      ensures Exec(cfg, run) == Apply(cfg, Exec(cfg, old(run)), step)
    {
      Extend(cfg, run, step);
      run := run + [step];
    }

    /** Writes one output block of the p-th process; false means the write failed. */
    method WriteOutput(ghost p: nat, content: set<Trace>) returns (ok: bool)
      requires Valid() && Enabled(cfg, Exec(cfg, run), Output(p, content))
      modifies `blocks, `run, `faults
      ensures Valid() && faults == old(faults) + (if ok then 0 else 1)
      ensures !ok ==> blocks == old(blocks) && Processes() == old(Processes())
      ensures ok ==> blocks == old(blocks) + [Block(content, Live, false)]
      ensures ok ==> Processes() == old(Processes())[p := old(Processes())[p].(outputs := old(Processes())[p].outputs + {|old(blocks)|})]
    {
      ok := Attempt();
      if ok {
        Note(Output(p, content));
        blocks := blocks + [Block(content, Live, false)];
      }
    }

    /** An operation succeeds exactly if the block is as it requires and the backend does not fail. */
    ghost predicate Tried(ok: bool, ready: bool, faults0: nat)
      reads this
    {
      faults0 <= faults <= faults0 + 1 && (ok <==> ready && faults == faults0)
    }

    /** MarkBlockCompacted on behalf of the p-th process: an error if the block is not live or the backend fails. */
    method MarkBlockCompacted(ghost p: nat, b: BlockId) returns (ok: bool)
      requires Valid() && b < |blocks| && p < |Processes()| && Processes()[p].written && b in Processes()[p].inputs
      modifies `blocks, `run, `faults
      ensures Valid() && Processes() == old(Processes()) && Tried(ok, old(blocks)[b].status.Live?, old(faults))
      ensures ok ==> blocks == old(blocks)[b := Block(old(blocks)[b].content, Compacted(now), old(blocks)[b].retired)]
      ensures !ok ==> blocks == old(blocks)
    {
      ok := Attempt();
      ok := ok && blocks[b].status.Live?;
      if ok {
        Note(Mark(p, b));
        blocks := blocks[b := Block(blocks[b].content, Compacted(now), blocks[b].retired)];
      }
    }

    /** Nothing but statuses from live to compacted has changed, and only for the given blocks. */
    ghost predicate OnlyMarked(before: seq<Block>, ids: seq<BlockId>)
      reads this
    {
      && |blocks| == |before|
      && forall b :: 0 <= b < |before| ==>
           && blocks[b].content == before[b].content
           && (blocks[b] == before[b] || (b in ids && before[b].status.Live? && blocks[b].status.Compacted?))
    }

    /** The given blocks that are live all the same. */
    ghost function StillLive(ids: seq<BlockId>): set<BlockId>
      reads this
    {
      set i | 0 <= i < |ids| && ids[i] < |blocks| && blocks[ids[i]].status.Live? :: ids[i]
    }

    /** The first n blocks have been tried: those left live have cost a failure each, and so has every error on a first try. */
    ghost predicate MarkedUpTo(before: seq<Block>, ids: seq<BlockId>, n: nat, errors: nat, faults0: nat, left: set<BlockId>)
      reads this
    {
      && n <= |ids| && (forall k :: 0 <= k < |ids| ==> ids[k] < |blocks|) && OnlyMarked(before, ids)
      && (forall b :: 0 <= b < |before| && blocks[b] != before[b] ==> exists k :: 0 <= k < n && ids[k] == b)
      && |left| <= faults - faults0
      && (forall k :: 0 <= k < n ==> !blocks[ids[k]].status.Live? || ids[k] in left)
      && (errors == 0 <==> faults == faults0 && Markable(before, ids, n))
      && (errors == 0 ==> forall k :: 0 <= k < n ==> blocks[ids[k]].status.Compacted?)
    }

    method MarkNth(ghost p: nat, ids: seq<BlockId>, n: nat, errors: nat, ghost before: seq<Block>, ghost faults0: nat, ghost left: set<BlockId>)
      returns (errors': nat, ghost left': set<BlockId>)
      requires Valid() && p < |Processes()| && Processes()[p].written
      requires n < |ids| && ids[n] in Processes()[p].inputs
      requires MarkedUpTo(before, ids, n, errors, faults0, left)
      modifies `blocks, `run, `faults
      ensures Valid() && Processes() == old(Processes())
      ensures errors' <= errors + 1 && MarkedUpTo(before, ids, n + 1, errors', faults0, left')
    {
      errors', left' := errors, left;
      var ok := MarkBlockCompacted(p, ids[n]);
      if !ok {
        errors' := errors + 1;
        if blocks[ids[n]].status.Live? { left' := left + {ids[n]}; }
      }
    }

    /**
     markCompacted: every block is tried, whatever happens to the others, so that each block left live has
     cost a failure; the errors are counted.
     */
    method MarkCompacted(ghost p: nat, ids: seq<BlockId>) returns (errors: nat)
      requires Valid() && p < |Processes()| && Processes()[p].written
      requires forall i :: 0 <= i < |ids| ==> ids[i] < |blocks| && ids[i] in Processes()[p].inputs
      modifies `blocks, `run, `faults
      ensures Valid() && Processes() == old(Processes()) && OnlyMarked(old(blocks), ids)
      ensures errors <= |ids| && faults >= old(faults) && |StillLive(ids)| <= faults - old(faults)
      ensures errors == 0 <==> faults == old(faults) && Markable(old(blocks), ids, |ids|)
      ensures errors == 0 ==> forall i :: 0 <= i < |ids| ==> blocks[ids[i]].status.Compacted?
    {
      errors := 0;
      var i := 0;
      ghost var left: set<BlockId> := {};
      while i < |ids|
        invariant 0 <= i <= |ids| && errors <= i
        invariant Valid() && Processes() == old(Processes())
        invariant MarkedUpTo(old(blocks), ids, i, errors, old(faults), left)
      {
        errors, left := MarkNth(p, ids, i, errors, old(blocks), old(faults), left);
        i := i + 1;
      }
      Fewer(StillLive(ids), left);
    }

    /**
     Compact: writes the encoder's output blocks one after another. `outs` is what the encoder makes of
     the inputs; that it neither loses nor invents a trace is assumed of it.
     */
    method WriteOutputs(ghost p: nat, outs: seq<set<Trace>>) returns (ok: bool)
      requires Valid() && p < |Processes()| && !Processes()[p].written && Processes()[p].outputs == {}
      requires forall i, t :: 0 <= i < |outs| && t in outs[i] ==> Keeps(Exec(cfg, run), Processes()[p], t)
      requires forall t :: Keeps(Exec(cfg, run), Processes()[p], t) ==> t in UnionOf(outs)
      modifies `blocks, `run, `faults
      ensures Valid() && old(blocks) <= blocks && |Processes()| == |old(Processes())|
      ensures Processes()[p].inputs == old(Processes())[p].inputs && Processes()[p].drop == old(Processes())[p].drop
      ensures faults == old(faults) + (if ok then 0 else 1)
      ensures ok ==> Processes()[p].written
      ensures ok ==> blocks == old(blocks) + seq(|outs|, i requires 0 <= i < |outs| => Block(outs[i], Live, false))
    {
      ghost var before := Exec(cfg, run);
      RunInv(cfg, run);
      assert GoodProcess(before, before.processes[p]);
      var i := 0;
      while i < |outs|
        invariant 0 <= i <= |outs| && Valid() && |Processes()| == |before.processes| && faults == old(faults)
        invariant blocks == before.blocks + seq(i, k requires 0 <= k < i => Block(outs[k], Live, false))
        invariant Processes()[p] == before.processes[p].(outputs := Processes()[p].outputs)
        invariant forall o :: o in Processes()[p].outputs <==> |before.blocks| <= o < |blocks|
      {
        KeepsIsStable(before, Exec(cfg, run), before.processes[p], Processes()[p]);
        ok := WriteOutput(p, outs[i]);
        if !ok { return; }
        i := i + 1;
      }
      KeepsIsStable(before, Exec(cfg, run), before.processes[p], Processes()[p]);
      forall t | Keeps(Exec(cfg, run), Processes()[p], t) ensures Wrote(Exec(cfg, run), Processes()[p], t) {
        var k :| 0 <= k < |outs| && t in outs[k];
        assert blocks[|before.blocks| + k] == Block(outs[k], Live, false);
        assert |before.blocks| + k in Processes()[p].outputs;
      }
      Note(BlockLifecycle.Written(p));
      ok := true;
    }

    /** CompactWithConfig and RedactBlock's rewrite: outputs first, and only then the inputs' marks. */
    method Rewrite(inputs: seq<BlockId>, ghost drop: set<Trace>, outs: seq<set<Trace>>) returns (written: bool, ghost p: nat)
      requires Valid() && forall i :: 0 <= i < |inputs| ==> inputs[i] < |blocks| && !blocks[inputs[i]].status.Cleared?
      requires UnionOf(outs) == Union(blocks, inputs) - drop
      modifies `blocks, `run, `faults
      ensures Valid() && old(blocks) <= blocks && p < |Processes()|
      ensures Processes()[p].inputs == (set i | 0 <= i < |inputs| :: inputs[i]) && Processes()[p].drop == drop
      ensures faults == old(faults) + (if written then 0 else 1)
      ensures written ==> Processes()[p].written
      ensures written ==> blocks == old(blocks) + seq(|outs|, i requires 0 <= i < |outs| => Block(outs[i], Live, false))
    {
      ghost var ids := set i | 0 <= i < |inputs| :: inputs[i];
      p := |Processes()|;
      Note(Begin(ids, drop));
      ghost var s := Exec(cfg, run);
      forall t ensures Keeps(s, Processes()[p], t) <==> t in UnionOf(outs) {
        if t in Union(blocks, inputs) {
          var i :| 0 <= i < |inputs| && t in blocks[inputs[i]].content;
          assert inputs[i] in ids;
        }
      }
      written := WriteOutputs(p, outs);
    }

    /** CompactWithConfig: refuses inputs that are gone, rewrites, then marks. */
    method CompactWithConfig(inputs: seq<BlockId>, outs: seq<set<Trace>>) returns (r: Outcome)
      requires Valid() && forall i :: 0 <= i < |inputs| ==> inputs[i] < |blocks|
      requires UnionOf(outs) == Union(blocks, inputs)
      modifies `blocks, `run, `faults
      ensures Valid() && |old(blocks)| <= |blocks|
      ensures forall b :: 0 <= b < |old(blocks)| ==> blocks[b].content == old(blocks)[b].content
      ensures forall b :: 0 <= b < |old(blocks)| && b !in inputs ==> blocks[b] == old(blocks)[b]
      ensures r == Failed ==> old(blocks) <= blocks
      ensures r != Failed && inputs != [] ==>
                blocks[|old(blocks)|..] == seq(|outs|, i requires 0 <= i < |outs| => Block(outs[i], Live, false))
      ensures r == Done ==> forall i :: 0 <= i < |inputs| ==> blocks[inputs[i]].status.Compacted?
      ensures faults >= old(faults)
      ensures r == Failed ==> faults > old(faults) || exists i :: 0 <= i < |inputs| && !old(blocks)[inputs[i]].status.Live?
      ensures (exists i :: 0 <= i < |inputs| && !old(blocks)[inputs[i]].status.Live?) ==> r == Failed && blocks == old(blocks)
      ensures r == Done <==> inputs == [] || (faults == old(faults) && Markable(old(blocks), inputs, |inputs|))
      ensures r.MarkErrors? ==> |StillLive(inputs)| <= faults - old(faults)
    {
      if |inputs| == 0 { return Done; }
      var i := 0;
      while i < |inputs|
        invariant 0 <= i <= |inputs|
        invariant forall k :: 0 <= k < i ==> blocks[inputs[k]].status.Live?
      {
        if !blocks[inputs[i]].status.Live? { return Failed; }
        i := i + 1;
      }
      ghost var p;
      var written;
      written, p := Rewrite(inputs, {}, outs);
      if !written { return Failed; }
      var errors := MarkCompacted(p, inputs);
      if errors > 0 { return MarkErrors(errors); }
      return Done;
    }

    /**
     RedactBlock once the traces to drop are known: (rewrote, found, new block). A dry run and an empty
     selection change nothing; otherwise the block's other traces are in a live block before it is marked.
     A block that another process has marked meanwhile can still be read, but not marked again.
     */
    method RedactBlock(b: BlockId, drop: set<Trace>, dryRun: bool, outs: seq<set<Trace>>)
      returns (rewrote: bool, found: nat, output: Option<BlockId>, failed: bool)
      requires Valid() && b < |blocks|
      requires drop <= blocks[b].content && UnionOf(outs) == blocks[b].content - drop
      modifies `blocks, `run, `faults
      ensures Valid() && |old(blocks)| <= |blocks|
      ensures forall c :: 0 <= c < |old(blocks)| && c != b ==> blocks[c] == old(blocks)[c]
      ensures blocks[b].content == old(blocks)[b].content
      ensures old(blocks)[b].status.Cleared? ==> failed
      ensures dryRun || drop == {} ==> blocks == old(blocks) && !rewrote && (failed <==> old(blocks)[b].status.Cleared?) && (!failed ==> found == |drop|)
      ensures failed ==> !rewrote && found == 0 && old(blocks) <= blocks
      ensures faults >= old(faults)
      ensures failed <==> old(blocks)[b].status.Cleared?
                          || (drop != {} && !dryRun
                              && (faults > old(faults) || !old(blocks)[b].status.Live? || (|outs| > 1 && old(blocks)[b].content != drop)))
      ensures if rewrote then old(blocks)[b].status.Live? && blocks[b].status.Compacted? else blocks[b] == old(blocks)[b]
      ensures rewrote ==> found == |drop|
      ensures rewrote <==> !failed && drop != {} && !dryRun
      ensures rewrote && output.Some? ==> |outs| == 1 && output.value == |old(blocks)| < |blocks| && blocks[output.value] == Block(old(blocks)[b].content - drop, Live, false)
      ensures rewrote && output.None? ==> old(blocks)[b].content == drop
    {
      rewrote, found, output, failed := false, 0, None, false;
      if blocks[b].status.Cleared? { return false, 0, None, true; }
      if drop == {} { return; }
      if dryRun { return false, |drop|, None, false; }
      assert Union(blocks, [b]) == blocks[b].content by {
        assert [b][0] == b;
      }
      ghost var p;
      var written;
      written, p := Rewrite([b], drop, outs);
      if !written { return false, 0, None, true; }
      SameSize(drop, blocks[b].content);
      if |outs| != 1 && |outs| != 0 && |blocks[b].content| != |drop| {
        return false, 0, None, true;
      }
      var ok := MarkBlockCompacted(p, b);
      if !ok { return false, 0, None, true; }
      if |outs| == 1 {
        assert UnionOf(outs) == outs[0];
        output := Some(|blocks| - 1);
      } else {
        assert |outs| == 0 ==> UnionOf(outs) == {};
        assert blocks[b].content == drop + (blocks[b].content - drop);
      }
      rewrote, found := true, |drop|;
    }

    method RetainOne(b: BlockId) returns (ok: bool)
      requires Valid() && b < |blocks|
      modifies `blocks, `run, `faults
      ensures Valid() && Tried(ok, old(blocks)[b].status.Live?, old(faults))
      ensures ok ==> blocks == old(blocks)[b := Block(old(blocks)[b].content, Compacted(now), true)]
      ensures !ok ==> blocks == old(blocks)
    {
      ok := Attempt();
      ok := ok && blocks[b].status.Live?;
      if ok {
        Note(Retain(b));
        blocks := blocks[b := Block(blocks[b].content, Compacted(now), true)];
      }
    }

    method ClearOne(b: BlockId, recorded: nat) returns (ok: bool)
      requires Valid() && b < |blocks| && recorded + cfg.compactedRetention < now
      requires blocks[b].status.Compacted? ==> blocks[b].status.at <= recorded
      modifies `blocks, `run, `faults
      ensures Valid() && Tried(ok, old(blocks)[b].status.Compacted?, old(faults))
      ensures ok ==> blocks == old(blocks)[b := old(blocks)[b].(status := Cleared(old(blocks)[b].status.at, now))]
      ensures !ok ==> blocks == old(blocks)
    {
      ok := Attempt();
      ok := ok && blocks[b].status.Compacted?;
      if ok {
        Note(Clear(b, recorded));
        blocks := blocks[b := blocks[b].(status := Cleared(blocks[b].status.at, now))];
      }
    }

    predicate PastRetention(e: Listed, retention: nat)
      reads this
    {
      e.end < now - retention && e.owned
    }

    predicate Clearable(e: CompactedEntry)
      reads this
    {
      e.recorded < now - cfg.compactedRetention && e.owned
    }

    ghost predicate InRetirement(list: seq<Listed>, retention: nat, b: BlockId)
      reads this
    {
      exists i :: 0 <= i < |list| && list[i].b == b && list[i].owned && list[i].end + retention < now
    }

    /** Owned blocks of the list whose data ends before the cutoff and that are live all the same. */
    ghost function Spared(list: seq<Listed>, retention: nat): set<BlockId>
      reads this
    {
      set i | 0 <= i < |list| && list[i].owned && list[i].end + retention < now
              && list[i].b < |blocks| && blocks[list[i].b].status.Live? :: list[i].b
    }

    /** Owned blocks of the list marked before the cutoff that have not been cleared. */
    ghost function Uncleared(list: seq<CompactedEntry>): set<BlockId>
      reads this
    {
      set i | 0 <= i < |list| && list[i].owned && list[i].recorded + cfg.compactedRetention < now
              && list[i].b < |blocks| && !blocks[list[i].b].status.Cleared? :: list[i].b
    }

    ghost predicate InClearance(list: seq<CompactedEntry>, b: BlockId)
      reads this
    {
      exists i :: 0 <= i < |list| && list[i].b == b && list[i].owned && list[i].recorded + cfg.compactedRetention < now
    }

    /** Every change is the retirement of a live listed block past retention. */
    ghost predicate RetiredOnly(before: seq<Block>, list: seq<Listed>, retention: nat)
      reads this
    {
      && |blocks| == |before|
      && forall b :: 0 <= b < |before| && blocks[b] != before[b] ==>
           before[b].status.Live? && blocks[b] == Block(before[b].content, Compacted(now), true) && InRetirement(list, retention, b)
    }

    /** Every change is the clearing of a marked listed block whose mark is old enough. */
    ghost predicate ClearedOnly(before: seq<Block>, list: seq<CompactedEntry>)
      reads this
    {
      && |blocks| == |before|
      && forall b :: 0 <= b < |before| && blocks[b] != before[b] ==>
           before[b].status.Compacted? && blocks[b] == before[b].(status := Cleared(before[b].status.at, now)) && InClearance(list, b)
    }

    /** First loop of retainTenant: a block past retention that is still live has cost a failure. */
    method MarkRetired(list: seq<Listed>, retention: nat) returns (errors: nat)
      requires Valid() && forall i :: 0 <= i < |list| ==> list[i].b < |blocks|
      modifies `blocks, `run, `faults
      ensures Valid() && RetiredOnly(old(blocks), list, retention)
      ensures faults >= old(faults) && |Spared(list, retention)| <= faults - old(faults)
      ensures errors == 0 ==> faults == old(faults)
    {
      errors := 0;
      var i := 0;
      ghost var left: set<BlockId> := {};
      while i < |list|
        invariant 0 <= i <= |list| && Valid() && |blocks| == |old(blocks)|
        invariant RetiredOnly(old(blocks), list, retention)
        invariant |left| <= faults - old(faults) && (errors == 0 ==> faults == old(faults))
        invariant forall k :: 0 <= k < i && PastRetention(list[k], retention) ==> !blocks[list[k].b].status.Live? || list[k].b in left
      {
        if PastRetention(list[i], retention) {
          var ok := RetainOne(list[i].b);
          if !ok {
            errors := errors + 1;
            if blocks[list[i].b].status.Live? { left := left + {list[i].b}; }
          }
        }
        i := i + 1;
      }
      Fewer(Spared(list, retention), left);
    }

    /** Second loop of retainTenant: a block whose mark is old enough and that is not cleared has cost a failure. */
    method ClearOld(list: seq<CompactedEntry>) returns (errors: nat)
      requires Valid() && forall i :: 0 <= i < |list| ==> KnownMarked(blocks, list[i])
      modifies `blocks, `run, `faults
      ensures Valid() && ClearedOnly(old(blocks), list)
      ensures forall i :: 0 <= i < |list| ==> KnownMarked(blocks, list[i])
      ensures faults >= old(faults) && |Uncleared(list)| <= faults - old(faults)
      ensures errors == 0 ==> faults == old(faults)
    {
      errors := 0;
      var i := 0;
      ghost var left: set<BlockId> := {};
      while i < |list|
        invariant 0 <= i <= |list| && Valid() && |blocks| == |old(blocks)|
        invariant forall k :: 0 <= k < |list| ==> KnownMarked(blocks, list[k])
        invariant ClearedOnly(old(blocks), list)
        invariant |left| <= faults - old(faults) && (errors == 0 ==> faults == old(faults))
        invariant forall k :: 0 <= k < i && Clearable(list[k]) ==> blocks[list[k].b].status.Cleared? || list[k].b in left
      {
        if Clearable(list[i]) {
          var ok := ClearOne(list[i].b, list[i].recorded);
          if !ok {
            errors := errors + 1;
            if !blocks[list[i].b].status.Cleared? { left := left + {list[i].b}; }
          }
        }
        i := i + 1;
      }
      Fewer(Uncleared(list), left);
    }

    /**
     retainTenant: marks live blocks whose data is past retention, then clears blocks whose marks are old
     enough. A block marked in this pass is never cleared in it, and no failure stops either loop: each block
     spared or not cleared has cost a failure of its own.
     */
    method RetainTenant(list: seq<Listed>, compacted: seq<CompactedEntry>, retention: nat) returns (errors: nat)
      requires Valid() && forall i :: 0 <= i < |list| ==> list[i].b < |blocks|
      requires forall i :: 0 <= i < |compacted| ==> KnownMarked(blocks, compacted[i])
      modifies `blocks, `run, `faults
      ensures Valid() && |blocks| == |old(blocks)|
      ensures forall b :: 0 <= b < |blocks| && old(blocks)[b].status.Live? ==>
                !blocks[b].status.Cleared?
                && (blocks[b].status.Compacted? ==> blocks[b].retired && InRetirement(list, retention, b))
      ensures forall b :: 0 <= b < |blocks| && old(blocks)[b].status.Compacted? && blocks[b].status.Cleared? ==> InClearance(compacted, b)
      ensures faults >= old(faults) && |Spared(list, retention)| + |Uncleared(compacted)| <= faults - old(faults)
      ensures errors == 0 ==> faults == old(faults)
    {
      var failedMarks := MarkRetired(list, retention);
      ghost var spared := Spared(list, retention);
      var failedClears := ClearOld(compacted);
      errors := failedMarks + failedClears;
      Fewer(Spared(list, retention), spared);
    }

    /** The store loses no copy of a trace: this is TracesSurvive for what the methods above have done. */
    lemma KeepsTraces(b: BlockId, t: Trace)
      requires Valid() && b < |blocks| && t in blocks[b].content
      ensures Exec(cfg, run).blocks == blocks && CopySurvives(Exec(cfg, run), b, t)
    {
      TracesSurvive(cfg, run, b, t);
    }
  }

  lemma SameSize<T>(a: set<T>, b: set<T>)
    requires a <= b
    ensures |a| == |b| <==> a == b
  {
    assert b == a + (b - a);
  }

  lemma Fewer<T>(a: set<T>, b: set<T>)
    requires a <= b
    ensures |a| <= |b|
  {
    assert b == a + (b - a);
  }

  /** What a process keeps depends only on its inputs, its drops and the blocks that existed. */
  lemma KeepsIsStable(s: State, s': State, p: Process, p': Process)
    requires s.blocks <= s'.blocks && p'.inputs == p.inputs && p'.drop == p.drop
    requires forall b :: b in p.inputs ==> b < |s.blocks|
    ensures forall t :: Keeps(s, p, t) <==> Keeps(s', p', t)
  {
  }
}
