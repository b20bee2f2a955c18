/**
 Which blocks Find opens for a trace, from the block lists the last poll left.
 */
module BlockSearch {
  import L = BlockLifecycle

  /** A block list entry; `key` is the block ID as a number, times are instants. */
  datatype Meta = Meta(id: L.BlockId, key: nat, start: int, end: int)

  datatype CompactedMeta = CompactedMeta(meta: Meta, at: nat)

  /** The shard of block IDs to search, and the time range if both of its ends are set. */
  datatype Query = Query(first: nat, last: nat, ranged: bool, timeStart: int, timeEnd: int)

  /** includeBlock. */
  predicate Include(m: Meta, q: Query) {
    && !(q.ranged && (m.start >= q.timeEnd || m.end <= q.timeStart))
    && q.first <= m.key <= q.last
  }

  /** includeCompactedBlock. */
  predicate IncludeCompacted(c: CompactedMeta, q: Query, now: nat, poll: nat) {
    !(c.at < now - 2 * poll) && Include(c.meta, q)
  }

  function Wanted(live: seq<Meta>, q: Query): seq<Meta> {
    if |live| == 0 then [] else Wanted(live[..|live| - 1], q) + (if Include(live[|live| - 1], q) then [live[|live| - 1]] else [])
  }

  function WantedCompacted(cs: seq<CompactedMeta>, q: Query, now: nat, poll: nat): seq<Meta> {
    if |cs| == 0 then []
    else WantedCompacted(cs[..|cs| - 1], q, now, poll) + (if IncludeCompacted(cs[|cs| - 1], q, now, poll) then [cs[|cs| - 1].meta] else [])
  }

  /** Find's gathering of blocks. */
  method Gather(live: seq<Meta>, compacted: seq<CompactedMeta>, q: Query, now: nat, poll: nat) returns (found: seq<Meta>)
    ensures found == Wanted(live, q) + WantedCompacted(compacted, q, now, poll)
  {
    found := [];
    for i := 0 to |live|
      invariant found == Wanted(live[..i], q)
    {
      assert live[..i + 1][..i] == live[..i];
      if Include(live[i], q) { found := found + [live[i]]; }
    }
    assert live[..|live|] == live;
    for i := 0 to |compacted|
      invariant found == Wanted(live, q) + WantedCompacted(compacted[..i], q, now, poll)
    {
      assert compacted[..i + 1][..i] == compacted[..i];
      if IncludeCompacted(compacted[i], q, now, poll) { found := found + [compacted[i].meta]; }
    }
    assert compacted[..|compacted|] == compacted;
  }

  lemma {:induction false} WantedExact(live: seq<Meta>, q: Query)
    ensures forall m :: m in Wanted(live, q) <==> m in live && Include(m, q)
  {
    if |live| > 0 {
      WantedExact(live[..|live| - 1], q);
      assert live == live[..|live| - 1] + [live[|live| - 1]];
    }
  }

  lemma {:induction false} WantedCompactedExact(cs: seq<CompactedMeta>, q: Query, now: nat, poll: nat)
    ensures forall m :: m in WantedCompacted(cs, q, now, poll) <==> exists c :: c in cs && IncludeCompacted(c, q, now, poll) && c.meta == m
  {
    if |cs| > 0 {
      WantedCompactedExact(cs[..|cs| - 1], q, now, poll);
      assert cs == cs[..|cs| - 1] + [cs[|cs| - 1]];
    }
  }

  /** The lists hold what the snapshot saw. */
  ghost predicate Mirrors(r: L.Snapshot, live: seq<Meta>, compacted: seq<CompactedMeta>) {
    && (forall m :: m in live ==> m.id in r.live)
    && (forall c :: c in compacted ==> c.meta.id in r.compacted && r.compacted[c.meta.id] == c.at)
  }

  /**
   Every block Find gathers from lists at most one poll old still exists, whatever compaction, redaction
   and retention have done since, provided compacted blocks are kept for two polls.
   */
  lemma FindOpensNothingCleared(cfg: L.Config, steps: seq<L.Step>, i: nat, live: seq<Meta>, compacted: seq<CompactedMeta>, q: Query, m: Meta)
    requires L.IsRun(cfg, steps) && 2 * cfg.poll <= cfg.compactedRetention
    requires var s := L.Exec(cfg, steps);
             i < |s.readers| && s.now <= s.readers[i].taken + cfg.poll && Mirrors(s.readers[i], live, compacted)
    requires var s := L.Exec(cfg, steps); m in Wanted(live, q) + WantedCompacted(compacted, q, s.now, cfg.poll)
    ensures !L.IsCleared(L.Exec(cfg, steps), m.id)
  {
    var s := L.Exec(cfg, steps);
    WantedExact(live, q);
    WantedCompactedExact(compacted, q, s.now, cfg.poll);
    L.RunInv(cfg, steps);
    assert L.Opens(cfg, s, s.readers[i], m.id);
    L.OpenedIsNotCleared(cfg, s, i, m.id);
  }

  /** Nothing the shard and time range ask for is left out, as far as the lists go. */
  lemma FindMissesNothing(live: seq<Meta>, compacted: seq<CompactedMeta>, q: Query, now: nat, poll: nat, m: Meta)
    ensures m in Wanted(live, q) + WantedCompacted(compacted, q, now, poll) <==>
            && q.first <= m.key <= q.last
            && (q.ranged ==> m.start < q.timeEnd && q.timeStart < m.end)
            && (m in live || exists c :: c in compacted && c.meta == m && c.at + 2 * poll >= now)
  {
    WantedExact(live, q);
    WantedCompactedExact(compacted, q, now, poll);
    if c :| c in compacted && c.meta == m && c.at + 2 * poll >= now && Include(m, q) {
      assert IncludeCompacted(c, q, now, poll);
    }
  }
}
