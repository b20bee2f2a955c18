/**
 The blocks a search visits, newest first, and the tag searches that visit them without shards.
 */
module SearchBlocks {
  import opened SearchSharding

  /** A block whose range touches the search's, bounds included, and that the caller accepts. */
  predicate Relevant(b: Block, start: Time, end: Time, accept: Block -> bool) {
    !b.start.After(end) && !start.After(b.end) && accept(b)
  }

  /** Nanoseconds since the epoch. */
  function Instant(t: Time): int { t.unix * 1_000_000_000 + t.nanos }

  /** Relevant are the accepted blocks that share an instant with the search. */
  lemma RelevantSharesAnInstant(b: Block, start: Time, end: Time, accept: Block -> bool)
    requires forall t :: t in {b.start, b.end, start, end} ==> t.nanos < 1_000_000_000
    requires Instant(b.start) <= Instant(b.end) && Instant(start) <= Instant(end)
    ensures Relevant(b, start, end, accept) <==>
            accept(b) && exists t: int :: Within(t, b.start, b.end) && Within(t, start, end)
  {
    var t := if Instant(start) < Instant(b.start) then Instant(b.start) else Instant(start);
    assert b.start in {b.start, b.end, start, end} && b.end in {b.start, b.end, start, end};
    if Relevant(b, start, end, accept) { assert Within(t, b.start, b.end) && Within(t, start, end); }
  }

  predicate Within(t: int, first: Time, last: Time) {
    Instant(first) <= t <= Instant(last)
  }

  function Filtered(all: seq<Block>, start: Time, end: Time, accept: Block -> bool): seq<Block> {
    if |all| == 0 then []
    else Filtered(all[..|all| - 1], start, end, accept) + (if Relevant(all[|all| - 1], start, end, accept) then [all[|all| - 1]] else [])
  }

  lemma {:induction false} FilteredExact(all: seq<Block>, start: Time, end: Time, accept: Block -> bool, b: Block)
    ensures multiset(Filtered(all, start, end, accept))[b] == if Relevant(b, start, end, accept) then multiset(all)[b] else 0
  {
    if |all| > 0 {
      FilteredExact(all[..|all| - 1], start, end, accept, b);
      assert all == all[..|all| - 1] + [all[|all| - 1]];
    }
  }

  // ------------------------------------------------------------------- sorting

  predicate DistinctIds(blocks: seq<Block>) {
    forall i, k :: 0 <= i < k < |blocks| ==> blocks[i].id != blocks[k].id
  }

  /** What the library sort is for: the same blocks, newest first. */
  ghost predicate IsSorted(blocks: seq<Block>, from: seq<Block>) {
    multiset(blocks) == multiset(from) && NewestFirst(blocks)
  }

  lemma InMultiset(a: seq<Block>, b: seq<Block>)
    requires multiset(a) == multiset(b)
    ensures forall x :: x in a <==> x in b
  {
    forall x ensures x in a <==> x in b {
      assert x in a <==> multiset(a)[x] > 0;
      assert x in b <==> multiset(b)[x] > 0;
    }
  }

  lemma HeadsAgree(a: seq<Block>, b: seq<Block>)
    requires multiset(a) == multiset(b) && NewestFirst(a) && NewestFirst(b) && |a| > 0 && |b| > 0
    ensures a[0] == b[0]
  {
    InMultiset(a, b);
    assert a[0] in b && b[0] in a;
  }

  /** Newest first is a strict order on block IDs, so it leaves only one way to sort: the result is deterministic. */
  lemma {:induction false} SortIsUnique(a: seq<Block>, b: seq<Block>)
    requires multiset(a) == multiset(b) && NewestFirst(a) && NewestFirst(b)
    ensures a == b
    decreases |a|
  {
    assert |a| == |multiset(a)| == |multiset(b)| == |b|;
    if |a| > 0 {
      HeadsAgree(a, b);
      assert a == [a[0]] + a[1..] && b == [b[0]] + b[1..];
      assert multiset(a[1..]) == multiset(a) - multiset{a[0]};
      assert multiset(b[1..]) == multiset(b) - multiset{b[0]};
      SortIsUnique(a[1..], b[1..]);
    }
  }

  /** Inserts a block into a sorted list. */
  function Insert(b: Block, sorted: seq<Block>): seq<Block> {
    if |sorted| == 0 || Before(b, sorted[0]) then [b] + sorted else [sorted[0]] + Insert(b, sorted[1..])
  }

  function Sort(blocks: seq<Block>): seq<Block> {
    if |blocks| == 0 then [] else Insert(blocks[|blocks| - 1], Sort(blocks[..|blocks| - 1]))
  }

  lemma {:induction false} InsertKeeps(b: Block, sorted: seq<Block>)
    requires NewestFirst(sorted) && forall x :: x in sorted ==> x.id != b.id
    ensures NewestFirst(Insert(b, sorted)) && multiset(Insert(b, sorted)) == multiset(sorted) + multiset{b}
  {
    if |sorted| == 0 || Before(b, sorted[0]) {
    } else {
      InsertKeeps(b, sorted[1..]);
      assert sorted == [sorted[0]] + sorted[1..];
      var rest := Insert(b, sorted[1..]);
      forall x | x in rest ensures Before(sorted[0], x) {
        assert multiset(rest)[x] > 0;
        if x != b { assert x in sorted[1..]; }
      }
    }
  }

  lemma {:induction false} SortSorts(blocks: seq<Block>)
    requires DistinctIds(blocks)
    ensures IsSorted(Sort(blocks), blocks)
  {
    if |blocks| > 0 {
      var before := blocks[..|blocks| - 1];
      var last := blocks[|blocks| - 1];
      SortSorts(before);
      InMultiset(Sort(before), before);
      assert blocks == before + [last];
      InsertKeeps(last, Sort(before));
    }
  }

  /** blockMetasForSearch. */
  method BlockMetasForSearch(all: seq<Block>, start: Time, end: Time, accept: Block -> bool) returns (blocks: seq<Block>)
    requires DistinctIds(all)
    ensures NewestFirst(blocks)
    ensures forall b :: multiset(blocks)[b] == if accept(b) && !start.After(b.end) && !b.start.After(end) then multiset(all)[b] else 0
    ensures forall s {:trigger IsSorted(s, Filtered(all, start, end, accept))} :: IsSorted(s, Filtered(all, start, end, accept)) ==> s == blocks
  {
    blocks := [];
    for i := 0 to |all|
      invariant blocks == Filtered(all[..i], start, end, accept)
    {
      assert all[..i + 1][..i] == all[..i];
      if !all[i].start.After(end) && !start.After(all[i].end) && accept(all[i]) { blocks := blocks + [all[i]]; }
    }
    assert all[..|all|] == all;
    ghost var filtered := blocks;
    FilteredDistinct(all, start, end, accept);
    SortSorts(filtered);
    blocks := Sort(blocks);
    forall b ensures multiset(blocks)[b] == if Relevant(b, start, end, accept) then multiset(all)[b] else 0 {
      FilteredExact(all, start, end, accept, b);
    }
    forall s | IsSorted(s, filtered) ensures s == blocks {
      SortIsUnique(s, blocks);
    }
  }

  lemma {:induction false} FilteredDistinct(all: seq<Block>, start: Time, end: Time, accept: Block -> bool)
    requires DistinctIds(all)
    ensures DistinctIds(Filtered(all, start, end, accept))
    ensures forall b :: b in Filtered(all, start, end, accept) ==> b in all
  {
    if |all| > 0 {
      var before := all[..|all| - 1];
      FilteredDistinct(before, start, end, accept);
      forall b | b in Filtered(before, start, end, accept) ensures b.id != all[|all| - 1].id {
        var i :| 0 <= i < |before| && before[i] == b;
      }
    }
  }

  /** A search from second 1 on gives the walk the blocks its claims need. */
  lemma SearchMeetsTheClaims(all: seq<Block>, start: Time, end: Time, accept: Block -> bool, blocks: seq<Block>, plan: Plan)
    requires start.unix >= 1 && plan.maxShards > 0 && plan.end > 1 && NewestFirst(blocks)
    requires forall b :: multiset(blocks)[b] == if accept(b) && !start.After(b.end) && !b.start.After(end) then multiset(all)[b] else 0
    ensures forall k :: 0 <= k < |AllShards(blocks, plan)| ==> 1 <= AllShards(blocks, plan)[k].through < plan.end
    ensures forall j :: j in AllJobs(blocks, plan) ==> JobHolds(blocks, AllShards(blocks, plan), j)
  {
    forall b | b in blocks ensures b.end.unix >= 1 {
      assert multiset(blocks)[b] > 0;
    }
    CompletedThroughIsTrue(blocks, plan);
  }

  // -------------------------------------------------------------- tag searches

  /** The jobs of a tag search: every searchable block, page range by page range. */
  function TagJobs(cuts: seq<Cut>, n: nat): seq<Job>
    requires n <= |cuts|
  {
    if n == 0 then [] else TagJobs(cuts, n - 1) + BlockJobs(n - 1, 0, cuts[n - 1].pages, cuts[n - 1].jobs)
  }

  /** Handed out in full, the jobs read every page of every block that can be searched once, and none of another. */
  lemma {:induction false} TagPagesOnce(blocks: seq<Block>, target: nat, n: nat, block: nat, page: nat)
    requires n <= |blocks| && block < |blocks| && page < blocks[block].records
    ensures Readers(TagJobs(Cuts(blocks, target), n), block, page) == if block < n && Searchable(blocks[block], target) then 1 else 0
  {
    if n > 0 {
      TagPagesOnce(blocks, target, n - 1, block, page);
      var c := CutOf(blocks[n - 1], target);
      CutReaders(n - 1, blocks[n - 1], target, block, page);
      ReadersConcat(TagJobs(Cuts(blocks, target), n - 1), BlockJobs(n - 1, 0, c.pages, c.jobs), block, page);
    }
  }

  /** The readers of a page among one block's jobs. */
  lemma CutReaders(i: nat, b: Block, target: nat, block: nat, page: nat)
    requires i == block ==> page < b.records
    ensures var c := CutOf(b, target);
            Readers(BlockJobs(i, 0, c.pages, c.jobs), block, page) == if i == block && Searchable(b, target) then 1 else 0
  {
    var c := CutOf(b, target);
    PagesFillTheTarget(b, target);
    if i == block && c.pages > 0 {
      BlockReaders(i, 0, b.records, c.pages, block, page);
    } else {
      ReadersOfOther(BlockJobs(i, 0, c.pages, c.jobs), block, page);
    }
  }

  /** The first k of the jobs were all taken, and so was every one before. */
  predicate TookAll(js: seq<Job>, k: nat, take: Job -> bool)
    requires k <= |js|
  {
    forall i :: 0 <= i < k ==> take(js[i])
  }

  /** The inner loop: the block's first jobs, up to the first one refused. */
  method TagPages(i: nat, records: nat, pages: nat, take: Job -> bool) returns (js: seq<Job>, stopped: bool)
    requires pages > 0
    ensures |js| <= Jobs(records, pages) && js == BlockJobs(i, 0, pages, |js|)
    ensures stopped ==> |js| > 0 && !take(js[|js| - 1]) && TookAll(js, |js| - 1, take)
    ensures !stopped ==> |js| == Jobs(records, pages) && TookAll(js, |js|, take)
  {
    js, stopped := [], false;
    var startPage := 0;
    ghost var k := 0;
    while startPage < records
      invariant startPage == k * pages && k <= Jobs(records, pages)
      invariant js == BlockJobs(i, 0, pages, k) && TookAll(js, |js|, take)
    {
      JobsBound(records, pages, k);
      var j := Job(i, 0, startPage, pages);
      js := js + [j];
      k := k + 1;
      if !take(j) { return js, true; }
      startPage := startPage + pages;
    }
    JobsBound(records, pages, k);
  }

  lemma BlockJobsPrefix(i: nat, shard: nat, pages: nat, k: nat, n: nat)
    requires k <= n
    ensures BlockJobs(i, shard, pages, k) <= BlockJobs(i, shard, pages, n)
  {
    var all := BlockJobs(i, shard, pages, n);
    assert BlockJobs(i, shard, pages, k) == all[..k];
  }

  /** One block of the outer loop. */
  method TagBlock(i: nat, b: Block, target: nat, take: Job -> bool, ghost c: Cut) returns (js: seq<Job>, stopped: bool)
    requires c == CutOf(b, target)
    ensures js <= BlockJobs(i, 0, c.pages, c.jobs) && (!stopped ==> js == BlockJobs(i, 0, c.pages, c.jobs))
    ensures stopped ==> |js| > 0 && !take(js[|js| - 1]) && TookAll(js, |js| - 1, take)
    ensures !stopped ==> TookAll(js, |js|, take)
  {
    var pages := PagesPerRequest(b, target);
    if pages == 0 {
      return [], false;
    }
    js, stopped := TagPages(i, b.records, pages, take);
    BlockJobsPrefix(i, 0, pages, |js|, Jobs(b.records, pages));
  }

  lemma {:induction false} TagJobsGrow(cuts: seq<Cut>, n: nat, m: nat)
    requires n <= m <= |cuts|
    ensures TagJobs(cuts, n) <= TagJobs(cuts, m)
    decreases m
  {
    if n < m { TagJobsGrow(cuts, n, m - 1); }
  }

  /** The jobs of the first n blocks have been handed out, and none was refused. */
  ghost predicate AllHanded(cuts: seq<Cut>, n: nat, given: seq<Job>, take: Job -> bool) {
    n <= |cuts| && given == TagJobs(cuts, n) && TookAll(given, |given|, take)
  }

  /** The first `count` jobs have been handed out, the last of them perhaps refused, and if not all, refused. */
  ghost predicate Handed(all: seq<Job>, count: nat, take: Job -> bool) {
    && count <= |all|
    && TookAll(all, if count > 0 then count - 1 else 0, take)
    && (count < |all| ==> count > 0 && !take(all[count - 1]))
  }

  lemma OneMoreHanded(cuts: seq<Cut>, n: nat, given: seq<Job>, js: seq<Job>, take: Job -> bool)
    requires AllHanded(cuts, n, given, take) && n < |cuts|
    requires js == BlockJobs(n, 0, cuts[n].pages, cuts[n].jobs) && TookAll(js, |js|, take)
    ensures AllHanded(cuts, n + 1, given + js, take)
  {
  }

  lemma StoppedAt(cuts: seq<Cut>, n: nat, given: seq<Job>, js: seq<Job>, take: Job -> bool)
    requires AllHanded(cuts, n, given, take) && n < |cuts| && js <= BlockJobs(n, 0, cuts[n].pages, cuts[n].jobs)
    requires |js| > 0 && !take(js[|js| - 1]) && TookAll(js, |js| - 1, take)
    ensures Handed(TagJobs(cuts, |cuts|), |given| + |js|, take)
  {
    TagJobsGrow(cuts, n + 1, |cuts|);
    PrefixJoin(given, js, BlockJobs(n, 0, cuts[n].pages, cuts[n].jobs));
    HandedPrefix(TagJobs(cuts, |cuts|), given, js, take);
  }

  lemma PrefixJoin(a: seq<Job>, b: seq<Job>, c: seq<Job>)
    requires b <= c
    ensures a + b <= a + c
  {
  }

  lemma HandedPrefix(all: seq<Job>, given: seq<Job>, js: seq<Job>, take: Job -> bool)
    requires given + js <= all && TookAll(given, |given|, take)
    requires |js| > 0 && !take(js[|js| - 1]) && TookAll(js, |js| - 1, take)
    ensures Handed(all, |given| + |js|, take)
  {
    var both := given + js;
    forall i | 0 <= i < |both| - 1 ensures take(all[i]) {
      assert all[i] == both[i];
    }
    assert all[|both| - 1] == both[|both| - 1] == js[|js| - 1];
  }

  /**
   iterateTagJobs: hands out the jobs in order until one is refused, and returns how many were handed out;
   with a callback that refuses none, that is all of them.
   */
  method IterateTagJobs(blocks: seq<Block>, target: nat, take: Job -> bool) returns (count: nat)
    ensures Handed(TagJobs(Cuts(blocks, target), |blocks|), count, take)
  {
    ghost var cuts := Cuts(blocks, target);
    count := 0;
    ghost var given := [];
    var n := 0;
    while n < |blocks|
      invariant 0 <= n <= |blocks| && count == |given| && AllHanded(cuts, n, given, take)
    {
      var js, stopped := TagBlock(n, blocks[n], target, take, cuts[n]);
      count := count + |js|;
      if stopped {
        StoppedAt(cuts, n, given, js, take);
        return;
      }
      OneMoreHanded(cuts, n, given, js, take);
      given := given + js;
      n := n + 1;
    }
  }
}
