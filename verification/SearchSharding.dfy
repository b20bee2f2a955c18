/**
 How a search over the backend is cut into jobs and shards: the same walk over the blocks is made twice,
 once to count and once to emit, and a shard tells the client through which time its results are complete.
 */
module SearchSharding {

  /** An instant: whole seconds, as Unix() reports them, and the nanoseconds beyond. */
  datatype Time = Time(unix: int, nanos: nat) {
    predicate After(t: Time) { unix > t.unix || (unix == t.unix && nanos > t.nanos) }
  }

  /** `id` stands for the block ID's text, whose order is its order as a number. */
  datatype Block = Block(id: nat, start: Time, end: Time, size: nat, records: nat)

  /** pagesPerRequest: 0 when the block cannot be searched. */
  function PagesPerRequest(b: Block, target: nat): nat {
    if b.size == 0 || b.records == 0 then 0
    else if b.size < target then b.records
    else if b.size / b.records == 0 then 0
    else if target / (b.size / b.records) == 0 then 1
    else target / (b.size / b.records)
  }

  /** A block can be searched if it has data and is small enough for one request or has a byte for every page. */
  predicate Searchable(b: Block, target: nat) {
    b.size > 0 && b.records > 0 && (b.size < target || b.records <= b.size)
  }

  /**
   A request takes a small block whole; of a larger one it takes as many pages as stay within the target,
   at their average size, but at least one. Blocks that cannot be searched are left out.
   */
  lemma PagesFillTheTarget(b: Block, target: nat)
    ensures var pages := PagesPerRequest(b, target);
            && (pages > 0 <==> Searchable(b, target))
            && (Searchable(b, target) && b.size < target ==> pages == b.records)
            && (Searchable(b, target) && b.size >= target ==>
                  var average := b.size / b.records;
                  (pages * average <= target || pages == 1) && target < (pages + 1) * average)
  {
    if b.records > 0 && b.size >= target {
      OneEach(b.size, b.records);
      var average := b.size / b.records;
      if average > 0 {
        assert target == target / average * average + target % average;
      }
    }
  }

  lemma OneEach(size: nat, records: nat)
    requires records > 0
    ensures size / records > 0 <==> records <= size
  {
  }

  // ------------------------------------------------------------ one block's jobs

  datatype Job = Job(block: nat, shard: nat, start: nat, pages: nat)

  function Jobs(records: nat, pages: nat): nat
    requires pages > 0
  {
    records / pages + if records % pages != 0 then 1 else 0
  }

  /** The division by which the counting pass predicts the emitting loop. */
  lemma JobsBound(records: nat, pages: nat, k: nat)
    requires pages > 0
    ensures k * pages < records <==> k < Jobs(records, pages)
  {
    var q, r := records / pages, records % pages;
    assert records == q * pages + r;
    if k < q {
      Monotone(k + 1, q, pages);
    } else if k > q {
      Monotone(q + 1, k, pages);
    }
  }

  lemma Monotone(a: nat, b: nat, m: nat)
    requires a <= b
    ensures a * m <= b * m
  {
  }

  /** The first k jobs of a block. */
  function BlockJobs(block: nat, shard: nat, pages: nat, k: nat): (js: seq<Job>)
    ensures |js| == k
    ensures forall i :: 0 <= i < k ==> js[i] == Job(block, shard, i * pages, pages)
  {
    if k == 0 then [] else BlockJobs(block, shard, pages, k - 1) + [Job(block, shard, (k - 1) * pages, pages)]
  }

  predicate Reads(j: Job, page: nat) {
    j.start <= page < j.start + j.pages
  }

  /** Of all multiples of `pages`, the last one not above a page is the only one whose range holds it. */
  lemma OnlyRange(pages: nat, page: nat, i: nat)
    requires pages > 0
    ensures i * pages <= page < i * pages + pages <==> i == page / pages
  {
    var k := page / pages;
    assert page == k * pages + page % pages;
    if i < k { Monotone(i + 1, k, pages); }
    if i > k { Monotone(k + 1, i, pages); }
  }

  /** A block's page ranges start inside the block, leave no gap and do not overlap: each page is read by one job. */
  lemma PagesAreTiled(block: nat, shard: nat, records: nat, pages: nat, page: nat)
    requires pages > 0 && page < records
    ensures var js := BlockJobs(block, shard, pages, Jobs(records, pages));
            && page / pages < |js|
            && (forall i :: 0 <= i < |js| ==> js[i].start < records && (Reads(js[i], page) <==> i == page / pages))
  {
    OnlyRange(pages, page, page / pages);
    JobsBound(records, pages, page / pages);
    forall i | 0 <= i < Jobs(records, pages)
      ensures i * pages < records && (i * pages <= page < i * pages + pages <==> i == page / pages)
    {
      JobsBound(records, pages, i);
      OnlyRange(pages, page, i);
    }
  }

  // ----------------------------------------------------------------- the walk

  datatype Shard = Shard(jobs: nat, bytes: nat, through: int)

  datatype Plan = Plan(maxShards: nat, target: nat, end: int)

  /** The walk's variables; `shards` and `out` are what its two callbacks have been given. */
  datatype Walk = Walk(current: nat, jobs: nat, bytes: nat, blocks: nat, shards: seq<Shard>, out: seq<Job>)

  function BlocksPerShard(n: nat, maxShards: nat): nat
    requires maxShards > 0
  {
    if n / maxShards == 0 then 1 else n / maxShards
  }

  /** How a block is cut: pages a job, and jobs; no jobs at all for a block that cannot be searched. */
  datatype Cut = Cut(pages: nat, jobs: nat)

  function CutOf(b: Block, target: nat): (c: Cut)
    ensures c.jobs > 0 <==> c.pages > 0
  {
    var pages := PagesPerRequest(b, target);
    if pages == 0 then Cut(0, 0)
    else
      JobsBound(b.records, pages, 0);
      Cut(pages, Jobs(b.records, pages))
  }

  function Emit(w: Walk, i: nat, b: Block, c: Cut): Walk {
    w.(jobs := w.jobs + c.jobs, bytes := w.bytes + b.size, blocks := w.blocks + 1, out := w.out + BlockJobs(i, w.current, c.pages, c.jobs))
  }

  function Roll(w: Walk, b: Block): Walk {
    Walk(w.current + 1, 0, 0, 0, w.shards + [Shard(w.jobs, w.bytes, b.end.unix)], w.out)
  }

  predicate MustRoll(w: Walk, b: Block, plan: Plan, perShard: nat) {
    w.blocks >= perShard && w.current < plan.maxShards - 1 && b.end.unix < plan.end
  }

  function Visit(w: Walk, i: nat, b: Block, c: Cut, plan: Plan, perShard: nat): Walk {
    if c.pages == 0 then w
    else
      var w' := Emit(w, i, b, c);
      if MustRoll(w', b, plan, perShard) then Roll(w', b) else w'
  }

  const Start := Walk(0, 0, 0, 0, [], [])

  function Cuts(blocks: seq<Block>, target: nat): (cs: seq<Cut>)
    ensures |cs| == |blocks|
    ensures forall i :: 0 <= i < |blocks| ==> cs[i] == CutOf(blocks[i], target)
  {
    seq(|blocks|, i requires 0 <= i < |blocks| => CutOf(blocks[i], target))
  }

  function WalkTo(blocks: seq<Block>, cuts: seq<Cut>, n: nat, plan: Plan, perShard: nat): Walk
    requires n <= |blocks| == |cuts|
  {
    if n == 0 then Start
    else Visit(WalkTo(blocks, cuts, n - 1, plan, perShard), n - 1, blocks[n - 1], cuts[n - 1], plan, perShard)
  }

  /** The whole walk. */
  function Whole(blocks: seq<Block>, plan: Plan): Walk
    requires plan.maxShards > 0
  {
    WalkTo(blocks, Cuts(blocks, plan.target), |blocks|, plan, BlocksPerShard(|blocks|, plan.maxShards))
  }

  /** All shards: those rolled over, and a last one for what is left, which claims all time. */
  function ShardsOf(w: Walk): seq<Shard> {
    if w.jobs > 0 then w.shards + [Shard(w.jobs, w.bytes, 1)] else w.shards
  }

  function AllShards(blocks: seq<Block>, plan: Plan): seq<Shard>
    requires plan.maxShards > 0
  {
    ShardsOf(Whole(blocks, plan))
  }

  function AllJobs(blocks: seq<Block>, plan: Plan): seq<Job>
    requires plan.maxShards > 0
  {
    Whole(blocks, plan).out
  }

  /** The emitting loop over one block. */
  method EmitBlock(i: nat, b: Block, shard: nat, pages: nat) returns (js: seq<Job>)
    requires pages > 0
    ensures js == BlockJobs(i, shard, pages, Jobs(b.records, pages))
  {
    js := [];
    var startPage := 0;
    ghost var k := 0;
    while startPage < b.records
      invariant startPage == k * pages && k <= Jobs(b.records, pages)
      invariant js == BlockJobs(i, shard, pages, k)
    {
      JobsBound(b.records, pages, k);
      js := js + [Job(i, shard, startPage, pages)];
      startPage := startPage + pages;
      k := k + 1;
    }
    JobsBound(b.records, pages, k);
  }

  /** One block's jobs, emitted and counted one by one, or only computed. */
  method JobsInBlock(i: nat, b: Block, shard: nat, pages: nat, emitting: bool) returns (n: nat, js: seq<Job>)
    requires pages > 0
    ensures n == Jobs(b.records, pages)
    ensures js == if emitting then BlockJobs(i, shard, pages, n) else []
  {
    js := [];
    if !emitting {
      n := b.records / pages;
      if b.records % pages != 0 { n := n + 1; }
    } else {
      js := EmitBlock(i, b, shard, pages);
      n := |js|;
    }
  }

  /** What the two callbacks are given of a walk. */
  function Told(w: Walk, counting: bool, emitting: bool): Walk {
    w.(shards := if counting then w.shards else [], out := if emitting then w.out else [])
  }

  /** One turn of the walk. */
  method Turn(i: nat, b: Block, plan: Plan, perShard: nat, counting: bool, emitting: bool, w: Walk, ghost full: Walk) returns (w': Walk)
    requires plan.maxShards > 0 && w == Told(full, counting, emitting)
    ensures w' == Told(Visit(full, i, b, CutOf(b, plan.target), plan, perShard), counting, emitting)
  {
    w' := w;
    var pages := PagesPerRequest(b, plan.target);
    if pages == 0 { return; }
    var jobsInBlock, js := JobsInBlock(i, b, w.current, pages, emitting);
    w' := w'.(jobs := w.jobs + jobsInBlock, bytes := w.bytes + b.size, blocks := w.blocks + 1, out := w.out + js);
    if w'.blocks >= perShard && w'.current < plan.maxShards - 1 && b.end.unix < plan.end {
      if counting { w' := w'.(shards := w'.shards + [Shard(w'.jobs, w'.bytes, b.end.unix)]); }
      w' := w'.(current := w'.current + 1, jobs := 0, bytes := 0, blocks := 0);
    }
  }

  method NthTurn(blocks: seq<Block>, ghost cuts: seq<Cut>, n: nat, plan: Plan, perShard: nat, counting: bool, emitting: bool, w: Walk)
    returns (w': Walk)
    requires plan.maxShards > 0 && n < |blocks| && cuts == Cuts(blocks, plan.target)
    requires w == Told(WalkTo(blocks, cuts, n, plan, perShard), counting, emitting)
    ensures w' == Told(WalkTo(blocks, cuts, n + 1, plan, perShard), counting, emitting)
  {
    ghost var full := WalkTo(blocks, cuts, n, plan, perShard);
    WalkNext(blocks, cuts, n + 1, plan, perShard, full);
    w' := Turn(n, blocks[n], plan, perShard, counting, emitting, w, full);
  }

  /**
   backendJobsFunc's iterator. With `emitting` the jobs are generated and counted one by one, without it
   their number is computed; the shards come out the same.
   */
  method Iterate(blocks: seq<Block>, plan: Plan, counting: bool, emitting: bool) returns (shards: seq<Shard>, out: seq<Job>)
    requires plan.maxShards > 0
    ensures shards == if counting then AllShards(blocks, plan) else []
    ensures out == if emitting then AllJobs(blocks, plan) else []
  {
    var perShard := |blocks| / plan.maxShards;
    if perShard == 0 { perShard := 1; }
    ghost var cuts := Cuts(blocks, plan.target);
    var w := Start;
    var n := 0;
    while n < |blocks|
      invariant 0 <= n <= |blocks|
      invariant w == Told(WalkTo(blocks, cuts, n, plan, perShard), counting, emitting)
    {
      w := NthTurn(blocks, cuts, n, plan, perShard, counting, emitting, w);
      n := n + 1;
    }
    if counting && w.jobs > 0 { w := w.(shards := w.shards + [Shard(w.jobs, w.bytes, 1)]); }
    return w.shards, w.out;
  }

  // ------------------------------------------------------- the two passes agree

  function InShard(js: seq<Job>, shard: nat): nat {
    if |js| == 0 then 0 else InShard(js[..|js| - 1], shard) + if js[|js| - 1].shard == shard then 1 else 0
  }

  lemma {:induction false} InShardConcat(a: seq<Job>, b: seq<Job>, shard: nat)
    ensures InShard(a + b, shard) == InShard(a, shard) + InShard(b, shard)
  {
    if |b| == 0 {
      assert a + b == a;
    } else {
      InShardConcat(a, b[..|b| - 1], shard);
      assert (a + b)[..|a + b| - 1] == a + b[..|b| - 1];
    }
  }

  lemma {:induction false} BlockJobsInShard(block: nat, own: nat, pages: nat, k: nat, shard: nat)
    ensures InShard(BlockJobs(block, own, pages, k), shard) == if own == shard then k else 0
  {
    if k > 0 {
      BlockJobsInShard(block, own, pages, k - 1, shard);
      assert BlockJobs(block, own, pages, k)[..k - 1] == BlockJobs(block, own, pages, k - 1);
    }
  }

  function Bytes(shards: seq<Shard>): nat {
    if |shards| == 0 then 0 else Bytes(shards[..|shards| - 1]) + shards[|shards| - 1].bytes
  }

  /** The total size of the blocks that can be searched. */
  function SearchedBytes(blocks: seq<Block>, target: nat, n: nat): nat
    requires n <= |blocks|
  {
    if n == 0 then 0 else SearchedBytes(blocks, target, n - 1) + if Searchable(blocks[n - 1], target) then blocks[n - 1].size else 0
  }

  /** A block is cut into jobs if it can be searched at all. */
  ghost predicate GoodCuts(blocks: seq<Block>, cuts: seq<Cut>, target: nat) {
    |cuts| == |blocks| && forall i :: 0 <= i < |cuts| ==>
      (cuts[i].jobs > 0 <==> cuts[i].pages > 0) && (cuts[i].pages > 0 <==> Searchable(blocks[i], target))
  }

  lemma CutsAreGood(blocks: seq<Block>, target: nat)
    ensures GoodCuts(blocks, Cuts(blocks, target), target)
  {
    forall i | 0 <= i < |blocks| ensures Cuts(blocks, target)[i].pages > 0 <==> Searchable(blocks[i], target) {
      PagesFillTheTarget(blocks[i], target);
    }
  }

  ghost predicate Agrees(w: Walk) {
    && w.current == |w.shards|
    && (forall k {:trigger InShard(w.out, k)} :: 0 <= k ==>
          InShard(w.out, k) == if k < |w.shards| then w.shards[k].jobs else if k == w.current then w.jobs else 0)
    && (forall j :: j in w.out ==> j.shard <= w.current && (j.shard == w.current ==> w.jobs > 0))
    && (w.blocks > 0 ==> w.jobs > 0)
  }

  lemma EmitAgrees(w: Walk, i: nat, b: Block, c: Cut)
    requires Agrees(w) && c.jobs > 0
    ensures Agrees(Emit(w, i, b, c))
  {
    var js := BlockJobs(i, w.current, c.pages, c.jobs);
    forall k: nat ensures InShard(w.out + js, k) == InShard(w.out, k) + if k == w.current then c.jobs else 0 {
      InShardConcat(w.out, js, k);
      BlockJobsInShard(i, w.current, c.pages, c.jobs, k);
    }
  }

  lemma RollAgrees(w: Walk, b: Block)
    requires Agrees(w)
    ensures Agrees(Roll(w, b))
  {
  }

  /** What a walk has put into shards, finished or not. */
  function BytesSoFar(w: Walk): nat { Bytes(w.shards) + w.bytes }

  lemma VisitAgrees(w: Walk, i: nat, b: Block, c: Cut, plan: Plan, perShard: nat)
    requires Agrees(w) && w.current < plan.maxShards && (c.jobs > 0 <==> c.pages > 0)
    ensures var w' := Visit(w, i, b, c, plan, perShard);
            Agrees(w') && w'.current < plan.maxShards && BytesSoFar(w') == BytesSoFar(w) + if c.pages > 0 then b.size else 0
  {
    if c.pages > 0 {
      var w' := Emit(w, i, b, c);
      EmitAgrees(w, i, b, c);
      RollAgrees(w', b);
      assert Roll(w', b).shards[..|w'.shards|] == w'.shards;
    }
  }

  lemma {:induction false} WalkAgrees(blocks: seq<Block>, cuts: seq<Cut>, n: nat, plan: Plan, perShard: nat)
    requires n <= |blocks| && plan.maxShards > 0 && GoodCuts(blocks, cuts, plan.target)
    ensures var w := WalkTo(blocks, cuts, n, plan, perShard);
            Agrees(w) && w.current < plan.maxShards && BytesSoFar(w) == SearchedBytes(blocks, plan.target, n)
  {
    if n > 0 {
      WalkAgrees(blocks, cuts, n - 1, plan, perShard);
      VisitAgrees(WalkTo(blocks, cuts, n - 1, plan, perShard), n - 1, blocks[n - 1], cuts[n - 1], plan, perShard);
    }
  }

  /** A finished shard has jobs, and a shard without jobs has no bytes. */
  lemma {:induction false} WalkNonempty(blocks: seq<Block>, cuts: seq<Cut>, n: nat, plan: Plan, perShard: nat)
    requires n <= |blocks| && GoodCuts(blocks, cuts, plan.target)
    ensures var w := WalkTo(blocks, cuts, n, plan, perShard);
            (forall k :: 0 <= k < |w.shards| ==> w.shards[k].jobs > 0) && (w.jobs == 0 ==> w.bytes == 0)
  {
    if n > 0 { WalkNonempty(blocks, cuts, n - 1, plan, perShard); }
  }

  /**
   Each shard's job count is the number of jobs emitted for it, no job is emitted for another shard, there
   are at most maxShards shards, and their bytes are those of the blocks that can be searched.
   */
  lemma PassesAgree(blocks: seq<Block>, plan: Plan)
    requires plan.maxShards > 0
    ensures var shards, out := AllShards(blocks, plan), AllJobs(blocks, plan);
            && |shards| <= plan.maxShards
            && (forall k :: 0 <= k < |shards| ==> InShard(out, k) == shards[k].jobs && shards[k].jobs > 0)
            && (forall j :: j in out ==> j.shard < |shards|)
            && Bytes(shards) == SearchedBytes(blocks, plan.target, |blocks|)
  {
    var cuts := Cuts(blocks, plan.target);
    var perShard := BlocksPerShard(|blocks|, plan.maxShards);
    CutsAreGood(blocks, plan.target);
    WalkAgrees(blocks, cuts, |blocks|, plan, perShard);
    WalkNonempty(blocks, cuts, |blocks|, plan, perShard);
    var w := Whole(blocks, plan);
    assert (w.shards + [Shard(w.jobs, w.bytes, 1)])[..|w.shards|] == w.shards;
  }

  // ------------------------------------------------------ how blocks are spread over shards

  /** The blocks a shard has jobs for. */
  function BlocksOf(out: seq<Job>, shard: nat): set<nat> {
    set j | j in out && j.shard == shard :: j.block
  }

  /** Those of them that end before the query does. */
  function EarlyBlocks(blocks: seq<Block>, out: seq<Job>, end: int, shard: nat): set<nat> {
    set b | b in BlocksOf(out, shard) && b < |blocks| && blocks[b].end.unix < end
  }

  /** Of the blocks so far, the shard has no more than its share of early ones. */
  ghost predicate NotOverfull(blocks: seq<Block>, out: seq<Job>, plan: Plan, perShard: nat, k: nat) {
    k < plan.maxShards - 1 ==> |EarlyBlocks(blocks, out, plan.end, k)| <= perShard
  }

  ghost predicate Finished(blocks: seq<Block>, out: seq<Job>, plan: Plan, perShard: nat, k: nat) {
    |BlocksOf(out, k)| >= perShard && NotOverfull(blocks, out, plan, perShard, k)
  }

  /** Finished shards have their share of blocks; the current one has still room for an early block unless it is the last allowed. */
  ghost predicate Even(blocks: seq<Block>, n: nat, w: Walk, plan: Plan, perShard: nat) {
    && (forall j :: j in w.out ==> j.block < n && j.shard <= w.current)
    && |BlocksOf(w.out, w.current)| == w.blocks
    && (w.current < plan.maxShards - 1 ==> |EarlyBlocks(blocks, w.out, plan.end, w.current)| < perShard)
    && (forall k {:trigger Finished(blocks, w.out, plan, perShard, k)} :: 0 <= k < w.current ==> Finished(blocks, w.out, plan, perShard, k))
  }

  /** One more block adds itself to the current shard's blocks and changes no other shard's. */
  lemma EmitBlocks(blocks: seq<Block>, w: Walk, i: nat, c: Cut, end: int, k: nat)
    requires i < |blocks| && c.jobs > 0
    ensures var out := Emit(w, i, blocks[i], c).out;
            && BlocksOf(out, k) == BlocksOf(w.out, k) + (if k == w.current then {i} else {})
            && EarlyBlocks(blocks, out, end, k) ==
               EarlyBlocks(blocks, w.out, end, k) + (if k == w.current && blocks[i].end.unix < end then {i} else {})
  {
    var js := BlockJobs(i, w.current, c.pages, c.jobs);
    var out := w.out + js;
    assert Emit(w, i, blocks[i], c).out == out;
    assert js[0] in out;
    forall j | j in out ensures j in w.out || (j.block == i && j.shard == w.current) {
    }
    forall j | j in w.out ensures j in out {
    }
  }

  lemma EmitFinished(blocks: seq<Block>, n: nat, w: Walk, c: Cut, plan: Plan, perShard: nat)
    requires n < |blocks| && c.jobs > 0 && Even(blocks, n, w, plan, perShard)
    ensures var out := Emit(w, n, blocks[n], c).out;
            && (forall j :: j in out ==> j.block < n + 1 && j.shard <= w.current)
            && (forall k {:trigger Finished(blocks, out, plan, perShard, k)} :: 0 <= k < w.current ==> Finished(blocks, out, plan, perShard, k))
  {
    var out := Emit(w, n, blocks[n], c).out;
    forall k | 0 <= k < w.current ensures Finished(blocks, out, plan, perShard, k) {
      assert Finished(blocks, w.out, plan, perShard, k);
      EmitBlocks(blocks, w, n, c, plan.end, k);
    }
  }

  /** The current shard gains the block. */
  lemma EmitCurrent(blocks: seq<Block>, n: nat, w: Walk, c: Cut, plan: Plan, perShard: nat)
    requires n < |blocks| && c.jobs > 0 && Even(blocks, n, w, plan, perShard)
    ensures var out, early := Emit(w, n, blocks[n], c).out, blocks[n].end.unix < plan.end;
            && |BlocksOf(out, w.current)| == w.blocks + 1
            && NotOverfull(blocks, out, plan, perShard, w.current)
            && |EarlyBlocks(blocks, out, plan.end, w.current)| <= w.blocks + 1
            && (w.current < plan.maxShards - 1 && !early ==> |EarlyBlocks(blocks, out, plan.end, w.current)| < perShard)
  {
    EmitBlocks(blocks, w, n, c, plan.end, w.current);
    assert n !in BlocksOf(w.out, w.current);
    NoMore(EarlyBlocks(blocks, w.out, plan.end, w.current), BlocksOf(w.out, w.current));
  }

  lemma VisitEven(blocks: seq<Block>, n: nat, w: Walk, c: Cut, plan: Plan, perShard: nat)
    requires n < |blocks| && perShard > 0 && Even(blocks, n, w, plan, perShard) && (c.jobs > 0 <==> c.pages > 0)
    ensures Even(blocks, n + 1, Visit(w, n, blocks[n], c, plan, perShard), plan, perShard)
  {
    if c.pages > 0 {
      EmitFinished(blocks, n, w, c, plan, perShard);
      EmitCurrent(blocks, n, w, c, plan, perShard);
      var w' := Emit(w, n, blocks[n], c);
      if MustRoll(w', blocks[n], plan, perShard) {
        assert Finished(blocks, w'.out, plan, perShard, w.current);
        NoneLater(blocks, w'.out, plan.end, w.current + 1);
      }
    }
  }

  lemma NoneLater(blocks: seq<Block>, out: seq<Job>, end: int, shard: nat)
    requires forall j :: j in out ==> j.shard < shard
    ensures BlocksOf(out, shard) == {} && EarlyBlocks(blocks, out, end, shard) == {}
  {
  }

  lemma NoMore(a: set<nat>, b: set<nat>)
    requires a <= b
    ensures |a| <= |b|
  {
    assert b == a + (b - a);
  }

  lemma WalkNext(blocks: seq<Block>, cuts: seq<Cut>, n: nat, plan: Plan, perShard: nat, w: Walk)
    requires 0 < n <= |blocks| == |cuts| && w == WalkTo(blocks, cuts, n - 1, plan, perShard)
    ensures WalkTo(blocks, cuts, n, plan, perShard) == Visit(w, n - 1, blocks[n - 1], cuts[n - 1], plan, perShard)
  {
  }

  lemma {:induction false} WalkEven(blocks: seq<Block>, cuts: seq<Cut>, n: nat, plan: Plan, perShard: nat)
    requires n <= |blocks| && perShard > 0 && GoodCuts(blocks, cuts, plan.target)
    ensures Even(blocks, n, WalkTo(blocks, cuts, n, plan, perShard), plan, perShard)
  {
    if n == 0 {
      NoneLater(blocks, Start.out, plan.end, 0);
    } else {
      WalkEven(blocks, cuts, n - 1, plan, perShard);
      var w := WalkTo(blocks, cuts, n - 1, plan, perShard);
      VisitEven(blocks, n - 1, w, cuts[n - 1], plan, perShard);
      WalkNext(blocks, cuts, n, plan, perShard, w);
    }
  }

  /**
   Every shard but the last has at least an equal share of the blocks, and at least one; and unless it is
   the last one allowed, it has no more than that share of blocks that end before the query does.
   */
  lemma ShardsAreEven(blocks: seq<Block>, plan: Plan, k: nat)
    requires plan.maxShards > 0
    ensures var share := if |blocks| < plan.maxShards then 1 else |blocks| / plan.maxShards;
            var shards, out := AllShards(blocks, plan), AllJobs(blocks, plan);
            && (k + 1 < |shards| ==> |BlocksOf(out, k)| >= share)
            && (k + 1 < plan.maxShards ==> |EarlyBlocks(blocks, out, plan.end, k)| <= share)
  {
    var perShard := BlocksPerShard(|blocks|, plan.maxShards);
    var share := if |blocks| < plan.maxShards then 1 else |blocks| / plan.maxShards;
    assert perShard == share by { OneEach(|blocks|, plan.maxShards); }
    var cuts := Cuts(blocks, plan.target);
    CutsAreGood(blocks, plan.target);
    WalkEven(blocks, cuts, |blocks|, plan, perShard);
    WalkAgrees(blocks, cuts, |blocks|, plan, perShard);
    var w := Whole(blocks, plan);
    if k > w.current {
      NoneLater(blocks, w.out, plan.end, k);
    } else if k < w.current {
      assert Finished(blocks, w.out, plan, perShard, k);
    }
  }

  // ----------------------------------------------------- every page, exactly once

  /** How many of the jobs read a page of a block. */
  function Readers(js: seq<Job>, block: nat, page: nat): nat {
    if |js| == 0 then 0
    else Readers(js[..|js| - 1], block, page) + if js[|js| - 1].block == block && Reads(js[|js| - 1], page) then 1 else 0
  }

  lemma {:induction false} ReadersConcat(a: seq<Job>, b: seq<Job>, block: nat, page: nat)
    ensures Readers(a + b, block, page) == Readers(a, block, page) + Readers(b, block, page)
  {
    if |b| == 0 {
      assert a + b == a;
    } else {
      ReadersConcat(a, b[..|b| - 1], block, page);
      assert (a + b)[..|a + b| - 1] == a + b[..|b| - 1];
    }
  }

  lemma {:induction false} ReadersOfOther(js: seq<Job>, block: nat, page: nat)
    requires forall j :: j in js ==> j.block != block || !Reads(j, page)
    ensures Readers(js, block, page) == 0
  {
    if |js| > 0 {
      assert js[|js| - 1] in js;
      ReadersOfOther(js[..|js| - 1], block, page);
    }
  }

  lemma ReadersOfOne(js: seq<Job>, block: nat, page: nat, i: nat)
    requires i < |js| && js[i].block == block && Reads(js[i], page)
    requires forall k :: 0 <= k < |js| && k != i ==> !Reads(js[k], page)
    ensures Readers(js, block, page) == 1
  {
    assert js == (js[..i] + [js[i]]) + js[i + 1..];
    ReadersConcat(js[..i] + [js[i]], js[i + 1..], block, page);
    ReadersConcat(js[..i], [js[i]], block, page);
    ReadersOfOther(js[..i], block, page);
    ReadersOfOther(js[i + 1..], block, page);
    assert [js[i]][..0] == [];
  }

  lemma BlockReaders(i: nat, shard: nat, records: nat, pages: nat, block: nat, page: nat)
    requires pages > 0 && page < records
    ensures Readers(BlockJobs(i, shard, pages, Jobs(records, pages)), block, page) == if i == block then 1 else 0
  {
    var js := BlockJobs(i, shard, pages, Jobs(records, pages));
    if i == block {
      PagesAreTiled(i, shard, records, pages, page);
      ReadersOfOne(js, block, page, page / pages);
    } else {
      ReadersOfOther(js, block, page);
    }
  }

  /** However the block's jobs are numbered, the page is read once if the block can be searched. */
  ghost predicate ReadOnce(c: Cut, block: nat, page: nat) {
    c.pages > 0 ==> forall own :: Readers(BlockJobs(block, own, c.pages, c.jobs), block, page) == 1
  }

  lemma VisitReaders(w: Walk, i: nat, b: Block, c: Cut, plan: Plan, perShard: nat, block: nat, page: nat)
    requires i == block ==> ReadOnce(c, block, page)
    ensures Readers(Visit(w, i, b, c, plan, perShard).out, block, page) ==
            Readers(w.out, block, page) + if i == block && c.pages > 0 then 1 else 0
  {
    if c.pages > 0 {
      var js := BlockJobs(i, w.current, c.pages, c.jobs);
      ReadersConcat(w.out, js, block, page);
      if i != block { ReadersOfOther(js, block, page); }
    }
  }

  lemma {:induction false} WalkReaders(blocks: seq<Block>, cuts: seq<Cut>, n: nat, plan: Plan, perShard: nat, block: nat, page: nat)
    requires n <= |blocks| == |cuts| && block < |blocks| && ReadOnce(cuts[block], block, page)
    ensures Readers(WalkTo(blocks, cuts, n, plan, perShard).out, block, page) == if block < n && cuts[block].pages > 0 then 1 else 0
  {
    if n > 0 {
      WalkReaders(blocks, cuts, n - 1, plan, perShard, block, page);
      VisitReaders(WalkTo(blocks, cuts, n - 1, plan, perShard), n - 1, blocks[n - 1], cuts[n - 1], plan, perShard, block, page);
    }
  }

  /** Every page of every block that can be searched is read by exactly one job, and pages of others by none. */
  lemma {:induction false} EveryPageOnce(blocks: seq<Block>, plan: Plan, block: nat, page: nat)
    requires plan.maxShards > 0 && block < |blocks| && page < blocks[block].records
    ensures Readers(AllJobs(blocks, plan), block, page) == if Searchable(blocks[block], plan.target) then 1 else 0
  {
    PagesFillTheTarget(blocks[block], plan.target);
    var cuts := Cuts(blocks, plan.target);
    var c := CutOf(blocks[block], plan.target);
    if c.pages > 0 {
      forall own ensures Readers(BlockJobs(block, own, c.pages, c.jobs), block, page) == 1 {
        BlockReaders(block, own, blocks[block].records, c.pages, block, page);
      }
    }
    WalkReaders(blocks, cuts, |blocks|, plan, BlocksPerShard(|blocks|, plan.maxShards), block, page);
  }

  // -------------------------------------------------------- newest first, and what a shard claims

  /** Newest end first, ties by ID. */
  predicate Before(a: Block, b: Block) {
    a.end.After(b.end) || (a.end == b.end && a.id < b.id)
  }

  predicate NewestFirst(blocks: seq<Block>) {
    forall i, k :: 0 <= i < k < |blocks| ==> Before(blocks[i], blocks[k])
  }

  /** The times claimed so far fall, stay below the query's end, and bound the ends of all blocks still to come. */
  ghost predicate TimesHold(blocks: seq<Block>, n: nat, shards: seq<Shard>, end: int)
    requires n <= |blocks|
  {
    && (forall k :: 0 <= k < |shards| ==> shards[k].through < end)
    && (forall i, k :: 0 <= i < k < |shards| ==> shards[k].through <= shards[i].through)
    && (forall k, i :: 0 <= k < |shards| && n <= i < |blocks| ==> blocks[i].end.unix <= shards[k].through)
  }

  /** A job of a later shard reads a block that ends no later than an earlier shard claims. */
  predicate JobHolds(blocks: seq<Block>, shards: seq<Shard>, j: Job) {
    j.block < |blocks| && forall k :: 0 <= k < |shards| && k < j.shard ==> blocks[j.block].end.unix <= shards[k].through
  }

  lemma RollTimes(blocks: seq<Block>, n: nat, w: Walk, end: int)
    requires n < |blocks| && NewestFirst(blocks) && TimesHold(blocks, n, w.shards, end) && blocks[n].end.unix < end
    ensures TimesHold(blocks, n + 1, Roll(w, blocks[n]).shards, end)
  {
    forall i | n + 1 <= i < |blocks| ensures blocks[i].end.unix <= blocks[n].end.unix {
      assert Before(blocks[n], blocks[i]);
    }
  }

  lemma VisitTimes(blocks: seq<Block>, n: nat, w: Walk, c: Cut, plan: Plan, perShard: nat)
    requires 0 < n <= |blocks| && NewestFirst(blocks) && TimesHold(blocks, n - 1, w.shards, plan.end)
    ensures TimesHold(blocks, n, Visit(w, n - 1, blocks[n - 1], c, plan, perShard).shards, plan.end)
  {
    if c.pages > 0 {
      var w' := Emit(w, n - 1, blocks[n - 1], c);
      if MustRoll(w', blocks[n - 1], plan, perShard) { RollTimes(blocks, n - 1, w', plan.end); }
    }
  }

  lemma {:induction false} WalkTimes(blocks: seq<Block>, cuts: seq<Cut>, n: nat, plan: Plan, perShard: nat)
    requires n <= |blocks| == |cuts| && NewestFirst(blocks)
    ensures TimesHold(blocks, n, WalkTo(blocks, cuts, n, plan, perShard).shards, plan.end)
  {
    if n > 0 {
      WalkTimes(blocks, cuts, n - 1, plan, perShard);
      var w := WalkTo(blocks, cuts, n - 1, plan, perShard);
      VisitTimes(blocks, n, w, cuts[n - 1], plan, perShard);
      assert WalkTo(blocks, cuts, n, plan, perShard) == Visit(w, n - 1, blocks[n - 1], cuts[n - 1], plan, perShard);
    }
  }

  lemma RollJob(blocks: seq<Block>, w: Walk, b: Block, j: Job)
    requires JobHolds(blocks, w.shards, j) && j.shard <= |w.shards|
    ensures JobHolds(blocks, Roll(w, b).shards, j)
  {
  }

  lemma VisitJob(blocks: seq<Block>, n: nat, w: Walk, c: Cut, plan: Plan, perShard: nat, j: Job)
    requires 0 < n <= |blocks| && TimesHold(blocks, n - 1, w.shards, plan.end) && Agrees(w)
    requires j in Visit(w, n - 1, blocks[n - 1], c, plan, perShard).out && (j in w.out ==> JobHolds(blocks, w.shards, j))
    ensures JobHolds(blocks, Visit(w, n - 1, blocks[n - 1], c, plan, perShard).shards, j)
  {
    if c.pages > 0 {
      var w' := Emit(w, n - 1, blocks[n - 1], c);
      assert j in w'.out && j.shard <= w.current && JobHolds(blocks, w'.shards, j);
      RollJob(blocks, w', blocks[n - 1], j);
    }
  }

  lemma {:induction false} WalkJobs(blocks: seq<Block>, cuts: seq<Cut>, n: nat, plan: Plan, perShard: nat, j: Job)
    requires n <= |blocks| && plan.maxShards > 0 && GoodCuts(blocks, cuts, plan.target) && NewestFirst(blocks)
    requires j in WalkTo(blocks, cuts, n, plan, perShard).out
    ensures JobHolds(blocks, WalkTo(blocks, cuts, n, plan, perShard).shards, j)
  {
    WalkTimes(blocks, cuts, n - 1, plan, perShard);
    WalkAgrees(blocks, cuts, n - 1, plan, perShard);
    var w := WalkTo(blocks, cuts, n - 1, plan, perShard);
    assert WalkTo(blocks, cuts, n, plan, perShard) == Visit(w, n - 1, blocks[n - 1], cuts[n - 1], plan, perShard);
    if j in w.out { WalkJobs(blocks, cuts, n - 1, plan, perShard, j); }
    VisitJob(blocks, n, w, cuts[n - 1], plan, perShard, j);
  }

  /**
   With the newest blocks first, a shard that says it is complete through a time leaves no block ending
   after that time (in seconds) to a later shard; the times never increase and stay below the query's end.
   */
  lemma CompletedThroughIsTrue(blocks: seq<Block>, plan: Plan)
    requires plan.maxShards > 0 && NewestFirst(blocks) && plan.end > 1
    requires forall b :: b in blocks ==> b.end.unix >= 1
    ensures var shards := AllShards(blocks, plan);
            && (forall k :: 0 <= k < |shards| ==> 1 <= shards[k].through < plan.end)
            && (forall i, k :: 0 <= i < k < |shards| ==> shards[k].through <= shards[i].through)
    ensures forall j :: j in AllJobs(blocks, plan) ==> JobHolds(blocks, AllShards(blocks, plan), j)
  {
    var cuts := Cuts(blocks, plan.target);
    var perShard := BlocksPerShard(|blocks|, plan.maxShards);
    CutsAreGood(blocks, plan.target);
    WalkTimes(blocks, cuts, |blocks|, plan, perShard);
    WalkAgrees(blocks, cuts, |blocks|, plan, perShard);
    ThroughPositive(blocks, cuts, |blocks|, plan, perShard);
    forall j | j in AllJobs(blocks, plan) ensures JobHolds(blocks, AllShards(blocks, plan), j) {
      WalkJobs(blocks, cuts, |blocks|, plan, perShard, j);
    }
  }

  lemma {:induction false} ThroughPositive(blocks: seq<Block>, cuts: seq<Cut>, n: nat, plan: Plan, perShard: nat)
    requires n <= |blocks| == |cuts| && forall b :: b in blocks ==> b.end.unix >= 1
    ensures forall k :: 0 <= k < |WalkTo(blocks, cuts, n, plan, perShard).shards| ==> WalkTo(blocks, cuts, n, plan, perShard).shards[k].through >= 1
  {
    if n > 0 { ThroughPositive(blocks, cuts, n - 1, plan, perShard); }
  }
}
