/**
 One rescan of a redaction batch: the compactions that were running when blocks were skipped are looked
 up, generation by generation, and their output blocks are queued for redaction. The job list and the
 busy blocks may change between generations, so each generation has its own view of them.
 */
module Rescan {
  import W = RedactionWindow

  type JobId = string
  type BlockId = string

  /** A job as ListJobs shows it: `complete` means it succeeded, so a failed job is not complete. */
  datatype Job = Job(id: JobId, complete: bool, outputs: seq<BlockId>)

  datatype View = View(jobs: seq<Job>, busy: map<BlockId, JobId>)

  /** ListJobs collects map values: no job appears twice. */
  predicate Distinct(jobs: seq<Job>) {
    forall i, k :: 0 <= i < k < |jobs| ==> jobs[i].id != jobs[k].id
  }

  datatype Scope = Scope(window: W.Window, known: map<BlockId, W.Meta>)

  /** The block may hold data of the window: its recorded range reaches into it, or it is not known. */
  predicate InReach(scope: Scope, b: BlockId) {
    b in scope.known ==> W.Overlaps(scope.known[b], scope.window).0
  }

  // --------------------------------------------------------- one generation

  datatype Split = Split(running: seq<JobId>, outputs: seq<BlockId>)

  /** The asked jobs among the listed ones: those not complete, and the outputs of those that are. */
  function SplitJobs(jobs: seq<Job>, asked: set<JobId>): Split {
    if |jobs| == 0 then Split([], [])
    else
      var rest := SplitJobs(jobs[..|jobs| - 1], asked);
      var j := jobs[|jobs| - 1];
      if j.id !in asked then rest
      else if j.complete then rest.(outputs := rest.outputs + j.outputs)
      else rest.(running := rest.running + [j.id])
  }

  datatype Classes = Classes(next: seq<JobId>, ready: seq<BlockId>)

  /** Output blocks: busy ones give the job that holds them, the others are ready unless outside the window. */
  function Classify(outputs: seq<BlockId>, busy: map<BlockId, JobId>, scope: Scope): Classes {
    if |outputs| == 0 then Classes([], [])
    else
      var rest := Classify(outputs[..|outputs| - 1], busy, scope);
      var b := outputs[|outputs| - 1];
      if b in busy then rest.(next := rest.next + [busy[b]])
      else if b in scope.known && !W.Overlaps(scope.known[b], scope.window).0 then rest
      else rest.(ready := rest.ready + [b])
  }

  /** Collects the asked jobs, crossing each off as it is found. */
  method CollectAsked(jobs: seq<Job>, ids: seq<JobId>) returns (running: seq<JobId>, outputs: seq<BlockId>, missing: set<JobId>)
    requires Distinct(jobs)
    ensures Split(running, outputs) == SplitJobs(jobs, set i | i in ids)
    ensures missing == set id | id in ids && forall k :: 0 <= k < |jobs| ==> jobs[k].id != id
  {
    ghost var asked := set i | i in ids;
    missing := set i | i in ids;
    running, outputs := [], [];
    var n := 0;
    while n < |jobs|
      invariant 0 <= n <= |jobs|
      invariant missing == set id | id in ids && forall k :: 0 <= k < n ==> jobs[k].id != id
      invariant Split(running, outputs) == SplitJobs(jobs[..n], asked)
    {
      assert jobs[..n + 1][..n] == jobs[..n];
      var j := jobs[n];
      n := n + 1;
      if j.id !in missing { continue; }
      missing := missing - {j.id};
      if !j.complete {
        running := running + [j.id];
      } else {
        outputs := outputs + j.outputs;
      }
    }
    assert jobs[..n] == jobs;
  }

  method ClassifyOutputs(outputs: seq<BlockId>, busy: map<BlockId, JobId>, scope: Scope)
    returns (next: seq<JobId>, ready: seq<BlockId>)
    ensures Classes(next, ready) == Classify(outputs, busy, scope)
  {
    next, ready := [], [];
    var n := 0;
    while n < |outputs|
      invariant 0 <= n <= |outputs|
      invariant Classes(next, ready) == Classify(outputs[..n], busy, scope)
    {
      assert outputs[..n + 1][..n] == outputs[..n];
      var b := outputs[n];
      n := n + 1;
      if b in busy {
        next := next + [busy[b]];
        continue;
      }
      if b in scope.known && !W.Overlaps(scope.known[b], scope.window).0 { continue; }
      ready := ready + [b];
    }
    assert outputs[..n] == outputs;
  }

  // --------------------------------------------------------- all generations

  function SplitOf(ids: seq<JobId>, v: View): Split {
    SplitJobs(v.jobs, set i | i in ids)
  }

  function ClassesOf(ids: seq<JobId>, v: View, scope: Scope): Classes {
    Classify(SplitOf(ids, v).outputs, v.busy, scope)
  }

  /** The generation ends the rescan: something is still running, or nothing is left to follow. */
  predicate Ends(ids: seq<JobId>, v: View, scope: Scope) {
    SplitOf(ids, v).running != [] || ClassesOf(ids, v, scope).next == []
  }

  datatype Outcome = Outcome(ready: seq<BlockId>, rearm: seq<JobId>, resolved: bool)

  /** The outcome with blocks queued before it. */
  function Before(ready: seq<BlockId>, o: Outcome): Outcome {
    o.(ready := ready + o.ready)
  }

  function Run(ids: seq<JobId>, views: seq<View>, scope: Scope): Outcome
    decreases |views|
  {
    if |views| == 0 then Outcome([], [], false)
    else
      var s := SplitOf(ids, views[0]);
      var c := ClassesOf(ids, views[0], scope);
      if s.running != [] then Outcome(c.ready, s.running + c.next, true)
      else if c.next == [] then Outcome(c.ready, [], true)
      else
        Before(c.ready, Run(c.next, views[1..], scope))
  }

  /** The body of the loop below. */
  method OneGeneration(ids: seq<JobId>, v: View, scope: Scope) returns (running: seq<JobId>, next: seq<JobId>, ready: seq<BlockId>)
    requires Distinct(v.jobs)
    ensures running == SplitOf(ids, v).running && Classes(next, ready) == ClassesOf(ids, v, scope)
  {
    var outputs, missing;
    running, outputs, missing := CollectAsked(v.jobs, ids);
    next, ready := ClassifyOutputs(outputs, v.busy, scope);
  }

  lemma RunFrom(ids: seq<JobId>, views: seq<View>, scope: Scope, n: nat)
    requires n < |views|
    ensures var s, c := SplitOf(ids, views[n]), ClassesOf(ids, views[n], scope);
            Run(ids, views[n..], scope) ==
            if s.running != [] then Outcome(c.ready, s.running + c.next, true)
            else if c.next == [] then Outcome(c.ready, [], true)
            else Before(c.ready, Run(c.next, views[n + 1..], scope))
  {
    assert views[n..][1..] == views[n + 1..];
  }

  lemma BeforeBefore(a: seq<BlockId>, b: seq<BlockId>, o: Outcome)
    ensures Before(a, Before(b, o)) == Before(a + b, o)
  {
    assert a + (b + o.ready) == a + b + o.ready;
  }

  /** performRescan's loop: at most one generation per view. */
  method PerformRescan(skipped: seq<JobId>, views: seq<View>, scope: Scope)
    returns (ready: seq<BlockId>, rearm: seq<JobId>, resolved: bool)
    requires forall i :: 0 <= i < |views| ==> Distinct(views[i].jobs)
    ensures Outcome(ready, rearm, resolved) == Run(skipped, views, scope)
    ensures forall b :: b in ready <==>
              && (b !in scope.known || W.Overlaps(scope.known[b], scope.window).0)
              && exists i: nat :: Reported(skipped, views, scope, i, b) && b !in views[i].busy
  {
    forall b ensures b in Run(skipped, views, scope).ready <==>
              && (b !in scope.known || W.Overlaps(scope.known[b], scope.window).0)
              && exists i: nat :: Reported(skipped, views, scope, i, b) && b !in views[i].busy
    {
      QueuedExactly(skipped, views, scope, b);
    }
    var current := skipped;
    ready, rearm, resolved := [], [], false;
    var n := 0;
    assert views[0..] == views;
    while n < |views|
      invariant 0 <= n <= |views| && rearm == [] && !resolved
      invariant Run(skipped, views, scope) == Before(ready, Run(current, views[n..], scope))
    {
      RunFrom(current, views, scope, n);
      var running, next, more := OneGeneration(current, views[n], scope);
      BeforeBefore(ready, more, Run(next, views[n + 1..], scope));
      ready := ready + more;
      if running != [] {
        rearm := running + next;
        resolved := true;
        return;
      }
      if next == [] {
        resolved := true;
        return;
      }
      current := next;
      n := n + 1;
    }
  }

  // ------------------------------------------------------------------ coverage

  /** The jobs asked about in generation k, or None if the rescan ended before it. */
  datatype Asked = Nobody | Ids(ids: seq<JobId>)

  function AskedAt(ids: seq<JobId>, views: seq<View>, scope: Scope, k: nat): Asked
    decreases |views|
  {
    if |views| == 0 then Nobody
    else if k == 0 then Ids(ids)
    else if Ends(ids, views[0], scope) then Nobody
    else AskedAt(ClassesOf(ids, views[0], scope).next, views[1..], scope, k - 1)
  }

  lemma {:induction false} SplitExact(jobs: seq<Job>, asked: set<JobId>)
    ensures forall id :: id in SplitJobs(jobs, asked).running <==> exists i :: 0 <= i < |jobs| && jobs[i].id == id && id in asked && !jobs[i].complete
    ensures forall b :: b in SplitJobs(jobs, asked).outputs <==> exists i :: 0 <= i < |jobs| && jobs[i].id in asked && jobs[i].complete && b in jobs[i].outputs
  {
    if |jobs| > 0 {
      var before := jobs[..|jobs| - 1];
      SplitExact(before, asked);
      assert forall i :: 0 <= i < |before| ==> before[i] == jobs[i];
    }
  }

  lemma {:induction false} ClassifyExact(outputs: seq<BlockId>, busy: map<BlockId, JobId>, scope: Scope)
    ensures forall b :: b in Classify(outputs, busy, scope).ready <==> b in outputs && b !in busy && InReach(scope, b)
    ensures forall j :: j in Classify(outputs, busy, scope).next <==> exists b :: b in outputs && b in busy && busy[b] == j
  {
    if |outputs| > 0 {
      var before := outputs[..|outputs| - 1];
      ClassifyExact(before, busy, scope);
      assert outputs == before + [outputs[|outputs| - 1]];
    }
  }

  /** What becomes of an output block of a finished job asked about in some generation. */
  ghost predicate Covered(ids: seq<JobId>, views: seq<View>, scope: Scope, k: nat, b: BlockId)
    requires k < |views|
  {
    || b in Run(ids, views, scope).ready
    || !InReach(scope, b)
    || (b in views[k].busy && Continued(ids, views, scope, k, views[k].busy[b]))
  }

  /** After generation k the rescan re-arms for the job, or asks about it next, or has given up. */
  ghost predicate Continued(ids: seq<JobId>, views: seq<View>, scope: Scope, k: nat, holder: JobId) {
    || holder in Run(ids, views, scope).rearm
    || (AskedAt(ids, views, scope, k + 1) != Nobody && holder in AskedAt(ids, views, scope, k + 1).ids)
    || (!Run(ids, views, scope).resolved && k == |views| - 1)
  }

  /**
   Every output block of every finished compaction the rescan reached is queued, outside the window, or
   busy under a job that is re-armed or asked about in the next generation; only the last generation of
   a rescan that gave up can leave a busy block unattended.
   */
  lemma {:induction false} FinishedOutputsAreCovered(ids: seq<JobId>, views: seq<View>, scope: Scope, k: nat, j: Job, b: BlockId)
    requires AskedAt(ids, views, scope, k) != Nobody && k < |views|
    requires j in views[k].jobs && j.complete && j.id in AskedAt(ids, views, scope, k).ids && b in j.outputs
    ensures Covered(ids, views, scope, k, b)
    decreases |views|
  {
    var v := views[0];
    if k == 0 {
      SplitExact(v.jobs, set i | i in ids);
      ClassifyExact(SplitOf(ids, v).outputs, v.busy, scope);
      assert b in SplitOf(ids, v).outputs by {
        var i :| 0 <= i < |v.jobs| && v.jobs[i] == j;
        assert v.jobs[i].id in (set x | x in ids);
      }
      if b in v.busy {
        var next := ClassesOf(ids, v, scope).next;
        assert v.busy[b] in next;
        assert !Ends(ids, v, scope) && |views| > 1 ==> AskedAt(ids, views, scope, 1) == Ids(next);
        assert !Ends(ids, v, scope) ==> Run(ids, views, scope) == Before(ClassesOf(ids, v, scope).ready, Run(next, views[1..], scope));
      }
    } else {
      var next := ClassesOf(ids, v, scope).next;
      FinishedOutputsAreCovered(next, views[1..], scope, k - 1, j, b);
      assert views[k] == views[1..][k - 1];
      assert AskedAt(ids, views, scope, k + 1) == AskedAt(next, views[1..], scope, k);
      if b in views[k].busy && Continued(next, views[1..], scope, k - 1, views[k].busy[b]) {
        assert Continued(ids, views, scope, k, views[k].busy[b]);
      }
    }
  }

  /**
   No trace that a scan of the window would find is overlooked: if a finished job the rescan reached wrote
   its block, the block is queued, or the job that holds it is followed, or the rescan has just given up.
   */
  lemma FindableTracesAreCovered(ids: seq<JobId>, views: seq<View>, scope: Scope, k: nat, j: Job, b: BlockId, block: W.Block, t: W.Trace)
    requires AskedAt(ids, views, scope, k) != Nobody && k < |views|
    requires j in views[k].jobs && j.complete && j.id in AskedAt(ids, views, scope, k).ids && b in j.outputs
    requires scope.window.Representable() && scope.window.Validate() && W.Recorded(block)
    requires b in scope.known ==> scope.known[b] == block.meta
    requires t in block.traces && W.Scanned(t, scope.window.FetchBounds())
    ensures InReach(scope, b)
    ensures b in Run(ids, views, scope).ready || (b in views[k].busy && Continued(ids, views, scope, k, views[k].busy[b]))
  {
    if !InReach(scope, b) { W.UnselectedHoldsNothing(block, scope.window, W.Second, t); }
    FinishedOutputsAreCovered(ids, views, scope, k, j, b);
  }

  /** No asked job that is listed and not complete, failed ones included, is forgotten. */
  lemma {:induction false} UnfinishedAreRearmed(ids: seq<JobId>, views: seq<View>, scope: Scope, k: nat, j: Job)
    requires AskedAt(ids, views, scope, k) != Nobody && k < |views|
    requires j in views[k].jobs && !j.complete && j.id in AskedAt(ids, views, scope, k).ids
    ensures Run(ids, views, scope).resolved && j.id in Run(ids, views, scope).rearm
    decreases |views|
  {
    if k == 0 {
      SplitExact(views[0].jobs, set i | i in ids);
      assert j.id in SplitOf(ids, views[0]).running by {
        var i :| 0 <= i < |views[0].jobs| && views[0].jobs[i] == j;
        assert views[0].jobs[i].id in (set x | x in ids);
      }
    } else {
      UnfinishedAreRearmed(ClassesOf(ids, views[0], scope).next, views[1..], scope, k - 1, j);
    }
  }

  /** A block is queued only as the output of a finished job the rescan followed, free and not outside the window. */
  ghost predicate Deserved(ids: seq<JobId>, views: seq<View>, scope: Scope, k: nat, j: Job, b: BlockId) {
    && k < |views| && AskedAt(ids, views, scope, k) != Nobody
    && j in views[k].jobs && j.complete && j.id in AskedAt(ids, views, scope, k).ids
    && b in j.outputs && b !in views[k].busy && InReach(scope, b)
  }

  lemma ReadyIsDeserved(ids: seq<JobId>, views: seq<View>, scope: Scope, b: BlockId) returns (j: Job)
    requires |views| > 0 && b in ClassesOf(ids, views[0], scope).ready
    ensures Deserved(ids, views, scope, 0, j, b)
  {
    var v := views[0];
    var asked := set i | i in ids;
    SplitExact(v.jobs, asked);
    ClassifyExact(SplitOf(ids, v).outputs, v.busy, scope);
    var i :| 0 <= i < |v.jobs| && v.jobs[i].id in asked && v.jobs[i].complete && b in v.jobs[i].outputs;
    j := v.jobs[i];
  }

  lemma {:induction false} OnlyOutputsAreQueued(ids: seq<JobId>, views: seq<View>, scope: Scope, b: BlockId) returns (k: nat, j: Job)
    requires b in Run(ids, views, scope).ready
    ensures Deserved(ids, views, scope, k, j, b)
    decreases |views|
  {
    if b in ClassesOf(ids, views[0], scope).ready {
      k := 0;
      j := ReadyIsDeserved(ids, views, scope, b);
    } else {
      k, j := OnlyOutputsAreQueued(ClassesOf(ids, views[0], scope).next, views[1..], scope, b);
      k := k + 1;
    }
  }

  /** The rescan gives up exactly when every generation it was allowed had all its jobs finished and more to follow. */
  lemma {:induction false} GivesUpOnlyAtTheLimit(ids: seq<JobId>, views: seq<View>, scope: Scope)
    ensures !Run(ids, views, scope).resolved <==>
            forall k :: 0 <= k < |views| ==> (AskedAt(ids, views, scope, k) != Nobody && !Ends(AskedAt(ids, views, scope, k).ids, views[k], scope))
    ensures !Run(ids, views, scope).resolved ==> Run(ids, views, scope).rearm == []
    decreases |views|
  {
    if |views| > 0 {
      var next := ClassesOf(ids, views[0], scope).next;
      if Ends(ids, views[0], scope) {
        assert AskedAt(ids, views, scope, 0) == Ids(ids);
      } else {
        GivesUpOnlyAtTheLimit(next, views[1..], scope);
        forall k | 0 < k < |views| ensures AskedAt(ids, views, scope, k) == AskedAt(next, views[1..], scope, k - 1) && views[k] == views[1..][k - 1] {
        }
        if !Run(ids, views, scope).resolved {
          forall k | 0 <= k < |views| ensures AskedAt(ids, views, scope, k) != Nobody && !Ends(AskedAt(ids, views, scope, k).ids, views[k], scope) {
            if k > 0 { assert AskedAt(next, views[1..], scope, k - 1) != Nobody; }
          }
        } else {
          var k :| 0 <= k < |views[1..]| && !(AskedAt(next, views[1..], scope, k) != Nobody && !Ends(AskedAt(next, views[1..], scope, k).ids, views[1..][k], scope));
          assert AskedAt(ids, views, scope, k + 1) == AskedAt(next, views[1..], scope, k);
        }
      }
    }
  }

  // ------------------------------------------------------ exactly which blocks are attended to

  /** In generation i, a finished asked job is listed with b among its recorded outputs. */
  ghost predicate Reported(ids: seq<JobId>, views: seq<View>, scope: Scope, i: nat, b: BlockId) {
    && i < |views| && AskedAt(ids, views, scope, i) != Nobody
    && exists j :: j in views[i].jobs && j.complete && j.id in AskedAt(ids, views, scope, i).ids && b in j.outputs
  }

  /** In generation i, job x is asked about and not complete, or it holds a reported output. */
  ghost predicate Reason(ids: seq<JobId>, views: seq<View>, scope: Scope, i: nat, x: JobId) {
    && i < |views| && AskedAt(ids, views, scope, i) != Nobody
    && (|| (x in AskedAt(ids, views, scope, i).ids && exists j :: j in views[i].jobs && j.id == x && !j.complete)
        || exists b :: b in views[i].busy && views[i].busy[b] == x && Reported(ids, views, scope, i, b))
  }

  /** The rescan re-arms for the job, or asks about it in a later generation. */
  ghost predicate Followed(ids: seq<JobId>, views: seq<View>, scope: Scope, x: JobId) {
    || x in Run(ids, views, scope).rearm
    || exists i :: 0 < i < |views| && AskedAt(ids, views, scope, i) != Nobody && x in AskedAt(ids, views, scope, i).ids
  }

  /** The last generation of a rescan that gives up. */
  predicate GivesUpAt(ids: seq<JobId>, views: seq<View>, scope: Scope, i: nat) {
    !Run(ids, views, scope).resolved && i == |views| - 1
  }

  lemma OutputsAreReported(jobs: seq<Job>, asked: seq<JobId>, b: BlockId)
    ensures b in SplitJobs(jobs, set i | i in asked).outputs <==> exists j :: j in jobs && j.complete && j.id in asked && b in j.outputs
  {
    var ids := set i | i in asked;
    SplitExact(jobs, ids);
    if j :| j in jobs && j.complete && j.id in asked && b in j.outputs {
      var i :| 0 <= i < |jobs| && jobs[i] == j;
      assert jobs[i].id in ids;
    }
  }

  lemma RunningAreAsked(jobs: seq<Job>, asked: seq<JobId>, x: JobId)
    ensures x in SplitJobs(jobs, set i | i in asked).running <==> x in asked && exists j :: j in jobs && j.id == x && !j.complete
  {
    var ids := set i | i in asked;
    SplitExact(jobs, ids);
    if x in asked && exists j :: j in jobs && j.id == x && !j.complete {
      var j :| j in jobs && j.id == x && !j.complete;
      var i :| 0 <= i < |jobs| && jobs[i] == j;
      assert jobs[i].id in ids;
    }
  }

  /** The first generation's jobs to follow are those with a reason. */
  lemma FirstReasons(ids: seq<JobId>, views: seq<View>, scope: Scope, x: JobId)
    requires |views| > 0
    ensures Reason(ids, views, scope, 0, x) <==>
            x in SplitOf(ids, views[0]).running || x in ClassesOf(ids, views[0], scope).next
  {
    var v := views[0];
    var outputs := SplitOf(ids, v).outputs;
    RunningAreAsked(v.jobs, ids, x);
    ClassifyExact(outputs, v.busy, scope);
    forall b ensures b in outputs <==> Reported(ids, views, scope, 0, b) {
      OutputsAreReported(v.jobs, ids, b);
    }
  }

  /** What holds of the later generations holds of the rescan that starts with them. */
  lemma LaterGeneration(ids: seq<JobId>, views: seq<View>, scope: Scope, i: nat)
    requires |views| > 0 && !Ends(ids, views[0], scope)
    ensures var next := ClassesOf(ids, views[0], scope).next;
            && AskedAt(ids, views, scope, i + 1) == AskedAt(next, views[1..], scope, i)
            && (forall b :: Reported(ids, views, scope, i + 1, b) <==> Reported(next, views[1..], scope, i, b))
            && (forall x :: Reason(ids, views, scope, i + 1, x) <==> Reason(next, views[1..], scope, i, x))
            && (GivesUpAt(ids, views, scope, i + 1) <==> GivesUpAt(next, views[1..], scope, i))
  {
    if i + 1 < |views| { assert views[i + 1] == views[1..][i]; }
  }

  ghost predicate FollowReason(ids: seq<JobId>, views: seq<View>, scope: Scope, i: nat, x: JobId) {
    Reason(ids, views, scope, i, x) && !GivesUpAt(ids, views, scope, i)
  }

  lemma FollowedLater(ids: seq<JobId>, views: seq<View>, scope: Scope, x: JobId)
    requires |views| > 0 && !Ends(ids, views[0], scope)
    ensures var next := ClassesOf(ids, views[0], scope).next;
            Followed(ids, views, scope, x) <==> Followed(next, views[1..], scope, x) || (|views| > 1 && x in next)
  {
    var next := ClassesOf(ids, views[0], scope).next;
    var rest := views[1..];
    if i :| 0 < i < |views| && AskedAt(ids, views, scope, i) != Nobody && x in AskedAt(ids, views, scope, i).ids {
      LaterGeneration(ids, views, scope, i - 1);
      assert i == 1 ==> AskedAt(next, rest, scope, 0) == Ids(next);
    }
    if i :| 0 < i < |rest| && AskedAt(next, rest, scope, i) != Nobody && x in AskedAt(next, rest, scope, i).ids {
      LaterGeneration(ids, views, scope, i);
      assert AskedAt(ids, views, scope, i + 1) == AskedAt(next, rest, scope, i);
    }
    if |views| > 1 && x in next {
      LaterGeneration(ids, views, scope, 0);
      assert AskedAt(ids, views, scope, 1) == Ids(next);
    }
  }

  /** A job is followed exactly when some generation has a reason to, other than the last one of a rescan that gives up. */
  lemma {:induction false} FollowedExactly(ids: seq<JobId>, views: seq<View>, scope: Scope, x: JobId)
    ensures Followed(ids, views, scope, x) <==> exists i: nat :: FollowReason(ids, views, scope, i, x)
    decreases |views|
  {
    if |views| > 0 {
      FirstReasons(ids, views, scope, x);
      if Ends(ids, views[0], scope) {
        assert forall i: nat :: i > 0 ==> AskedAt(ids, views, scope, i) == Nobody;
        assert Followed(ids, views, scope, x) ==> FollowReason(ids, views, scope, 0, x);
      } else {
        var next := ClassesOf(ids, views[0], scope).next;
        FollowedExactly(next, views[1..], scope, x);
        FollowedLater(ids, views, scope, x);
        FollowReasonLater(ids, views, scope, x);
      }
    }
  }

  lemma FollowReasonLater(ids: seq<JobId>, views: seq<View>, scope: Scope, x: JobId)
    requires |views| > 0 && !Ends(ids, views[0], scope)
    ensures (exists i: nat :: FollowReason(ids, views, scope, i, x)) <==>
            || (exists i: nat :: FollowReason(ClassesOf(ids, views[0], scope).next, views[1..], scope, i, x))
            || (|views| > 1 && x in ClassesOf(ids, views[0], scope).next)
  {
    var next := ClassesOf(ids, views[0], scope).next;
    FirstReasons(ids, views, scope, x);
    if i: nat :| FollowReason(ids, views, scope, i, x) {
      if i == 0 {
        assert |views| == 1 ==> Run(next, views[1..], scope) == Outcome([], [], false);
      } else {
        LaterGeneration(ids, views, scope, i - 1);
        assert FollowReason(next, views[1..], scope, i - 1, x);
      }
    }
    if i: nat :| FollowReason(next, views[1..], scope, i, x) {
      LaterGeneration(ids, views, scope, i);
      assert FollowReason(ids, views, scope, i + 1, x);
    }
    if |views| > 1 && x in next { assert FollowReason(ids, views, scope, 0, x); }
  }

  /** A block is queued exactly when some generation reports it free and it is not outside the window. */
  lemma QueuedExactly(ids: seq<JobId>, views: seq<View>, scope: Scope, b: BlockId)
    ensures b in Run(ids, views, scope).ready <==>
            && (b !in scope.known || W.Overlaps(scope.known[b], scope.window).0)
            && exists i: nat :: Reported(ids, views, scope, i, b) && b !in views[i].busy
  {
    if b in Run(ids, views, scope).ready {
      var k, j := OnlyOutputsAreQueued(ids, views, scope, b);
      assert Reported(ids, views, scope, k, b);
    }
    if i: nat :| Reported(ids, views, scope, i, b) && b !in views[i].busy {
      var j :| j in views[i].jobs && j.complete && j.id in AskedAt(ids, views, scope, i).ids && b in j.outputs;
      FinishedOutputsAreCovered(ids, views, scope, i, j, b);
    }
  }

  /** The rescan sees to the block: it is queued, or outside the window, or held by a job that is followed. */
  ghost predicate Attended(ids: seq<JobId>, views: seq<View>, scope: Scope, b: BlockId) {
    || b in Run(ids, views, scope).ready
    || !InReach(scope, b)
    || exists i: nat :: HeldAt(ids, views, scope, i, b) && Followed(ids, views, scope, views[i].busy[b])
  }

  ghost predicate HeldAt(ids: seq<JobId>, views: seq<View>, scope: Scope, i: nat, b: BlockId) {
    i < |views| && AskedAt(ids, views, scope, i) != Nobody && b in views[i].busy
  }

  /** Some generation reports the block while nothing holds it, or a job seen to hold it is one with a reason to follow it. */
  ghost predicate Traceable(ids: seq<JobId>, views: seq<View>, scope: Scope, b: BlockId) {
    || (exists i: nat :: Reported(ids, views, scope, i, b) && b !in views[i].busy)
    || exists i: nat, k: nat :: HeldAt(ids, views, scope, i, b) && FollowReason(ids, views, scope, k, views[i].busy[b])
  }

  /**
   Of all blocks whatever, a rescan sees to exactly those outside the window, those some generation finds
   recorded and free, and those held by a job it has a reason to follow: one still running, or one that
   holds a recorded output, in a generation at which it does not give up.
   */
  lemma {:induction false} AttendedExactly(ids: seq<JobId>, views: seq<View>, scope: Scope, b: BlockId)
    ensures Attended(ids, views, scope, b) <==> !InReach(scope, b) || Traceable(ids, views, scope, b)
  {
    QueuedExactly(ids, views, scope, b);
    if i: nat :| HeldAt(ids, views, scope, i, b) && Followed(ids, views, scope, views[i].busy[b]) {
      FollowedExactly(ids, views, scope, views[i].busy[b]);
      var k: nat :| FollowReason(ids, views, scope, k, views[i].busy[b]);
    }
    if i: nat, k: nat :| HeldAt(ids, views, scope, i, b) && FollowReason(ids, views, scope, k, views[i].busy[b]) {
      FollowedExactly(ids, views, scope, views[i].busy[b]);
    }
  }

  /** A block in the window that nothing holds yet, such as a compaction's new output, is seen to exactly when it has been recorded. */
  lemma {:induction false} NewOutputNeedsRecording(ids: seq<JobId>, views: seq<View>, scope: Scope, b: BlockId)
    requires InReach(scope, b) && forall i :: 0 <= i < |views| ==> b !in views[i].busy
    ensures Attended(ids, views, scope, b) <==> exists i: nat :: Reported(ids, views, scope, i, b)
  {
    AttendedExactly(ids, views, scope, b);
    if i: nat :| Reported(ids, views, scope, i, b) { assert b !in views[i].busy; }
  }

  // ----------------------------------------------------------- the order of a report's two writes

  /** UpdateJob completes a compaction and then records its outputs; the other order is what a rescan needs. */
  datatype Order = CompletionFirst | OutputsFirst

  /** What may be seen of a job that really produces these outputs: nothing reported, both writes, or just the first. */
  predicate Shows(order: Order, j: Job, produced: seq<BlockId>) {
    || (!j.complete && j.outputs == [])
    || (j.complete && j.outputs == produced)
    || (match order
        case CompletionFirst => j.complete && j.outputs == []
        case OutputsFirst => !j.complete && j.outputs == produced)
  }

  /** Every job of every view is seen at some point of its report. */
  predicate Honest(order: Order, produced: JobId -> seq<BlockId>, views: seq<View>) {
    forall i, k :: 0 <= i < |views| && 0 <= k < |views[i].jobs| ==> Shows(order, views[i].jobs[k], produced(views[i].jobs[k].id))
  }

  /** A finished job is asked about in generation k, and b is one of the blocks it really wrote. */
  predicate Produces(ids: seq<JobId>, views: seq<View>, scope: Scope, k: nat, j: Job, produced: JobId -> seq<BlockId>, b: BlockId) {
    && k < |views| && AskedAt(ids, views, scope, k) != Nobody
    && j in views[k].jobs && j.complete && j.id in AskedAt(ids, views, scope, k).ids && b in produced(j.id)
  }

  /** Whatever a rescan sees, every block really written by a finished job it asks about is covered. */
  ghost predicate RescansCover(order: Order, produced: JobId -> seq<BlockId>) {
    forall ids, views, scope, k, j, b {:trigger Honest(order, produced, views), Produces(ids, views, scope, k, j, produced, b)} ::
      Honest(order, produced, views) && Produces(ids, views, scope, k, j, produced, b) ==> Covered(ids, views, scope, k, b)
  }

  /** A corollary of FinishedOutputsAreCovered. */
  lemma {:induction false} OutputsFirstCovers(produced: JobId -> seq<BlockId>, ids: seq<JobId>, views: seq<View>, scope: Scope, k: nat, j: Job, b: BlockId)
    requires Honest(OutputsFirst, produced, views) && Produces(ids, views, scope, k, j, produced, b)
    ensures Covered(ids, views, scope, k, b)
  {
    var n :| 0 <= n < |views[k].jobs| && views[k].jobs[n] == j;
    assert Shows(OutputsFirst, views[k].jobs[n], produced(views[k].jobs[n].id));
    FinishedOutputsAreCovered(ids, views, scope, k, j, b);
  }

  /** A rescan that looks between the two writes sees a finished job without outputs, ends cleanly, and never returns to it. */
  lemma {:induction false} CompletionFirstMisses(produced: JobId -> seq<BlockId>, x: JobId)
    requires produced(x) != []
    ensures !RescansCover(CompletionFirst, produced)
  {
    var j := Job(x, true, []);
    var v := View([j], map[]);
    var scope := Scope(W.Window(0, 0), map[]);
    var b := produced(x)[0];
    assert SplitJobs(v.jobs[..0], set i | i in [x]) == Split([], []);
    assert SplitJobs(v.jobs, set i | i in [x]) == Split([], []);
    assert Run([x], [v], scope) == Outcome([], [], true);
    assert Honest(CompletionFirst, produced, [v]);
    assert Produces([x], [v], scope, 0, j, produced, b);
    assert !Covered([x], [v], scope, 0, b);
  }

  /** Rescans cover everything finished compactions really write exactly when outputs are recorded first, or there are none. */
  lemma {:induction false} CoversExactlyWithOutputsFirst(order: Order, produced: JobId -> seq<BlockId>)
    ensures RescansCover(order, produced) <==> order == OutputsFirst || forall x :: produced(x) == []
  {
    if order == OutputsFirst {
      forall ids, views, scope, k, j, b | Honest(order, produced, views) && Produces(ids, views, scope, k, j, produced, b)
        ensures Covered(ids, views, scope, k, b)
      {
        OutputsFirstCovers(produced, ids, views, scope, k, j, b);
      }
    } else if x :| produced(x) != [] {
      CompletionFirstMisses(produced, x);
    }
  }
}
