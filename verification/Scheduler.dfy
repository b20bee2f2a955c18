/**
 The work store and the scheduler's own methods, each run to completion: every method is tied to the
 step of SchedulerProtocol that it performs when nothing interrupts it.
 */
module Scheduler {
  import opened Options
  import opened SchedulerProtocol

  datatype Status = Assigned | Running | Succeeded | Failed

  datatype Entry = Entry(job: Job, status: Status, worker: string) {
    predicate Active() { status == Assigned || status == Running }
  }

  // ---------------------------------------------------------- the pending queue

  type Queue = map<Tenant, seq<nat>>

  /** The jobs a tenant's queue stands for; an ID whose job is gone from its shard is stale. */
  function Live(ids: seq<nat>, shard: map<nat, Job>): seq<Job> {
    if |ids| == 0 then []
    else (if ids[0] in shard then [shard[ids[0]]] else []) + Live(ids[1..], shard)
  }

  lemma Regroup<T>(a: seq<T>, b: seq<T>, c: seq<T>)
    ensures (a + b) + c == a + (b + c)
  {
  }

  lemma {:induction false} LiveConcat(a: seq<nat>, b: seq<nat>, shard: map<nat, Job>)
    ensures Live(a + b, shard) == Live(a, shard) + Live(b, shard)
  {
    if |a| == 0 {
      assert a + b == b;
    } else {
      LiveConcat(a[1..], b, shard);
      assert (a + b)[1..] == a[1..] + b;
      var head := if a[0] in shard then [shard[a[0]]] else [];
      Regroup(head, Live(a[1..], shard), Live(b, shard));
    }
  }

  lemma {:induction false} LiveSame(ids: seq<nat>, shard: map<nat, Job>, shard': map<nat, Job>)
    requires forall id :: id in ids ==> (id in shard <==> id in shard') && (id in shard ==> shard[id] == shard'[id])
    ensures Live(ids, shard) == Live(ids, shard')
  {
    if |ids| > 0 { LiveSame(ids[1..], shard, shard'); }
  }

  ghost function Total(q: Queue): nat
    decreases q.Keys
  {
    if q == map[] then 0
    else
      var t :| t in q;
      |q[t]| + Total(q - {t})
  }

  lemma {:induction false} TotalOf(q: Queue, t: Tenant)
    requires t in q
    ensures Total(q) == |q[t]| + Total(q - {t})
    decreases q.Keys
  {
    var u :| u in q && Total(q) == |q[u]| + Total(q - {u});
    if u != t {
      TotalOf(q - {u}, t);
      TotalOf(q - {t}, u);
      assert q - {u} - {t} == q - {t} - {u};
    }
  }

  function Popped(q: Queue, t: Tenant): Queue
    requires t in q && |q[t]| > 0
  {
    if |q[t]| == 1 then q - {t} else q[t := q[t][1..]]
  }

  lemma PoppedIsShorter(q: Queue, t: Tenant)
    requires t in q && |q[t]| > 0
    ensures Total(Popped(q, t)) < Total(q)
  {
    TotalOf(q, t);
    if |q[t]| > 1 {
      TotalOf(q[t := q[t][1..]], t);
      assert q[t := q[t][1..]] - {t} == q - {t};
    }
  }

  ghost predicate GoodQueue(q: Queue, shard: map<nat, Job>) {
    && (forall t :: t in q ==> |q[t]| > 0)
    && (forall t, i :: t in q && 0 <= i < |q[t]| && q[t][i] in shard ==> shard[q[t][i]] == Job(q[t][i], t, Redaction))
    && (forall t, i, k :: t in q && 0 <= i < k < |q[t]| && q[t][i] == q[t][k] ==> q[t][i] !in shard)
    && (forall id :: id in shard ==> id in Get(q, shard[id].tenant, []))
  }

  /** A fresh ID has never been queued; one still pending will be skipped. */
  predicate Queueable(q: Queue, shard: map<nat, Job>, j: Job) {
    j.kind == Redaction && (j.id !in shard ==> forall t :: t in q ==> j.id !in q[t])
  }

  function Pushed(q: Queue, j: Job): Queue {
    q[j.tenant := Get(q, j.tenant, []) + [j.id]]
  }

  function Ids(js: seq<Job>, n: nat): set<nat>
    requires n <= |js|
  {
    set m | 0 <= m < n :: js[m].id
  }

  predicate AllQueueable(q: Queue, shard: map<nat, Job>, js: seq<Job>) {
    forall k :: 0 <= k < |js| ==> Queueable(q, shard, js[k])
  }

  lemma StaysQueueable(q: Queue, shard: map<nat, Job>, js: seq<Job>)
    requires |js| > 0 && AllQueueable(q, shard, js)
    ensures AllQueueable(q, shard, js[1..])
    ensures js[0].id !in shard ==> AllQueueable(Pushed(q, js[0]), shard[js[0].id := js[0]], js[1..])
  {
  }

  /** What the k-th job of a call adds to a tenant's queue: nothing if it is pending, from before or from earlier in the call. */
  function NewFor(js: seq<Job>, k: nat, t: Tenant, known: set<nat>): seq<Job>
    requires k < |js|
  {
    if js[k].id !in known + Ids(js, k) && js[k].tenant == t then [js[k]] else []
  }

  /** What the first n jobs of an AddPendingJobs call add to a tenant's queue. */
  function Fresh(js: seq<Job>, n: nat, t: Tenant, known: set<nat>): seq<Job>
    requires n <= |js|
  {
    if n == 0 then [] else Fresh(js, n - 1, t, known) + NewFor(js, n - 1, t, known)
  }

  function LiveOf(q: Queue, shard: map<nat, Job>, t: Tenant): seq<Job> {
    Live(Get(q, t, []), shard)
  }

  /** Every tenant's pending jobs are what they were, followed by what the first n jobs of the call add. */
  ghost predicate Grown(q0: Queue, shard0: map<nat, Job>, q: Queue, shard: map<nat, Job>, js: seq<Job>, n: nat)
    requires n <= |js|
  {
    forall t :: LiveOf(q, shard, t) == LiveOf(q0, shard0, t) + Fresh(js, n, t, shard0.Keys)
  }

  lemma GrowsByOne(q0: Queue, shard0: map<nat, Job>, q: Queue, shard: map<nat, Job>, q': Queue, shard': map<nat, Job>, js: seq<Job>, n: nat)
    requires n < |js| && Grown(q0, shard0, q, shard, js, n)
    requires forall t :: LiveOf(q', shard', t) == LiveOf(q, shard, t) + NewFor(js, n, t, shard0.Keys)
    ensures Grown(q0, shard0, q', shard', js, n + 1)
  {
    forall t ensures LiveOf(q', shard', t) == LiveOf(q0, shard0, t) + Fresh(js, n + 1, t, shard0.Keys) {
      Regroup(LiveOf(q0, shard0, t), Fresh(js, n, t, shard0.Keys), NewFor(js, n, t, shard0.Keys));
    }
  }

  lemma PushGood(q: Queue, shard: map<nat, Job>, j: Job)
    requires GoodQueue(q, shard) && Queueable(q, shard, j) && j.id !in shard
    ensures GoodQueue(Pushed(q, j), shard[j.id := j])
  {
  }

  lemma PushLive(q: Queue, shard: map<nat, Job>, j: Job, t: Tenant)
    requires Queueable(q, shard, j) && j.id !in shard
    ensures Live(Get(Pushed(q, j), t, []), shard[j.id := j]) == Live(Get(q, t, []), shard) + (if t == j.tenant then [j] else [])
  {
    var shard' := shard[j.id := j];
    LiveSame(Get(q, t, []), shard, shard');
    LiveConcat(Get(q, j.tenant, []), [j.id], shard');
    assert Live([j.id], shard') == [j];
  }

  /** Every ID that is queued or pending is below n. */
  ghost predicate Below(q: Queue, shard: map<nat, Job>, n: nat) {
    (forall t, id :: t in q && id in q[t] ==> id < n) && forall id :: id in shard ==> id < n
  }

  /** Bounds on the IDs in use are kept by adding jobs within them. */
  ghost predicate StaysBelow(q: Queue, shard: map<nat, Job>, q': Queue, shard': map<nat, Job>, js: seq<Job>) {
    forall n {:trigger Below(q', shard', n)} :: Below(q, shard, n) && (forall k :: 0 <= k < |js| ==> js[k].id < n) ==> Below(q', shard', n)
  }

  lemma PushBelow(q: Queue, shard: map<nat, Job>, j: Job)
    ensures StaysBelow(q, shard, Pushed(q, j), shard[j.id := j], [j])
  {
    forall n | Below(q, shard, n) && [j][0].id < n ensures Below(Pushed(q, j), shard[j.id := j], n) {
    }
  }

  lemma BelowByOne(q0: Queue, shard0: map<nat, Job>, q: Queue, shard: map<nat, Job>, q': Queue, shard': map<nat, Job>, js: seq<Job>, i: nat)
    requires i < |js| && StaysBelow(q0, shard0, q, shard, js) && StaysBelow(q, shard, q', shard', [js[i]])
    ensures StaysBelow(q0, shard0, q', shard', js)
  {
    forall n | Below(q0, shard0, n) && (forall k :: 0 <= k < |js| ==> js[k].id < n) ensures Below(q', shard', n) {
      assert Below(q, shard, n);
    }
  }

  /** A call with jobs of one tenant and IDs never used adds them all to that tenant, in order. */
  lemma {:induction false} FreshAll(js: seq<Job>, n: nat, t: Tenant, u: Tenant, known: set<nat>)
    requires n <= |js| && forall i :: 0 <= i < |js| ==> js[i].tenant == t && js[i].id !in known
    requires forall i, k :: 0 <= i < k < |js| ==> js[i].id != js[k].id
    ensures Fresh(js, n, u, known) == if u == t then js[..n] else []
  {
    if n > 0 {
      FreshAll(js, n - 1, t, u, known);
      assert js[n - 1].id !in Ids(js, n - 1);
      assert js[..n] == js[..n - 1] + [js[n - 1]];
    }
  }

  lemma PopGood(q: Queue, shard: map<nat, Job>, t: Tenant)
    requires GoodQueue(q, shard) && t in q && q[t][0] in shard
    ensures GoodQueue(Popped(q, t), shard - {q[t][0]})
  {
  }

  /** Taking the head of a queue together with its job takes the tenant's first live job and touches no other. */
  lemma PopLive(q: Queue, shard: map<nat, Job>, t: Tenant, u: Tenant)
    requires GoodQueue(q, shard) && t in q && q[t][0] in shard
    ensures Live(Get(q, u, []), shard) ==
            (if u == t then [shard[q[t][0]]] else []) + Live(Get(Popped(q, t), u, []), shard - {q[t][0]})
  {
    var shard' := shard - {q[t][0]};
    if u == t {
      assert Get(Popped(q, t), t, []) == q[t][1..];
      LiveSame(q[t][1..], shard, shard');
    } else {
      assert Get(Popped(q, t), u, []) == Get(q, u, []);
      LiveSame(Get(q, u, []), shard, shard');
    }
  }

  /** Taking a stale head changes no tenant's live jobs. */
  lemma PopStale(q: Queue, shard: map<nat, Job>, t: Tenant)
    requires GoodQueue(q, shard) && t in q && q[t][0] !in shard
    ensures GoodQueue(Popped(q, t), shard)
    ensures forall u :: Live(Get(Popped(q, t), u, []), shard) == Live(Get(q, u, []), shard)
  {
    assert Get(Popped(q, t), t, []) == q[t][1..];
  }

  // ------------------------------------------------------------ the running counts

  ghost function ActiveIn(jobs: map<nat, Entry>, t: Tenant): set<nat> {
    set id | id in jobs && jobs[id].Active() && IsRedactionOf(jobs[id].job, t)
  }

  ghost predicate RunningExact(running: map<Tenant, nat>, jobs: map<nat, Entry>) {
    forall t :: Get(running, t, 0) == |ActiveIn(jobs, t)|
  }

  function Bump(running: map<Tenant, nat>, j: Job): map<Tenant, nat> {
    if j.kind == Redaction then running[j.tenant := Get(running, j.tenant, 0) + 1] else running
  }

  lemma ActiveAdd(jobs: map<nat, Entry>, e: Entry, t: Tenant)
    requires e.job.id !in jobs && e.Active()
    ensures |ActiveIn(jobs[e.job.id := e], t)| == |ActiveIn(jobs, t)| + if IsRedactionOf(e.job, t) then 1 else 0
  {
    var more := if IsRedactionOf(e.job, t) then {e.job.id} else {};
    assert ActiveIn(jobs[e.job.id := e], t) == ActiveIn(jobs, t) + more;
    assert ActiveIn(jobs, t) !! more;
  }

  lemma AddKeepsRunning(running: map<Tenant, nat>, jobs: map<nat, Entry>, e: Entry)
    requires RunningExact(running, jobs) && e.job.id !in jobs && e.Active()
    ensures RunningExact(Bump(running, e.job), jobs[e.job.id := e])
  {
    forall t ensures Get(Bump(running, e.job), t, 0) == |ActiveIn(jobs[e.job.id := e], t)| {
      ActiveAdd(jobs, e, t);
    }
  }

  function Lowered(running: map<Tenant, nat>, e: Entry): map<Tenant, nat> {
    if e.Active() && e.job.kind == Redaction then Released(running, e.job.tenant) else running
  }

  lemma ActiveEnd(jobs: map<nat, Entry>, id: nat, status: Status, t: Tenant)
    requires id in jobs && (status == Succeeded || status == Failed)
    ensures |ActiveIn(jobs[id := jobs[id].(status := status)], t)| ==
            |ActiveIn(jobs, t)| - if jobs[id].Active() && IsRedactionOf(jobs[id].job, t) then 1 else 0
  {
    assert ActiveIn(jobs[id := jobs[id].(status := status)], t) == ActiveIn(jobs, t) - {id};
    assert id in ActiveIn(jobs, t) <==> jobs[id].Active() && IsRedactionOf(jobs[id].job, t);
  }

  lemma EndKeepsRunning(running: map<Tenant, nat>, jobs: map<nat, Entry>, id: nat, status: Status)
    requires RunningExact(running, jobs) && id in jobs && (status == Succeeded || status == Failed)
    ensures RunningExact(Lowered(running, jobs[id]), jobs[id := jobs[id].(status := status)])
  {
    var e := jobs[id];
    forall t ensures Get(Lowered(running, e), t, 0) == |ActiveIn(jobs[id := e.(status := status)], t)| {
      ActiveEnd(jobs, id, status, t);
    }
  }

  lemma StartKeepsRunning(running: map<Tenant, nat>, jobs: map<nat, Entry>, id: nat)
    requires RunningExact(running, jobs) && id in jobs && jobs[id].Active()
    ensures RunningExact(running, jobs[id := jobs[id].(status := Running)])
  {
    forall t ensures ActiveIn(jobs[id := jobs[id].(status := Running)], t) == ActiveIn(jobs, t) {
    }
  }

  // ------------------------------------------------------------------ the store

  class Work {
    var queue: Queue
    var shard: map<nat, Job>
    var inFlight: map<Tenant, nat>
    var running: map<Tenant, nat>
    var jobs: map<nat, Entry>
    var workerJobs: map<string, nat>
    var batches: Batches

    ghost predicate Valid()
      reads this
    {
      && GoodQueue(queue, shard)
      && (forall id :: id in jobs ==> jobs[id].job.id == id)
      && RunningExact(running, jobs)
    }

    function PendingOf(t: Tenant): seq<Job>
      reads this
    {
      LiveOf(queue, shard, t)
    }

    function InFlightOf(t: Tenant): nat
      reads this
    {
      Get(inFlight, t, 0)
    }

    constructor ()
      ensures Valid() && batches == map[] && forall t :: PendingOf(t) == [] && InFlightOf(t) == 0
    {
      queue, shard, inFlight, running, jobs, workerJobs, batches := map[], map[], map[], map[], map[], map[], map[];
    }

    method Push(j: Job)
      requires GoodQueue(queue, shard) && Queueable(queue, shard, j) && j.id !in shard
      modifies `queue, `shard
      ensures GoodQueue(queue, shard) && queue == Pushed(old(queue), j) && shard == old(shard)[j.id := j]
      ensures forall t :: LiveOf(queue, shard, t) == LiveOf(old(queue), old(shard), t) + (if t == j.tenant then [j] else [])
    {
      PushGood(queue, shard, j);
      forall t ensures Live(Get(Pushed(queue, j), t, []), shard[j.id := j]) == PendingOf(t) + (if t == j.tenant then [j] else []) {
        PushLive(queue, shard, j, t);
      }
      shard := shard[j.id := j];
      queue := Pushed(queue, j);
    }

    /** One turn of the loop below. */
    method AddNth(js: seq<Job>, i: nat, ghost known: set<nat>)
      requires i < |js| && GoodQueue(queue, shard) && AllQueueable(queue, shard, js[i..]) && shard.Keys == known + Ids(js, i)
      modifies `queue, `shard
      ensures GoodQueue(queue, shard) && AllQueueable(queue, shard, js[i + 1..]) && shard.Keys == known + Ids(js, i + 1)
      ensures forall t :: LiveOf(queue, shard, t) == LiveOf(old(queue), old(shard), t) + NewFor(js, i, t, known)
      ensures StaysBelow(old(queue), old(shard), queue, shard, [js[i]])
    {
      assert Ids(js, i + 1) == Ids(js, i) + {js[i].id};
      StaysQueueable(queue, shard, js[i..]);
      assert js[i..][1..] == js[i + 1..];
      assert js[i].id in shard <==> js[i].id in known + Ids(js, i);
      if js[i].id !in shard {
        PushBelow(queue, shard, js[i]);
        Push(js[i]);
      } else {
        assert forall t :: LiveOf(queue, shard, t) + NewFor(js, i, t, known) == LiveOf(queue, shard, t);
      }
    }

    /** Appends to each tenant's queue the jobs not pending yet, in order. */
    method AddPendingJobs(js: seq<Job>)
      requires Valid() && AllQueueable(queue, shard, js)
      modifies `queue, `shard
      ensures Valid()
      ensures Grown(old(queue), old(shard), queue, shard, js, |js|)
      ensures StaysBelow(old(queue), old(shard), queue, shard, js)
    {
      var i := 0;
      assert js[0..] == js;
      while i < |js|
        invariant 0 <= i <= |js|
        invariant GoodQueue(queue, shard) && AllQueueable(queue, shard, js[i..]) && shard.Keys == old(shard.Keys) + Ids(js, i)
        invariant Grown(old(queue), old(shard), queue, shard, js, i)
        invariant StaysBelow(old(queue), old(shard), queue, shard, js)
      {
        ghost var q, s := queue, shard;
        AddNth(js, i, old(shard.Keys));
        GrowsByOne(old(queue), old(shard), q, s, queue, shard, js, i);
        BelowByOne(old(queue), old(shard), q, s, queue, shard, js, i);
        i := i + 1;
      }
    }

    method ReleaseRedactionInFlight(t: Tenant)
      modifies `inFlight
      ensures inFlight == Released(old(inFlight), t)
    {
      if t in inFlight && inFlight[t] > 0 {
        inFlight := inFlight[t := inFlight[t] - 1];
      }
    }

    /** One turn of the dequeue loop: the head of t's queue goes, and its count stays only if its job was there. */
    method PopOne(t: Tenant) returns (r: Option<Job>)
      requires Valid() && t in queue
      modifies `queue, `shard, `inFlight
      ensures Valid() && queue == Popped(old(queue), t)
      ensures r.None? ==> forall u :: PendingOf(u) == old(PendingOf(u)) && InFlightOf(u) == old(InFlightOf(u))
      ensures r.Some? ==> r.value.tenant == t && r.value.kind == Redaction
      ensures r.Some? ==> forall u :: old(PendingOf(u)) == (if u == t then [r.value] else []) + PendingOf(u)
      ensures r.Some? ==> forall u :: InFlightOf(u) == old(InFlightOf(u)) + if u == t then 1 else 0
    {
      var id := queue[t][0];
      if id in shard {
        PopGood(queue, shard, t);
        forall u ensures PendingOf(u) == (if u == t then [shard[id]] else []) + Live(Get(Popped(queue, t), u, []), shard - {id}) {
          PopLive(queue, shard, t, u);
        }
      } else {
        PopStale(queue, shard, t);
      }
      queue := Popped(queue, t);
      inFlight := inFlight[t := Get(inFlight, t, 0) + 1];
      if id in shard {
        r := Some(shard[id]);
        shard := shard - {id};
      } else {
        ReleaseRedactionInFlight(t);
        r := None;
      }
    }

    /**
     Takes the first live job of some tenant, counted from the moment its queue entry is gone. Stale
     entries met on the way are consumed and their counts undone; None means no tenant has a live job.
     */
    method NextPendingJob() returns (r: Option<Job>)
      requires Valid()
      modifies `queue, `shard, `inFlight
      ensures Valid()
      ensures r.None? ==> forall t :: old(PendingOf(t)) == [] && PendingOf(t) == [] && InFlightOf(t) == old(InFlightOf(t))
      ensures r.Some? ==> r.value.kind == Redaction
      ensures r.Some? ==> forall t :: old(PendingOf(t)) == (if t == r.value.tenant then [r.value] else []) + PendingOf(t)
      ensures r.Some? ==> forall t :: InFlightOf(t) == old(InFlightOf(t)) + if t == r.value.tenant then 1 else 0
    {
      while queue != map[]
        invariant Valid()
        invariant forall t :: PendingOf(t) == old(PendingOf(t)) && InFlightOf(t) == old(InFlightOf(t))
        decreases Total(queue)
      {
        var t :| t in queue;
        PoppedIsShorter(queue, t);
        r := PopOne(t);
        if r.Some? { return; }
      }
      r := None;
    }

    /** Assigns a job; one whose ID is known already is refused. Either way its in-flight count is given back. */
    method AddJob(j: Job, worker: string) returns (ok: bool)
      requires Valid()
      modifies `jobs, `inFlight, `running, `workerJobs
      ensures Valid() && ok == (j.id !in old(jobs))
      ensures inFlight == if j.kind == Redaction then Released(old(inFlight), j.tenant) else old(inFlight)
      ensures jobs == if ok then old(jobs)[j.id := Entry(j, Assigned, worker)] else old(jobs)
      ensures workerJobs == if ok && worker != "" then old(workerJobs)[worker := j.id] else old(workerJobs)
    {
      if j.id in jobs {
        if j.kind == Redaction { ReleaseRedactionInFlight(j.tenant); }
        return false;
      }
      AddKeepsRunning(running, jobs, Entry(j, Assigned, worker));
      jobs := jobs[j.id := Entry(j, Assigned, worker)];
      if j.kind == Redaction { ReleaseRedactionInFlight(j.tenant); }
      if worker != "" { workerJobs := workerJobs[worker := j.id]; }
      running := Bump(running, j);
      return true;
    }

    /** A job handed out for the first time is running from then on; it was active before, too. */
    method StartJob(id: nat)
      requires Valid()
      modifies `jobs
      ensures Valid()
      ensures jobs == if id in old(jobs) && old(jobs)[id].status == Assigned
                      then old(jobs)[id := old(jobs)[id].(status := Running)] else old(jobs)
    {
      if id in jobs && jobs[id].status == Assigned {
        StartKeepsRunning(running, jobs, id);
        jobs := jobs[id := jobs[id].(status := Running)];
      }
    }

    /** CompleteJob and FailJob: only a job that was still active lowers the running count. */
    method EndJob(id: nat, status: Status)
      requires Valid() && (status == Succeeded || status == Failed)
      modifies `jobs, `running, `workerJobs
      ensures Valid()
      ensures jobs == if id in old(jobs) then old(jobs)[id := old(jobs)[id].(status := status)] else old(jobs)
      ensures workerJobs == if id in old(jobs) && old(jobs)[id].worker != "" then old(workerJobs) - {old(jobs)[id].worker} else old(workerJobs)
    {
      if id in jobs {
        var e := jobs[id];
        EndKeepsRunning(running, jobs, id, status);
        jobs := jobs[id := e.(status := status)];
        if e.worker != "" { workerJobs := workerJobs - {e.worker}; }
        running := Lowered(running, e);
      }
    }

    method GetJobForWorker(worker: string) returns (r: Option<Job>)
      ensures r.Some? <==> worker in workerJobs && workerJobs[worker] in jobs && jobs[workerJobs[worker]].Active()
      ensures r.Some? ==> r.value == jobs[workerJobs[worker]].job
    {
      if worker in workerJobs && workerJobs[worker] in jobs && jobs[workerJobs[worker]].Active() {
        return Some(jobs[workerJobs[worker]].job);
      }
      return None;
    }

    /** HasJobsForTenant's answer: a non-empty queue, even of stale entries, counts. */
    predicate Busy(t: Tenant)
      reads this
    {
      t in queue || Get(running, t, 0) > 0 || InFlightOf(t) > 0
    }

    /** From Valid: "no" is never wrong: then there is no pending, counted or active redaction job of the tenant. */
    lemma NotBusyMeansNone(t: Tenant)
      requires Valid() && !Busy(t)
      ensures PendingOf(t) == [] && InFlightOf(t) == 0 && ActiveIn(jobs, t) == {}
      ensures forall id :: id in shard ==> shard[id].tenant != t
    {
    }
  }

  // -------------------------------------------------------------- quiescence sweep

  /** What a sweep makes of one batch: None when it is removed. */
  function Swept(b: Batch, busy: bool, now: nat, hold: nat): Option<Batch> {
    if busy || b.rescanAfter > 0 then Some(if b.quiesceUntil != 0 then b.(quiesceUntil := 0) else b)
    else if b.dryRun then None
    else if b.quiesceUntil == 0 then Some(Entered(b, now, hold))
    else if now < b.quiesceUntil then Some(b)
    else None
  }

  function Entered(b: Batch, now: nat, hold: nat): Batch {
    b.(quiesceUntil := now + hold, entered := now)
  }

  /** What a job's completion makes of its batch. */
  function Completed(b: Batch, busy: bool, now: nat, hold: nat): Option<Batch> {
    if busy || b.rescanAfter > 0 then Some(b)
    else if b.dryRun then None
    else if b.quiesceUntil == 0 then Some(Entered(b, now, hold))
    else Some(b)
  }

  function Put(batches: Batches, t: Tenant, b: Option<Batch>): Batches {
    if b.Some? then batches[t := b.value] else batches - {t}
  }

  lemma IsPut(before: Batches, after: Batches, t: Tenant, b: Option<Batch>)
    requires forall u :: u != t ==> (u in after <==> u in before) && (u in after ==> after[u] == before[u])
    requires (t in after <==> b.Some?) && (b.Some? ==> after[t] == b.value)
    ensures after == Put(before, t, b)
  {
  }

  /** Uninterrupted, cleanupBatchIfDone's three critical sections amount to Completed. */
  lemma CleanupUninterrupted(cfg: Config, s: State, t: Tenant)
    requires t in s.batches && s.now + cfg.hold > 0
    ensures var c1 := CleanupAct(cfg, s, Reading(t)).1;
            && c1.Some?
            && var c2 := CleanupAct(cfg, s, c1.value).1;
               (if c2.Some? then CleanupAct(cfg, s, c2.value).0 else s.batches) ==
               Put(s.batches, t, Completed(s.batches[t], HasJobs(s.jobs, t), s.now, cfg.hold))
  {
  }

  /** Uninterrupted, advanceQuiescence's critical sections amount to Swept. */
  lemma SweepUninterrupted(cfg: Config, s: State, t: Tenant)
    requires t in s.batches && s.maintenance == Resting && s.now + cfg.hold > 0
    ensures var one := Apply(cfg, Apply(cfg, s, Advance(t)), AdvanceStep);
            && one.batches == s.batches
            && (if one.maintenance == Resting then s.batches else Apply(cfg, one, AdvanceStep).batches) ==
               Put(s.batches, t, Swept(s.batches[t], HasJobs(s.jobs, t), s.now, cfg.hold))
  {
  }

  // ------------------------------------------------------------------- assignment

  function RedactionsOf(js: seq<Job>, t: Tenant): nat {
    if |js| == 0 then 0 else RedactionsOf(js[..|js| - 1], t) + if IsRedactionOf(js[|js| - 1], t) then 1 else 0
  }

  lemma {:induction false} RedactionsPrefix(js: seq<Job>, n: nat, t: Tenant)
    requires n <= |js|
    ensures RedactionsOf(js[..n], t) <= RedactionsOf(js, t)
    decreases |js|
  {
    if n < |js| {
      RedactionsPrefix(js[..|js| - 1], n, t);
      assert js[..|js| - 1][..n] == js[..n];
    } else {
      assert js[..n] == js;
    }
  }

  ghost predicate Counted(inFlight: map<Tenant, nat>, js: seq<Job>) {
    forall t :: Get(inFlight, t, 0) >= RedactionsOf(js, t)
  }

  /** The counts of the first n jobs have been given back, each once. */
  ghost predicate GivenBack(before: map<Tenant, nat>, after: map<Tenant, nat>, js: seq<Job>, n: nat)
    requires n <= |js|
  {
    forall t :: Get(after, t, 0) == Get(before, t, 0) - RedactionsOf(js[..n], t)
  }

  lemma GiveBackOne(before: map<Tenant, nat>, after: map<Tenant, nat>, js: seq<Job>, n: nat)
    requires n < |js| && Counted(before, js) && GivenBack(before, after, js, n)
    ensures GivenBack(before, if js[n].kind == Redaction then Released(after, js[n].tenant) else after, js, n + 1)
  {
    var j := js[n];
    RedactionsPrefix(js, n + 1, j.tenant);
    forall t ensures RedactionsOf(js[..n + 1], t) == RedactionsOf(js[..n], t) + if IsRedactionOf(j, t) then 1 else 0 {
      assert js[..n + 1][..n] == js[..n];
    }
  }

  /**
   Next may hand the job out: a redaction if its tenant has a batch, a retention if its tenant has none that
   is not a dry run, and any job without a tenant.
   */
  predicate Wanted(batches: Batches, j: Job) {
    || j.tenant == ""
    || (j.kind == Redaction && j.tenant in batches)
    || (j.kind == Retention && (j.tenant !in batches || batches[j.tenant].dryRun))
  }

  datatype Outcome = Previous(job: Job) | Given(job: Job) | Refused | NotFound

  class BackendScheduler {
    const work: Work
    const hold: nat

    constructor (work: Work, hold: nat)
      ensures this.work == work && this.hold == hold
    {
      this.work, this.hold := work, hold;
    }

    /** One job received in Next: dropped (None), or offered to AddJob and started if it takes it. */
    method Receive(worker: string, j: Job) returns (r: Option<bool>)
      requires work.Valid()
      modifies work`jobs, work`inFlight, work`running, work`workerJobs
      ensures work.Valid() && (r.None? <==> !Wanted(work.batches, j))
      ensures work.inFlight == if j.kind == Redaction then Released(old(work.inFlight), j.tenant) else old(work.inFlight)
      ensures r.Some? ==> r.value == (j.id !in old(work.jobs))
      ensures work.jobs == if r == Some(true) then old(work.jobs)[j.id := Entry(j, Running, worker)] else old(work.jobs)
      ensures work.workerJobs == if r == Some(true) && worker != "" then old(work.workerJobs)[worker := j.id] else old(work.workerJobs)
    {
      if Stale(work.batches, j) {
        if j.kind == Redaction { work.ReleaseRedactionInFlight(j.tenant); }
        return None;
      }
      var ok := work.AddJob(j, worker);
      if ok { work.StartJob(j.id); }
      return Some(ok);
    }

    /**
     Gives the worker its unfinished job again if it has one; otherwise the first job of the merged
     channel that is not stale. Every job taken from the channel was counted once and is uncounted once.
     */
    method Next(worker: string, merged: seq<Job>) returns (r: Outcome, taken: nat)
      requires work.Valid()
      requires Counted(work.inFlight, merged)
      modifies work`jobs, work`inFlight, work`running, work`workerJobs
      ensures work.Valid() && taken <= |merged|
      ensures r.Previous? <==> worker in old(work.workerJobs) && old(work.workerJobs)[worker] in old(work.jobs)
                               && old(work.jobs)[old(work.workerJobs)[worker]].Active()
      ensures r.Previous? ==> taken == 0 && work.jobs == old(work.jobs) && work.jobs[old(work.workerJobs)[worker]].job == r.job
      ensures forall k :: 0 <= k < (if r.Given? || r.Refused? then taken - 1 else taken) ==> !Wanted(work.batches, merged[k])
      ensures r.Given? || r.Refused? ==> taken > 0 && Wanted(work.batches, merged[taken - 1])
      ensures r.NotFound? ==> taken == |merged|
      ensures r.Given? ==> r.job == merged[taken - 1] && r.job.id !in old(work.jobs)
                           && work.jobs == old(work.jobs)[r.job.id := Entry(r.job, Running, worker)]
      ensures r.Refused? ==> merged[taken - 1].id in old(work.jobs)
      ensures !r.Given? ==> work.jobs == old(work.jobs)
      ensures work.workerJobs == if r.Given? && worker != "" then old(work.workerJobs)[worker := r.job.id] else old(work.workerJobs)
      ensures GivenBack(old(work.inFlight), work.inFlight, merged, taken)
    {
      taken := 0;
      var previous := work.GetJobForWorker(worker);
      if previous.Some? {
        return Previous(previous.value), 0;
      }
      while taken < |merged|
        invariant taken <= |merged| && work.Valid()
        invariant work.jobs == old(work.jobs) && work.workerJobs == old(work.workerJobs)
        invariant forall k :: 0 <= k < taken ==> !Wanted(work.batches, merged[k])
        invariant GivenBack(old(work.inFlight), work.inFlight, merged, taken)
      {
        var j := merged[taken];
        GiveBackOne(old(work.inFlight), work.inFlight, merged, taken);
        taken := taken + 1;
        var added := Receive(worker, j);
        if added.Some? {
          return if added.value then Given(j) else Refused, taken;
        }
      }
      return NotFound, taken;
    }

    /**
     cleanupBatchIfDone, run to completion. Only a dry run goes, and only when nothing of it is left anywhere;
     a real redaction that is done gets a deadline once, and one that has a deadline keeps it.
     */
    method CleanupBatchIfDone(t: Tenant, now: nat)
      requires work.Valid()
      modifies work`batches
      ensures work.Valid()
      ensures forall u :: u != t ==> (u in work.batches <==> u in old(work.batches)) && (u in work.batches ==> work.batches[u] == old(work.batches)[u])
      ensures t in work.batches ==> t in old(work.batches)
      ensures t in old(work.batches) && t !in work.batches ==>
                && old(work.batches)[t].dryRun && old(work.batches)[t].rescanAfter == 0 && !work.Busy(t)
                && work.PendingOf(t) == [] && work.InFlightOf(t) == 0 && ActiveIn(work.jobs, t) == {}
      ensures t in work.batches && (work.Busy(t) || old(work.batches)[t].rescanAfter > 0 || old(work.batches)[t].quiesceUntil != 0) ==>
                work.batches[t] == old(work.batches)[t]
      ensures t in old(work.batches) && !work.Busy(t) && old(work.batches)[t].rescanAfter == 0 ==>
                && (t in work.batches <==> !old(work.batches)[t].dryRun)
                && (t in work.batches && old(work.batches)[t].quiesceUntil == 0 ==> work.batches[t] == Entered(old(work.batches)[t], now, hold))
    {
      if t !in work.batches { return; }
      var b := work.batches[t];
      if work.Busy(t) || b.rescanAfter > 0 {
        return;
      }
      work.NotBusyMeansNone(t);
      if b.dryRun {
        work.batches := work.batches - {t};
        return;
      }
      if b.quiesceUntil == 0 {
        work.batches := work.batches[t := Entered(b, now, hold)];
      }
    }

    /** A worker's report: a finished redaction job may complete its batch at once, a failed one leaves that to a later sweep. */
    method UpdateJob(id: nat, report: Status, now: nat) returns (found: bool)
      requires work.Valid()
      modifies work`jobs, work`running, work`workerJobs, work`batches
      ensures work.Valid() && found == (id in old(work.jobs))
      ensures !found || report == Running || report == Assigned ==> work.jobs == old(work.jobs) && work.batches == old(work.batches)
      ensures found && (report == Succeeded || report == Failed) ==> work.jobs == old(work.jobs)[id := old(work.jobs)[id].(status := report)]
      ensures found && report == Failed ==> work.batches == old(work.batches)
      ensures work.workerJobs == if found && (report == Succeeded || report == Failed) && old(work.jobs)[id].worker != ""
                                 then old(work.workerJobs) - {old(work.jobs)[id].worker} else old(work.workerJobs)
      ensures found && report == Succeeded ==>
                var j := old(work.jobs)[id].job;
                work.batches == if j.kind == Redaction && j.tenant in old(work.batches)
                                then Put(old(work.batches), j.tenant, Completed(old(work.batches)[j.tenant], work.Busy(j.tenant), now, hold))
                                else old(work.batches)
      ensures found && report == Succeeded && old(work.jobs)[id].job.kind == Redaction ==>
                var t := old(work.jobs)[id].job.tenant;
                t in old(work.batches) && t !in work.batches <==>
                t in old(work.batches) && old(work.batches)[t].dryRun && old(work.batches)[t].rescanAfter == 0 && !work.Busy(t)
    {
      if id !in work.jobs { return false; }
      var j := work.jobs[id].job;
      if report == Succeeded {
        work.EndJob(id, Succeeded);
        if j.kind == Redaction {
          CleanupBatchIfDone(j.tenant, now);
          ghost var before := old(work.batches);
          IsPut(before, work.batches, j.tenant,
                if j.tenant in before then Completed(before[j.tenant], work.Busy(j.tenant), now, hold) else None);
        }
      } else if report == Failed {
        work.EndJob(id, Failed);
      }
      return true;
    }

    /** advanceQuiescence, run to completion. */
    method AdvanceQuiescence(t: Tenant, now: nat) returns (changed: bool)
      modifies work`batches
      ensures work.batches == if t in old(work.batches)
                              then Put(old(work.batches), t, Swept(old(work.batches)[t], work.Busy(t), now, hold))
                              else old(work.batches)
      ensures now + hold > 0 ==> (changed <==> work.batches != old(work.batches))
      ensures t in old(work.batches) ==>
                var b, waits := old(work.batches)[t], work.Busy(t) || old(work.batches)[t].rescanAfter > 0;
                && (t !in work.batches <==> !waits && (b.dryRun || 0 < b.quiesceUntil <= now))
                && (waits ==> work.batches[t] == b.(quiesceUntil := 0))
                && (!waits && !b.dryRun && b.quiesceUntil == 0 ==> work.batches[t] == b.(quiesceUntil := now + hold, entered := now))
                && (!waits && !b.dryRun && b.quiesceUntil > now ==> work.batches[t] == b)
    {
      if t !in work.batches { return false; }
      var b := work.batches[t];
      if work.Busy(t) || b.rescanAfter > 0 {
        if b.quiesceUntil != 0 {
          work.batches := work.batches[t := b.(quiesceUntil := 0)];
          return true;
        }
        return false;
      }
      if b.dryRun {
        work.batches := work.batches - {t};
        return true;
      }
      if b.quiesceUntil == 0 {
        work.batches := work.batches[t := Entered(b, now, hold)];
        return true;
      }
      if now < b.quiesceUntil {
        return false;
      }
      work.batches := work.batches - {t};
      return true;
    }

    /** One maintenance tick over all batches: each is swept once, whatever the order, and none affects another. */
    method CleanupOrphanedBatches(now: nat) returns (changed: bool)
      modifies work`batches
      ensures forall t :: t in work.batches ==> t in old(work.batches)
      ensures forall t :: t in old(work.batches) ==>
                var b := Swept(old(work.batches)[t], work.Busy(t), now, hold);
                (t in work.batches <==> b.Some?) && (b.Some? ==> work.batches[t] == b.value)
      ensures now + hold > 0 ==> (changed <==> work.batches != old(work.batches))
    {
      var left := work.batches.Keys;
      changed := false;
      while left != {}
        invariant left <= old(work.batches).Keys && left <= work.batches.Keys && work.batches.Keys <= old(work.batches).Keys
        invariant forall t :: t in left ==> work.batches[t] == old(work.batches)[t]
        invariant forall t :: t in old(work.batches) && t !in left ==>
                    var b := Swept(old(work.batches)[t], work.Busy(t), now, hold);
                    (t in work.batches <==> b.Some?) && (b.Some? ==> work.batches[t] == b.value)
        invariant now + hold > 0 ==> (changed <==> exists t :: t in old(work.batches) - left && Swept(old(work.batches)[t], work.Busy(t), now, hold) != Some(old(work.batches)[t]))
      {
        var t :| t in left;
        left := left - {t};
        var c := AdvanceQuiescence(t, now);
        changed := changed || c;
      }
    }
  }
}
