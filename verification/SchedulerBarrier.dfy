/** What a standing redaction batch holds back, over a stretch of a run: from its k-th state to its n-th. */
module SchedulerBarrier {
  import opened SchedulerProtocol

  // ------------------------------------------------------------------ the barrier

  /** Where a job is once it has passed Next's check. */
  const Past: set<Place> := {Admitted, Active}

  /** How many copies of a job stand at the given places. */
  function Copies(slots: seq<Slot>, j: Job, places: set<Place>): nat {
    if |slots| == 0 then 0
    else CopyWeight(slots[|slots| - 1], j, places) + Copies(slots[..|slots| - 1], j, places)
  }

  function CopyWeight(x: Slot, j: Job, places: set<Place>): nat {
    if x.job == j && x.place in places then 1 else 0
  }

  lemma {:induction false} CopiesConcat(a: seq<Slot>, b: seq<Slot>, j: Job, places: set<Place>)
    ensures Copies(a + b, j, places) == Copies(a, j, places) + Copies(b, j, places)
  {
    if |b| == 0 {
      assert a + b == a;
    } else {
      CopiesConcat(a, b[..|b| - 1], j, places);
      assert (a + b)[..|a + b| - 1] == a + b[..|b| - 1];
    }
  }

  lemma CopiesRemove(a: seq<Slot>, i: nat, j: Job, places: set<Place>)
    requires i < |a|
    ensures Copies(RemoveAt(a, i), j, places) == Copies(a, j, places) - CopyWeight(a[i], j, places)
  {
    assert a == a[..i + 1] + a[i + 1..];
    assert a[..i + 1][..i] == a[..i];
    CopiesConcat(a[..i + 1], a[i + 1..], j, places);
    CopiesConcat(a[..i], a[i + 1..], j, places);
  }

  lemma CopiesUpdate(a: seq<Slot>, i: nat, x: Slot, j: Job, places: set<Place>)
    requires i < |a|
    ensures Copies(a[i := x], j, places) == Copies(a, j, places) - CopyWeight(a[i], j, places) + CopyWeight(x, j, places)
  {
    CopiesRemove(a, i, j, places);
    CopiesRemove(a[i := x], i, j, places);
    assert RemoveAt(a, i) == RemoveAt(a[i := x], i);
  }

  /** What a move does to the slots: one comes, one goes, one changes place, or none does. */
  datatype Change = Added(x: Slot) | Removed(i: nat) | Moved(i: nat, place: Place) | Unchanged

  function ChangeOf(batches: Batches, s: Jobs, move: Move): Change
    requires CanMove(s, move)
  {
    match move
    case Dequeue(t) => Added(Slot(Hand, Pending(s, t)[0]))
    case EmitRetention(t, id) => Added(Slot(Merged, Job(id, t, Retention)))
    case Pass(i) => Moved(i, Next(s.slots[i].place))
    case Discard(i) => Removed(i)
    case Check(i) => if Stale(batches, s.slots[i].job) then Removed(i) else Moved(i, Admitted)
    case Promote(i) => if HasActive(s.slots, s.slots[i].job.id) then Removed(i) else Moved(i, Active)
    case Finish(i) => Removed(i)
    case _ => Unchanged
  }

  predicate Fits(slots: seq<Slot>, c: Change) {
    match c
    case Removed(i) => i < |slots|
    case Moved(i, place) => i < |slots|
    case _ => true
  }

  function Changed(slots: seq<Slot>, c: Change): seq<Slot>
    requires Fits(slots, c)
  {
    match c
    case Added(x) => slots + [x]
    case Removed(i) => RemoveAt(slots, i)
    case Moved(i, place) => slots[i := slots[i].(place := place)]
    case Unchanged => slots
  }

  lemma AssignSlots(s: Jobs, i: nat)
    requires i < |s.slots|
    ensures AssignAct(s, i).slots == Changed(s.slots, Moved(i, Active))
  {
  }

  lemma ChangeIsExact(batches: Batches, s: Jobs, move: Move)
    requires CanMove(s, move)
    ensures Fits(s.slots, ChangeOf(batches, s, move))
    ensures MoveAct(batches, s, move).slots == Changed(s.slots, ChangeOf(batches, s, move))
  {
    if move.Promote? { AssignSlots(s, move.i); }
  }

  /** The copies of a job at the given places that a change adds, less those it takes away. */
  function Gain(slots: seq<Slot>, c: Change, j: Job, places: set<Place>): int
    requires Fits(slots, c)
  {
    match c
    case Added(x) => CopyWeight(x, j, places)
    case Removed(i) => 0 - CopyWeight(slots[i], j, places)
    case Moved(i, place) => CopyWeight(slots[i].(place := place), j, places) - CopyWeight(slots[i], j, places)
    case Unchanged => 0
  }

  lemma ChangedCopies(slots: seq<Slot>, c: Change, j: Job, places: set<Place>)
    requires Fits(slots, c)
    ensures Copies(Changed(slots, c), j, places) == Copies(slots, j, places) + Gain(slots, c, j, places)
  {
    match c
    case Added(x) => CopiesConcat(slots, [x], j, places);
    case Removed(i) => CopiesRemove(slots, i, j, places);
    case Moved(i, place) => CopiesUpdate(slots, i, slots[i].(place := place), j, places);
    case Unchanged =>
  }

  /** Only Next's check moves a job past it, and the check drops what the batch holds back. */
  lemma BarrierMove(batches: Batches, s: Jobs, move: Move, j: Job)
    requires CanMove(s, move)
    requires j.kind == Retention && j.tenant != "" && TenantPending(batches, j.tenant)
    ensures Copies(MoveAct(batches, s, move).slots, j, Past) <= Copies(s.slots, j, Past)
  {
    ChangeIsExact(batches, s, move);
    ChangedCopies(s.slots, ChangeOf(batches, s, move), j, Past);
  }

  lemma BarrierStep(cfg: Config, s: State, step: Step, j: Job)
    requires Enabled(s, step)
    requires j.kind == Retention && j.tenant != "" && TenantPending(s.batches, j.tenant)
    ensures Copies(Apply(cfg, s, step).jobs.slots, j, Past) <= Copies(s.jobs.slots, j, Past)
  {
    if step.Pipeline? {
      BarrierMove(s.batches, s.jobs, step.move, j);
    } else {
      assert Apply(cfg, s, step).jobs.slots == s.jobs.slots;
    }
  }

  /**
   While a tenant's apply-mode batch stands, no retention job of that tenant gets past Next: the ones
   assigned at any later point were already past it when the stretch began, copy for copy.
   */
  lemma {:induction false} BatchHoldsRetention(cfg: Config, steps: seq<Step>, k: nat, n: nat, j: Job)
    requires IsRun(cfg, steps) && k <= n <= |steps|
    requires j.kind == Retention && j.tenant != ""
    requires forall m | k <= m <= n :: TenantPending(At(cfg, steps, m).batches, j.tenant)
    ensures Copies(At(cfg, steps, n).jobs.slots, j, Past) <= Copies(At(cfg, steps, k).jobs.slots, j, Past)
    decreases n
  {
    if k < n {
      BatchHoldsRetention(cfg, steps, k, n - 1, j);
      AtNext(cfg, steps, n - 1);
      assert TenantPending(At(cfg, steps, n - 1).batches, j.tenant);
      BarrierStep(cfg, At(cfg, steps, n - 1), steps[n - 1], j);
    }
  }
}
