/**
 What a shutdown can leave behind: a job in the provider channel that the forwarder will not drain any more.
 Its tenant then counts as having redaction jobs for ever; in every other state the count can still fall to 0.
 */
module SchedulerShutdown {
  import opened SchedulerProtocol
  import opened SchedulerBarrier

  /** A redaction job of t stands in the provider channel. */
  predicate InChannel(slots: seq<Slot>, t: Tenant) {
    exists i :: 0 <= i < |slots| && slots[i].place == Channel && IsRedactionOf(slots[i].job, t)
  }

  // ------------------------------------------------------- one job at each early stage

  predicate Alone(slots: seq<Slot>, place: Place) {
    forall i, k :: 0 <= i < k < |slots| && slots[i].place == place ==> slots[k].place != place
  }

  /** The provider holds one job at most, and so does the forwarder; a stage that has stopped holds none. */
  predicate PipeInv(s: Jobs) {
    && Alone(s.slots, Hand) && Alone(s.slots, Forwarder)
    && (s.providerDone ==> !Occupied(s.slots, Hand))
    && (s.forwarderDone ==> !Occupied(s.slots, Forwarder) && s.shutdown)
  }

  predicate Gains(c: Change, place: Place) {
    match c
    case Added(x) => x.place == place
    case Moved(_, p) => p == place
    case _ => false
  }

  lemma AloneStays(slots: seq<Slot>, c: Change, place: Place)
    requires Fits(slots, c) && Alone(slots, place)
    requires Gains(c, place) ==> !Occupied(slots, place)
    ensures Alone(Changed(slots, c), place)
    ensures !Occupied(slots, place) && !Gains(c, place) ==> !Occupied(Changed(slots, c), place)
    ensures c.Removed? && slots[c.i].place == place ==> !Occupied(Changed(slots, c), place)
  {
  }

  lemma MoveKeepsPipe(batches: Batches, s: Jobs, move: Move)
    requires CanMove(s, move) && PipeInv(s)
    ensures PipeInv(MoveAct(batches, s, move))
  {
    var c := ChangeOf(batches, s, move);
    ChangeIsExact(batches, s, move);
    AloneStays(s.slots, c, Hand);
    AloneStays(s.slots, c, Forwarder);
    StopsAreKept(batches, s, move);
  }

  lemma AssignStopsNobody(s: Jobs, i: nat)
    requires i < |s.slots|
    ensures AssignAct(s, i).shutdown == s.shutdown && AssignAct(s, i).providerDone == s.providerDone && AssignAct(s, i).forwarderDone == s.forwarderDone
    ensures Drop(s, i).shutdown == s.shutdown && Drop(s, i).providerDone == s.providerDone && Drop(s, i).forwarderDone == s.forwarderDone
  {
  }

  /** Who stops, and when. */
  lemma StopsAreKept(batches: Batches, s: Jobs, move: Move)
    requires CanMove(s, move)
    ensures var s' := MoveAct(batches, s, move);
            && s'.shutdown == (s.shutdown || move.Shutdown?)
            && s'.providerDone == (s.providerDone || move.ProviderStop? || (move.Discard? && s.slots[move.i].place == Hand))
            && s'.forwarderDone == (s.forwarderDone || move.ForwardStop? || (move.Discard? && s.slots[move.i].place == Forwarder))
  {
    match move
    case Discard(i) => AssignStopsNobody(s, i);
    case Check(i) => AssignStopsNobody(s, i);
    case Promote(i) => AssignStopsNobody(s, i);
    case _ =>
  }

  lemma PipeStep(cfg: Config, s: State, step: Step)
    requires Enabled(s, step) && PipeInv(s.jobs)
    ensures PipeInv(Apply(cfg, s, step).jobs)
  {
    if step.Pipeline? {
      MoveKeepsPipe(s.batches, s.jobs, step.move);
    } else {
      var s' := Apply(cfg, s, step);
      assert s'.jobs.slots == s.jobs.slots && s'.jobs.providerDone == s.jobs.providerDone
             && s'.jobs.forwarderDone == s.jobs.forwarderDone && s'.jobs.shutdown == s.jobs.shutdown;
    }
  }

  lemma {:induction false} RunPipe(cfg: Config, steps: seq<Step>)
    requires IsRun(cfg, steps)
    ensures PipeInv(Exec(cfg, steps).jobs)
  {
    if |steps| > 0 {
      RunPipe(cfg, steps[..|steps| - 1]);
      PipeStep(cfg, Exec(cfg, steps[..|steps| - 1]), steps[|steps| - 1]);
    }
  }

  // --------------------------------------------------------------- moving jobs onward

  /** How far a job is from being assigned. */
  function Distance(place: Place): nat {
    match place
    case Hand => 6
    case Channel => 5
    case Forwarder => 4
    case Merged => 3
    case Pulled => 2
    case Admitted => 1
    case Active => 0
  }

  function Ahead(slots: seq<Slot>): nat {
    if |slots| == 0 then 0 else Ahead(slots[..|slots| - 1]) + Distance(slots[|slots| - 1].place)
  }

  lemma {:induction false} AheadConcat(a: seq<Slot>, b: seq<Slot>)
    ensures Ahead(a + b) == Ahead(a) + Ahead(b)
  {
    if |b| == 0 {
      assert a + b == a;
    } else {
      AheadConcat(a, b[..|b| - 1]);
      assert (a + b)[..|a + b| - 1] == a + b[..|b| - 1];
    }
  }

  lemma AheadRemove(a: seq<Slot>, i: nat)
    requires i < |a|
    ensures Ahead(RemoveAt(a, i)) == Ahead(a) - Distance(a[i].place)
  {
    var front, back := a[..i + 1], a[i + 1..];
    assert a == front + back;
    AheadConcat(front, back);
    AheadConcat(a[..i], back);
    assert Ahead(front) == Ahead(a[..i]) + Distance(a[i].place) by {
      assert front[..i] == a[..i];
    }
  }

  lemma AheadUpdate(a: seq<Slot>, i: nat, x: Slot)
    requires i < |a|
    ensures Ahead(a[i := x]) == Ahead(a) - Distance(a[i].place) + Distance(x.place)
  {
    AheadRemove(a, i);
    AheadRemove(a[i := x], i);
    assert RemoveAt(a, i) == RemoveAt(a[i := x], i);
  }

  /** A move that brings some job closer to its end, stops no stage but the provider, and fills no channel that nobody drains. */
  predicate Onward(s: Jobs, move: Move) {
    && CanMove(s, move)
    && match move
       case Pass(i) => s.slots[i].place == Hand ==> !s.forwarderDone
       case Discard(i) => s.slots[i].place == Hand
       case Check(i) => true
       case Promote(i) => true
       case _ => false
  }

  lemma OnwardShortens(batches: Batches, s: Jobs, move: Move)
    requires Onward(s, move)
    ensures Ahead(MoveAct(batches, s, move).slots) < Ahead(s.slots)
    ensures MoveAct(batches, s, move).forwarderDone == s.forwarderDone
    ensures s.forwarderDone ==> !Gains(ChangeOf(batches, s, move), Channel)
  {
    var c := ChangeOf(batches, s, move);
    ChangeIsExact(batches, s, move);
    StopsAreKept(batches, s, move);
    if c.Removed? { AheadRemove(s.slots, c.i); } else { AheadUpdate(s.slots, c.i, s.slots[c.i].(place := c.place)); }
  }

  /** A job before the merged channel can move, or one in front of it can. */
  lemma ForwarderMoves(s: Jobs, i: nat) returns (move: Move)
    requires i < |s.slots| && s.slots[i].place == Forwarder
    ensures Onward(s, move)
  {
    move := Pass(i);
    if m :| 0 <= m < |s.slots| && s.slots[m].place == Merged { move := Pass(m); }
  }

  lemma ChannelMoves(s: Jobs, i: nat) returns (move: Move)
    requires i < |s.slots| && s.slots[i].place == Channel && !s.forwarderDone
    ensures Onward(s, move)
  {
    move := Pass(i);
    if f :| 0 <= f < |s.slots| && s.slots[f].place == Forwarder { move := ForwarderMoves(s, f); }
  }

  lemma HandMoves(s: Jobs, i: nat) returns (move: Move)
    requires i < |s.slots| && s.slots[i].place == Hand && (s.forwarderDone ==> s.shutdown)
    ensures Onward(s, move)
  {
    if s.forwarderDone {
      move := Discard(i);
    } else {
      move := Pass(i);
      if c :| 0 <= c < |s.slots| && s.slots[c].place == Channel { move := ChannelMoves(s, c); }
    }
  }

  lemma SomeMove(s: Jobs, i: nat) returns (move: Move)
    requires PipeInv(s) && i < |s.slots| && s.slots[i].place != Active
    requires s.forwarderDone ==> s.slots[i].place != Channel
    ensures Onward(s, move)
  {
    match s.slots[i].place
    case Hand => move := HandMoves(s, i);
    case Channel => move := ChannelMoves(s, i);
    case Forwarder => move := ForwarderMoves(s, i);
    case Merged => move := Pass(i);
    case Pulled => move := Check(i);
    case Admitted => move := Promote(i);
    case Active => assert false;
  }

  // ------------------------------------------------------------------ the exact leak

  /** Nothing of t's stands in a channel nobody drains. */
  predicate Drainable(s: Jobs, t: Tenant) {
    !(s.forwarderDone && InChannel(s.slots, t))
  }

  /** The run can go on so that t's in-flight count falls to 0. */
  ghost predicate CanDrain(cfg: Config, steps: seq<Step>, t: Tenant) {
    exists all :: steps <= all && IsRun(cfg, all) && InFlight(Exec(cfg, all).jobs, t) == 0
  }

  lemma ChannelStays(slots: seq<Slot>, c: Change, t: Tenant)
    requires Fits(slots, c) && !InChannel(slots, t) && !Gains(c, Channel)
    ensures !InChannel(Changed(slots, c), t)
  {
  }

  /** One move onward, as a step of the run. */
  lemma OneOnward(cfg: Config, steps: seq<Step>, t: Tenant) returns (step: Step)
    requires IsRun(cfg, steps) && Drainable(Exec(cfg, steps).jobs, t) && InFlight(Exec(cfg, steps).jobs, t) > 0
    ensures IsRun(cfg, steps + [step]) && Drainable(Exec(cfg, steps + [step]).jobs, t)
    ensures Ahead(Exec(cfg, steps + [step]).jobs.slots) < Ahead(Exec(cfg, steps).jobs.slots)
  {
    var s := Exec(cfg, steps);
    InFlightIsExact(cfg, steps, t);
    RunPipe(cfg, steps);
    CountZero(s.jobs.slots, t, false);
    var x :| x in s.jobs.slots && Weight(x, t, false) != 0;
    var i :| 0 <= i < |s.jobs.slots| && s.jobs.slots[i] == x;
    var move := SomeMove(s.jobs, i);
    step := Pipeline(move);
    Extend(cfg, steps, step);
    OnwardShortens(s.batches, s.jobs, move);
    ChangeIsExact(s.batches, s.jobs, move);
    if s.jobs.forwarderDone { ChannelStays(s.jobs.slots, ChangeOf(s.batches, s.jobs, move), t); }
  }

  lemma {:induction false} Drains(cfg: Config, steps: seq<Step>, t: Tenant, n: nat) returns (all: seq<Step>)
    requires IsRun(cfg, steps) && Drainable(Exec(cfg, steps).jobs, t) && Ahead(Exec(cfg, steps).jobs.slots) <= n
    ensures steps <= all && IsRun(cfg, all) && InFlight(Exec(cfg, all).jobs, t) == 0
    decreases n
  {
    all := steps;
    if InFlight(Exec(cfg, steps).jobs, t) > 0 {
      var step := OneOnward(cfg, steps, t);
      all := Drains(cfg, steps + [step], t, n - 1);
    }
  }

  lemma StrandedChange(batches: Batches, s: Jobs, move: Move)
    requires CanMove(s, move) && s.forwarderDone
    ensures MoveAct(batches, s, move).forwarderDone
    ensures var c := ChangeOf(batches, s, move); c.Removed? || c.Moved? ==> c.i < |s.slots| && s.slots[c.i].place != Channel
  {
  }

  lemma StrandedMove(batches: Batches, s: Jobs, move: Move, j: Job)
    requires CanMove(s, move) && s.forwarderDone
    ensures MoveAct(batches, s, move).forwarderDone
    ensures Copies(MoveAct(batches, s, move).slots, j, {Channel}) >= Copies(s.slots, j, {Channel})
  {
    StrandedChange(batches, s, move);
    ChangeIsExact(batches, s, move);
    ChangedCopies(s.slots, ChangeOf(batches, s, move), j, {Channel});
  }

  lemma StrandedStep(cfg: Config, s: State, step: Step, j: Job)
    requires Enabled(s, step) && s.jobs.forwarderDone
    ensures Apply(cfg, s, step).jobs.forwarderDone
    ensures Copies(Apply(cfg, s, step).jobs.slots, j, {Channel}) >= Copies(s.jobs.slots, j, {Channel})
  {
    if step.Pipeline? {
      StrandedMove(s.batches, s.jobs, step.move, j);
    } else {
      assert Apply(cfg, s, step).jobs.slots == s.jobs.slots && Apply(cfg, s, step).jobs.forwarderDone == s.jobs.forwarderDone;
    }
  }

  lemma {:induction false} CopyInChannel(slots: seq<Slot>, j: Job)
    requires Copies(slots, j, {Channel}) > 0
    ensures exists x :: x in slots && x.job == j && x.place == Channel
  {
    var last := slots[|slots| - 1];
    if CopyWeight(last, j, {Channel}) == 0 {
      CopyInChannel(slots[..|slots| - 1], j);
      var x :| x in slots[..|slots| - 1] && x.job == j && x.place == Channel;
      assert x in slots;
    } else {
      assert last in slots;
    }
  }

  lemma {:induction false} ChannelIsCounted(cfg: Config, steps: seq<Step>, j: Job)
    requires IsRun(cfg, steps) && j.kind == Redaction
    requires Copies(Exec(cfg, steps).jobs.slots, j, {Channel}) > 0
    ensures InFlight(Exec(cfg, steps).jobs, j.tenant) > 0
  {
    var s := Exec(cfg, steps).jobs;
    InFlightIsExact(cfg, steps, j.tenant);
    CopyInChannel(s.slots, j);
    var x :| x in s.slots && x.job == j && x.place == Channel;
    CountZero(s.slots, j.tenant, false);
    assert Weight(x, j.tenant, false) == 1;
  }

  lemma {:induction false} StrandedStays(cfg: Config, steps: seq<Step>, k: nat, n: nat, j: Job)
    requires IsRun(cfg, steps) && k <= n <= |steps|
    requires At(cfg, steps, k).jobs.forwarderDone
    ensures At(cfg, steps, n).jobs.forwarderDone
    ensures Copies(At(cfg, steps, n).jobs.slots, j, {Channel}) >= Copies(At(cfg, steps, k).jobs.slots, j, {Channel})
    decreases n
  {
    if k < n {
      StrandedStays(cfg, steps, k, n - 1, j);
      AtNext(cfg, steps, n - 1);
      StrandedStep(cfg, At(cfg, steps, n - 1), steps[n - 1], j);
    }
  }

  /**
   The leak at shutdown: a job the forwarder did not drain stays in the channel for good, so its tenant
   counts as having redaction jobs in every later state.
   */
  lemma {:induction false} StrandedForever(cfg: Config, steps: seq<Step>, k: nat, n: nat, j: Job)
    requires IsRun(cfg, steps) && k <= n <= |steps| && j.kind == Redaction
    requires At(cfg, steps, k).jobs.forwarderDone && Copies(At(cfg, steps, k).jobs.slots, j, {Channel}) > 0
    ensures InFlight(At(cfg, steps, n).jobs, j.tenant) > 0 && HasJobs(At(cfg, steps, n).jobs, j.tenant)
  {
    StrandedStays(cfg, steps, k, n, j);
    PrefixRuns(cfg, steps, n);
    ChannelIsCounted(cfg, steps[..n], j);
  }

  lemma {:induction false} CopiesHas(slots: seq<Slot>, i: nat, places: set<Place>)
    requires i < |slots| && slots[i].place in places
    ensures Copies(slots, slots[i].job, places) > 0
  {
    if i < |slots| - 1 { CopiesHas(slots[..|slots| - 1], i, places); }
  }

  /** In every reachable state, t's count can still fall to 0 unless the forwarder is done and a job of t is in the channel. */
  lemma {:induction false} LeaksExactly(cfg: Config, steps: seq<Step>, t: Tenant)
    requires IsRun(cfg, steps)
    ensures CanDrain(cfg, steps, t) <==> Drainable(Exec(cfg, steps).jobs, t)
  {
    if Drainable(Exec(cfg, steps).jobs, t) {
      var all := Drains(cfg, steps, t, Ahead(Exec(cfg, steps).jobs.slots));
    } else {
      var slots := Exec(cfg, steps).jobs.slots;
      var i :| 0 <= i < |slots| && slots[i].place == Channel && IsRedactionOf(slots[i].job, t);
      CopiesHas(slots, i, {Channel});
      forall all | steps <= all && IsRun(cfg, all) ensures InFlight(Exec(cfg, all).jobs, t) > 0 {
        assert all[..|steps|] == steps && all[..|all|] == all;
        StrandedForever(cfg, all, |steps|, |all|, slots[i].job);
      }
    }
  }

  // -------------------------------------------------------------- the leaking schedules

  /** The forwarder stops by giving back the job it holds, without a look at the channel. */
  predicate DiscardsOwn(s: State, step: Step) {
    step.Pipeline? && step.move.Discard? && step.move.i < |s.jobs.slots| && s.jobs.slots[step.move.i].place == Forwarder
  }

  /** The provider puts a redaction job of t into the channel. */
  predicate HandsOver(s: State, step: Step, t: Tenant) {
    && step.Pipeline? && step.move.Pass? && step.move.i < |s.jobs.slots|
    && s.jobs.slots[step.move.i].place == Hand && IsRedactionOf(s.jobs.slots[step.move.i].job, t)
  }

  /** The i-th step is the forwarder's stop. */
  predicate StopsAt(steps: seq<Step>, ss: seq<State>, i: int)
    requires |ss| == |steps| + 1
  {
    0 <= i < |steps| && !ss[i].jobs.forwarderDone && ss[i + 1].jobs.forwarderDone
  }

  predicate HandsOverAt(steps: seq<Step>, ss: seq<State>, t: Tenant, j: int)
    requires |ss| == |steps| + 1
  {
    0 <= j < |steps| && HandsOver(ss[j], steps[j], t)
  }

  /** The forwarder discards its own job while t's is in the channel, or is handed one of t's after it stopped. */
  predicate LeakingSchedule(steps: seq<Step>, ss: seq<State>, t: Tenant, n: int)
    requires |ss| == |steps| + 1
  {
    exists i :: 0 <= i < n && StopsAt(steps, ss, i) &&
      (|| (DiscardsOwn(ss[i], steps[i]) && InChannel(ss[i].jobs.slots, t))
       || exists j :: i < j < n && HandsOverAt(steps, ss, t, j))
  }

  lemma ChannelChange(slots: seq<Slot>, c: Change, t: Tenant)
    requires Fits(slots, c)
    requires c.Removed? || c.Moved? ==> slots[c.i].place != Channel
    ensures InChannel(Changed(slots, c), t) <==>
            || InChannel(slots, t)
            || (c.Added? && c.x.place == Channel && IsRedactionOf(c.x.job, t))
            || (c.Moved? && c.place == Channel && IsRedactionOf(slots[c.i].job, t))
  {
    var slots' := Changed(slots, c);
    if i :| 0 <= i < |slots| && slots[i].place == Channel && IsRedactionOf(slots[i].job, t) {
      var k := if c.Removed? && c.i < i then i - 1 else i;
      assert slots'[k] == slots[i];
    }
    if c.Added? { assert slots'[|slots|] == c.x; }
    if c.Moved? { assert slots'[c.i] == slots[c.i].(place := c.place); }
  }

  /** Once the forwarder is done, what is in the channel stays, and only a hand-over adds to it. */
  lemma AfterStop(cfg: Config, steps: seq<Step>, ss: seq<State>, i: nat, t: Tenant)
    requires Through(cfg, steps, ss) && i < |steps| && ss[i].jobs.forwarderDone
    ensures ss[i + 1].jobs.forwarderDone
    ensures InChannel(ss[i + 1].jobs.slots, t) <==> InChannel(ss[i].jobs.slots, t) || HandsOver(ss[i], steps[i], t)
  {
    var s, step := ss[i], steps[i];
    assert Linked(cfg, steps, ss, i);
    if step.Pipeline? {
      StrandedChange(s.batches, s.jobs, step.move);
      ChangeIsExact(s.batches, s.jobs, step.move);
      ChannelChange(s.jobs.slots, ChangeOf(s.batches, s.jobs, step.move), t);
    } else {
      assert ss[i + 1].jobs.slots == s.jobs.slots && ss[i + 1].jobs.forwarderDone == s.jobs.forwarderDone;
    }
  }

  /** The stop itself leaves the channel as it is, and it is empty unless the forwarder discarded its own job. */
  lemma AtStop(cfg: Config, steps: seq<Step>, ss: seq<State>, i: nat, t: Tenant)
    requires Through(cfg, steps, ss) && StopsAt(steps, ss, i)
    ensures InChannel(ss[i + 1].jobs.slots, t) <==> DiscardsOwn(ss[i], steps[i]) && InChannel(ss[i].jobs.slots, t)
  {
    var s, step := ss[i], steps[i];
    assert Linked(cfg, steps, ss, i);
    assert step.Pipeline?;
    StopsAreKept(s.batches, s.jobs, step.move);
    ChangeIsExact(s.batches, s.jobs, step.move);
    ChannelChange(s.jobs.slots, ChangeOf(s.batches, s.jobs, step.move), t);
  }

  lemma StopStep(cfg: Config, steps: seq<Step>, ss: seq<State>, i: nat)
    requires Through(cfg, steps, ss) && i < |steps|
    ensures ss[i].jobs.forwarderDone ==> ss[i + 1].jobs.forwarderDone
  {
    if ss[i].jobs.forwarderDone { AfterStop(cfg, steps, ss, i, ""); }
  }

  lemma {:induction false} StaysStopped(cfg: Config, steps: seq<Step>, ss: seq<State>, i: nat, n: nat)
    requires Through(cfg, steps, ss) && i <= n <= |steps| && ss[i].jobs.forwarderDone
    ensures ss[n].jobs.forwarderDone
    decreases n
  {
    if i < n {
      StaysStopped(cfg, steps, ss, i, n - 1);
      StopStep(cfg, steps, ss, n - 1);
    }
  }

  lemma {:induction false} StrandedBySchedule(cfg: Config, steps: seq<Step>, ss: seq<State>, n: nat, t: Tenant)
    requires Through(cfg, steps, ss) && n <= |steps|
    ensures ss[n].jobs.forwarderDone && InChannel(ss[n].jobs.slots, t) <==> LeakingSchedule(steps, ss, t, n)
    decreases n
  {
    if n > 0 {
      StrandedBySchedule(cfg, steps, ss, n - 1, t);
      if ss[n - 1].jobs.forwarderDone {
        AfterStop(cfg, steps, ss, n - 1, t);
        LaterStep(cfg, steps, ss, n, t);
      } else if ss[n].jobs.forwarderDone {
        AtStop(cfg, steps, ss, n - 1, t);
        FirstStop(cfg, steps, ss, n, t);
      } else {
        forall i | StopsAt(steps, ss, i) ensures i >= n {
          if i < n { StaysStopped(cfg, steps, ss, i + 1, n); }
        }
      }
    }
  }

  /** A step after the stop adds to the leaking schedules exactly a hand-over. */
  lemma LaterStep(cfg: Config, steps: seq<Step>, ss: seq<State>, n: nat, t: Tenant)
    requires Through(cfg, steps, ss) && 0 < n <= |steps| && ss[n - 1].jobs.forwarderDone
    ensures LeakingSchedule(steps, ss, t, n) <==> LeakingSchedule(steps, ss, t, n - 1) || HandsOver(ss[n - 1], steps[n - 1], t)
  {
    var i := FindStop(cfg, steps, ss, n - 1);
    assert !StopsAt(steps, ss, n - 1);
    if HandsOver(ss[n - 1], steps[n - 1], t) { assert HandsOverAt(steps, ss, t, n - 1); }
  }

  /** Up to the stop itself, the only leak is the one at the stop. */
  lemma FirstStop(cfg: Config, steps: seq<Step>, ss: seq<State>, n: nat, t: Tenant)
    requires Through(cfg, steps, ss) && 0 < n <= |steps| && StopsAt(steps, ss, n - 1)
    ensures LeakingSchedule(steps, ss, t, n) <==> DiscardsOwn(ss[n - 1], steps[n - 1]) && InChannel(ss[n - 1].jobs.slots, t)
  {
    forall i | StopsAt(steps, ss, i) && i < n ensures i == n - 1 {
      if i < n - 1 { StaysStopped(cfg, steps, ss, i + 1, n - 1); }
    }
  }

  lemma {:induction false} FindStop(cfg: Config, steps: seq<Step>, ss: seq<State>, n: nat) returns (i: nat)
    requires Through(cfg, steps, ss) && n <= |steps| && ss[n].jobs.forwarderDone
    ensures i < n && StopsAt(steps, ss, i)
    decreases n
  {
    if ss[n - 1].jobs.forwarderDone { i := FindStop(cfg, steps, ss, n - 1); } else { i := n - 1; }
  }

  /**
   The leak, on the schedule: t's count can never fall to 0 again exactly when the forwarder stopped by
   discarding its own job with a job of t in the channel, or was handed a job of t after it had stopped.
   */
  lemma {:induction false} LeaksExactlyBySchedule(cfg: Config, steps: seq<Step>, ss: seq<State>, t: Tenant)
    requires Through(cfg, steps, ss)
    ensures IsRun(cfg, steps) && (CanDrain(cfg, steps, t) <==> !LeakingSchedule(steps, ss, t, |steps|))
  {
    ThroughIsRun(cfg, steps, ss, |steps|);
    assert steps[..|steps|] == steps;
    LeaksExactly(cfg, steps, t);
    StrandedBySchedule(cfg, steps, ss, |steps|, t);
  }
}
