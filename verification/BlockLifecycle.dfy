/**
 The life of backend blocks under compaction, redaction, retention and polling readers, as interleaved
 steps on one clock. A compaction or redaction may stop for good after any of its steps, and a mark may
 fail, by taking no further step.
 */
module BlockLifecycle {

  type Trace = nat

  /** Blocks are numbered in the order they were written. */
  type BlockId = nat

  datatype Status = Live | Compacted(at: nat) | Cleared(at: nat, clearedAt: nat)

  /** `retired` records that it was retention that marked the block. */
  datatype Block = Block(content: set<Trace>, status: Status, retired: bool)

  /** A compaction or redaction: its inputs, the traces it drops on purpose, and the blocks it has written. */
  datatype Process = Process(inputs: set<BlockId>, drop: set<Trace>, outputs: set<BlockId>, written: bool)

  /** A reader's block list: what a poll saw, and when. */
  datatype Snapshot = Snapshot(taken: nat, live: set<BlockId>, compacted: map<BlockId, nat>)

  /** `marks` records which process marked a block; no step consults it. */
  datatype State = State(
    now: nat,
    blocks: seq<Block>,
    processes: seq<Process>,
    marks: map<BlockId, nat>,
    readers: seq<Snapshot>)

  /** BlocklistPoll and CompactedBlockRetention. */
  datatype Config = Config(poll: nat, compactedRetention: nat)

  datatype Step =
    | Tick(to: nat)
    | Ingest(content: set<Trace>)
    | Begin(inputs: set<BlockId>, drop: set<Trace>)
    | Output(p: nat, content: set<Trace>)
    | Written(p: nat)
    | Mark(p: nat, b: BlockId)
    | Retain(b: BlockId)
    | Clear(b: BlockId, recorded: nat)
    | Poll

  predicate IsLive(s: State, b: BlockId) {
    b < |s.blocks| && s.blocks[b].status.Live?
  }

  /** A block can be read until it is cleared. */
  predicate Readable(s: State, b: BlockId) {
    b < |s.blocks| && !s.blocks[b].status.Cleared?
  }

  /** What a process keeps: its inputs' traces, less those it drops. */
  predicate Keeps(s: State, p: Process, t: Trace) {
    t !in p.drop && exists b :: b in p.inputs && b < |s.blocks| && t in s.blocks[b].content
  }

  predicate Wrote(s: State, p: Process, t: Trace) {
    exists o :: o in p.outputs && o < |s.blocks| && t in s.blocks[o].content
  }

  ghost predicate Enabled(cfg: Config, s: State, step: Step) {
    match step
    case Tick(to) => s.now <= to
    case Ingest(content) => true
    case Begin(inputs, drop) => forall b :: b in inputs ==> Readable(s, b)
    case Output(p, content) =>
      p < |s.processes| && !s.processes[p].written && forall t :: t in content ==> Keeps(s, s.processes[p], t)
    case Written(p) =>
      p < |s.processes| && !s.processes[p].written
      && forall t :: Keeps(s, s.processes[p], t) ==> Wrote(s, s.processes[p], t)
    case Mark(p, b) => p < |s.processes| && s.processes[p].written && b in s.processes[p].inputs && IsLive(s, b)
    case Retain(b) => IsLive(s, b)
    case Clear(b, recorded) =>
      b < |s.blocks| && s.blocks[b].status.Compacted?
      && s.blocks[b].status.at <= recorded && recorded + cfg.compactedRetention < s.now
    case Poll => true
  }

  function Marked(s: State, b: BlockId, retired: bool): State
    requires b < |s.blocks|
  {
    s.(blocks := s.blocks[b := Block(s.blocks[b].content, Compacted(s.now), s.blocks[b].retired || retired)])
  }

  function TakePoll(s: State): Snapshot {
    Snapshot(s.now,
             set b | 0 <= b < |s.blocks| && s.blocks[b].status.Live?,
             map b | 0 <= b < |s.blocks| && s.blocks[b].status.Compacted? :: s.blocks[b].status.at)
  }

  function Apply(cfg: Config, s: State, step: Step): State
    requires Enabled(cfg, s, step)
  {
    match step
    case Tick(to) => s.(now := to)
    case Ingest(content) => s.(blocks := s.blocks + [Block(content, Live, false)])
    case Begin(inputs, drop) => s.(processes := s.processes + [Process(inputs, drop, {}, false)])
    case Output(p, content) =>
      s.(blocks := s.blocks + [Block(content, Live, false)],
         processes := s.processes[p := s.processes[p].(outputs := s.processes[p].outputs + {|s.blocks|})])
    case Written(p) => s.(processes := s.processes[p := s.processes[p].(written := true)])
    case Mark(p, b) => Marked(s, b, false).(marks := s.marks[b := p])
    case Retain(b) => Marked(s, b, true)
    case Clear(b, recorded) => s.(blocks := s.blocks[b := s.blocks[b].(status := Cleared(s.blocks[b].status.at, s.now))])
    case Poll => s.(readers := s.readers + [TakePoll(s)])
  }

  const Initial := State(0, [], [], map[], [])

  ghost predicate IsRun(cfg: Config, steps: seq<Step>)
    decreases |steps|, 0
  {
    |steps| == 0 ||
    (IsRun(cfg, steps[..|steps| - 1]) && Enabled(cfg, Exec(cfg, steps[..|steps| - 1]), steps[|steps| - 1]))
  }

  ghost function Exec(cfg: Config, steps: seq<Step>): State
    requires IsRun(cfg, steps)
    decreases |steps|, 1
  {
    if |steps| == 0 then Initial
    else Apply(cfg, Exec(cfg, steps[..|steps| - 1]), steps[|steps| - 1])
  }

  lemma Extend(cfg: Config, steps: seq<Step>, step: Step)
    requires IsRun(cfg, steps) && Enabled(cfg, Exec(cfg, steps), step)
    ensures IsRun(cfg, steps + [step]) && Exec(cfg, steps + [step]) == Apply(cfg, Exec(cfg, steps), step)
  {
    var all := steps + [step];
    assert all[..|all| - 1] == steps;
  }

  // ------------------------------------------------------------------ statuses

  /** The order of a block's life. */
  function Rank(s: Status): nat {
    match s
    case Live => 0
    case Compacted(_) => 1
    case Cleared(_, _) => 2
  }

  /** From the steps' definitions: a block keeps its content, and its status only ever advances, one stage at a time. */
  lemma StatusOnlyAdvances(cfg: Config, s: State, step: Step, b: BlockId)
    requires Enabled(cfg, s, step) && b < |s.blocks|
    ensures var s' := Apply(cfg, s, step);
            && b < |s'.blocks| && s'.blocks[b].content == s.blocks[b].content
            && Rank(s.blocks[b].status) <= Rank(s'.blocks[b].status) <= Rank(s.blocks[b].status) + 1
            && (s.blocks[b].retired ==> s'.blocks[b].retired)
            && (s.blocks[b].status.Compacted? && s'.blocks[b].status.Cleared? ==> s'.blocks[b].status.at == s.blocks[b].status.at)
  {
  }

  // ----------------------------------------------------------------- invariant

  ghost predicate GoodProcess(s: State, p: Process) {
    && (forall b :: b in p.inputs ==> b < |s.blocks|)
    && (forall o :: o in p.outputs ==> o < |s.blocks|)
    && (forall b, o :: b in p.inputs && o in p.outputs ==> b < o)
    && (p.written ==> forall t :: Keeps(s, p, t) ==> Wrote(s, p, t))
  }

  /** The block was marked by this process, which had read it and had written all its outputs. */
  predicate MarkedBy(s: State, b: BlockId, p: Process) {
    && b in s.marks && s.marks[b] < |s.processes| && s.processes[s.marks[b]] == p
    && p.written && b in p.inputs
  }

  /** A marked block was marked by retention or by a process. */
  predicate Accounted(s: State, b: BlockId)
    requires b < |s.blocks|
  {
    || s.blocks[b].status.Live?
    || s.blocks[b].retired
    || (b in s.marks && s.marks[b] < |s.processes| && MarkedBy(s, b, s.processes[s.marks[b]]))
  }

  predicate GoodTimes(cfg: Config, s: State, b: Block) {
    match b.status
    case Live => true
    case Compacted(at) => at <= s.now
    case Cleared(at, clearedAt) => at + cfg.compactedRetention < clearedAt <= s.now
  }

  /** What a snapshot saw is still true, or became untrue after it was taken. */
  predicate GoodSnapshot(s: State, r: Snapshot) {
    && r.taken <= s.now
    && (forall b :: b in r.live ==> b < |s.blocks| && (s.blocks[b].status.Live? || r.taken <= s.blocks[b].status.at))
    && (forall b :: b in r.compacted ==> b < |s.blocks| && !s.blocks[b].status.Live? && s.blocks[b].status.at == r.compacted[b])
  }

  ghost predicate Inv(cfg: Config, s: State) {
    && (forall p :: 0 <= p < |s.processes| ==> GoodProcess(s, s.processes[p]))
    && (forall b {:trigger Accounted(s, b)} :: 0 <= b < |s.blocks| ==> Accounted(s, b))
    && (forall b :: 0 <= b < |s.blocks| ==> GoodTimes(cfg, s, s.blocks[b]))
    && (forall r :: 0 <= r < |s.readers| ==> GoodSnapshot(s, s.readers[r]))
  }

  /** Blocks are only added or advance, so what a process kept and wrote stays so. */
  lemma ProcessStays(cfg: Config, s: State, step: Step, p: Process)
    requires Enabled(cfg, s, step) && GoodProcess(s, p)
    ensures GoodProcess(Apply(cfg, s, step), p)
  {
    var s' := Apply(cfg, s, step);
    assert forall b :: 0 <= b < |s.blocks| ==> s'.blocks[b].content == s.blocks[b].content;
    if p.written {
      forall t | Keeps(s', p, t) ensures Wrote(s', p, t) {
        assert Keeps(s, p, t);
        var o :| o in p.outputs && o < |s.blocks| && t in s.blocks[o].content;
      }
    }
  }

  lemma OutputKeeps(cfg: Config, s: State, i: nat, content: set<Trace>)
    requires Enabled(cfg, s, Output(i, content)) && GoodProcess(s, s.processes[i])
    ensures GoodProcess(Apply(cfg, s, Output(i, content)), Apply(cfg, s, Output(i, content)).processes[i])
  {
  }

  lemma WrittenKeeps(cfg: Config, s: State, i: nat)
    requires Enabled(cfg, s, Written(i)) && GoodProcess(s, s.processes[i])
    ensures GoodProcess(Apply(cfg, s, Written(i)), Apply(cfg, s, Written(i)).processes[i])
  {
    var s' := Apply(cfg, s, Written(i));
    forall t | Keeps(s', s'.processes[i], t) ensures Wrote(s', s'.processes[i], t) {
      assert Keeps(s, s.processes[i], t);
      assert Wrote(s, s.processes[i], t);
    }
  }

  lemma ProcessesKeep(cfg: Config, s: State, step: Step)
    requires Enabled(cfg, s, step) && Inv(cfg, s)
    ensures var s' := Apply(cfg, s, step); forall p :: 0 <= p < |s'.processes| ==> GoodProcess(s', s'.processes[p])
  {
    var s' := Apply(cfg, s, step);
    forall p | 0 <= p < |s'.processes| ensures GoodProcess(s', s'.processes[p]) {
      if p < |s.processes| { ProcessStays(cfg, s, step, s.processes[p]); }
      if step.Output? && step.p == p { OutputKeeps(cfg, s, p, step.content); }
      if step.Written? && step.p == p { WrittenKeeps(cfg, s, p); }
    }
  }

  lemma AccountedStays(cfg: Config, s: State, step: Step, b: BlockId)
    requires Enabled(cfg, s, step) && b < |s.blocks| && Accounted(s, b)
    ensures Accounted(Apply(cfg, s, step), b)
  {
  }

  lemma AccountsKeep(cfg: Config, s: State, step: Step)
    requires Enabled(cfg, s, step) && Inv(cfg, s)
    ensures var s' := Apply(cfg, s, step); forall b {:trigger Accounted(s', b)} :: 0 <= b < |s'.blocks| ==> Accounted(s', b)
  {
    var s' := Apply(cfg, s, step);
    forall b | 0 <= b < |s'.blocks| ensures Accounted(s', b) {
      if b < |s.blocks| {
        assert Accounted(s, b);
        AccountedStays(cfg, s, step, b);
      }
    }
  }

  lemma TimesKeep(cfg: Config, s: State, step: Step)
    requires Enabled(cfg, s, step) && Inv(cfg, s)
    ensures var s' := Apply(cfg, s, step); forall b :: 0 <= b < |s'.blocks| ==> GoodTimes(cfg, s', s'.blocks[b])
  {
    var s' := Apply(cfg, s, step);
    forall b | 0 <= b < |s'.blocks| ensures GoodTimes(cfg, s', s'.blocks[b]) {
      if b < |s.blocks| { assert GoodTimes(cfg, s, s.blocks[b]); }
    }
  }

  lemma SnapshotStays(cfg: Config, s: State, step: Step, r: Snapshot)
    requires Enabled(cfg, s, step) && GoodSnapshot(s, r)
    ensures GoodSnapshot(Apply(cfg, s, step), r)
  {
  }

  lemma StepKeeps(cfg: Config, s: State, step: Step)
    requires Enabled(cfg, s, step) && Inv(cfg, s)
    ensures Inv(cfg, Apply(cfg, s, step))
  {
    var s' := Apply(cfg, s, step);
    ProcessesKeep(cfg, s, step);
    AccountsKeep(cfg, s, step);
    TimesKeep(cfg, s, step);
    forall r | 0 <= r < |s'.readers| ensures GoodSnapshot(s', s'.readers[r]) {
      if r < |s.readers| { SnapshotStays(cfg, s, step, s.readers[r]); }
    }
  }

  lemma {:induction false} RunInv(cfg: Config, steps: seq<Step>)
    requires IsRun(cfg, steps)
    ensures Inv(cfg, Exec(cfg, steps))
  {
    if |steps| == 0 {
    } else {
      RunInv(cfg, steps[..|steps| - 1]);
      StepKeeps(cfg, Exec(cfg, steps[..|steps| - 1]), steps[|steps| - 1]);
    }
  }

  // ------------------------------------------------------------- no trace is lost

  /**
   What has become of the copy of a trace that a block was written with: the block is live, or retention
   marked it, or the process that marked it dropped the trace on purpose or wrote it to a later block,
   whose copy survives in the same sense.
   */
  ghost predicate CopySurvives(s: State, b: BlockId, t: Trace)
    decreases |s.blocks| - b
  {
    && b < |s.blocks| && t in s.blocks[b].content
    && (|| s.blocks[b].status.Live?
        || s.blocks[b].retired
        || exists p :: MarkedBy(s, b, p) && (t in p.drop || exists o :: o in p.outputs && b < o && CopySurvives(s, o, t)))
  }

  /** A marked block hands each trace it held on to a later block, so following the hand-overs ends. */
  lemma {:induction false} CopyIsHeld(cfg: Config, s: State, b: BlockId, t: Trace)
    requires Inv(cfg, s) && b < |s.blocks| && t in s.blocks[b].content
    ensures CopySurvives(s, b, t)
    decreases |s.blocks| - b
  {
    assert Accounted(s, b);
    if !s.blocks[b].status.Live? && !s.blocks[b].retired {
      var p := s.processes[s.marks[b]];
      assert MarkedBy(s, b, p) && GoodProcess(s, p);
      if t !in p.drop {
        assert Keeps(s, p, t);
        var o :| o in p.outputs && o < |s.blocks| && t in s.blocks[o].content;
        CopyIsHeld(cfg, s, o, t);
      }
    }
  }

  /**
   In every run, whatever crashed or failed on the way, every copy of every trace survives: followed from
   the block it was written to, from mark to mark, it ends in a live block, in one that retention marked,
   or with the redaction that read this very copy and dropped it.
   */
  lemma {:induction false} TracesSurvive(cfg: Config, steps: seq<Step>, b: BlockId, t: Trace)
    requires IsRun(cfg, steps) && b < |Exec(cfg, steps).blocks| && t in Exec(cfg, steps).blocks[b].content
    ensures CopySurvives(Exec(cfg, steps), b, t)
  {
    RunInv(cfg, steps);
    CopyIsHeld(cfg, Exec(cfg, steps), b, t);
  }

  predicate HeldLive(s: State, t: Trace) {
    exists b :: 0 <= b < |s.blocks| && IsLive(s, b) && t in s.blocks[b].content
  }

  /** Somewhere on the way the copy met its intended end. */
  predicate Ended(s: State, b: BlockId, t: Trace) {
    && b < |s.blocks| && t in s.blocks[b].content
    && (s.blocks[b].retired || exists p :: p in s.processes && MarkedBy(s, b, p) && t in p.drop)
  }

  /** A trace is in no live block only where a copy of it was retired or dropped by the process that marked it. */
  lemma {:induction false} LostOnlyOnPurpose(s: State, b: BlockId, t: Trace) returns (last: BlockId)
    requires CopySurvives(s, b, t) && !HeldLive(s, t)
    ensures b <= last && Ended(s, last, t)
    decreases |s.blocks| - b
  {
    last := b;
    assert !IsLive(s, b);
    if !s.blocks[b].retired {
      var p :| MarkedBy(s, b, p) && (t in p.drop || exists o :: o in p.outputs && b < o && CopySurvives(s, o, t));
      if t !in p.drop {
        var o :| o in p.outputs && b < o && CopySurvives(s, o, t);
        last := LostOnlyOnPurpose(s, o, t);
      }
    }
  }

  // ------------------------------------------------------- readers and cleared blocks

  /** Find's choice of blocks from a list at most one poll old: all live ones, and compacted ones of the last two polls. */
  predicate Opens(cfg: Config, s: State, r: Snapshot, b: BlockId) {
    && s.now <= r.taken + cfg.poll
    && (b in r.live || (b in r.compacted && s.now <= r.compacted[b] + 2 * cfg.poll))
  }

  predicate CanOpen(cfg: Config, s: State, r: int, b: BlockId) {
    0 <= r < |s.readers| && Opens(cfg, s, s.readers[r], b)
  }

  predicate IsCleared(s: State, b: BlockId) {
    b < |s.blocks| && s.blocks[b].status.Cleared?
  }

  /** No reachable state lets a reader open a cleared block. */
  ghost predicate ReadersAreSafe(cfg: Config) {
    forall steps, r, b :: IsRun(cfg, steps) && CanOpen(cfg, Exec(cfg, steps), r, b) ==> !IsCleared(Exec(cfg, steps), b)
  }

  lemma OpenedIsNotCleared(cfg: Config, s: State, r: nat, b: BlockId)
    requires Inv(cfg, s) && r < |s.readers| && Opens(cfg, s, s.readers[r], b)
    requires 2 * cfg.poll <= cfg.compactedRetention
    ensures !IsCleared(s, b)
  {
    assert GoodSnapshot(s, s.readers[r]);
    if b < |s.blocks| { assert GoodTimes(cfg, s, s.blocks[b]); }
  }

  /** The schedule that opens a cleared block when compacted blocks are kept for less than two polls. */
  function Race(cfg: Config): seq<Step> {
    var clear := cfg.compactedRetention + 1;
    var poll := if clear <= cfg.poll then 0 else clear - cfg.poll;
    [Ingest({}), Retain(0), Tick(poll), Poll, Tick(clear), Clear(0, 0)]
  }

  /** The race's states: block 0 is marked at 0, polled later, and cleared later still. */
  function RaceState(now: nat, status: Status, readers: seq<Snapshot>): State {
    State(now, [Block({}, status, !status.Live?)], [], map[], readers)
  }

  lemma RacePolls(cfg: Config, now: nat)
    ensures Apply(cfg, RaceState(now, Compacted(0), []), Poll) == RaceState(now, Compacted(0), [Snapshot(now, {}, map[0 := 0])])
  {
    var snap := TakePoll(RaceState(now, Compacted(0), []));
    assert snap.live == {};
    assert snap.compacted == map[0 := 0];
  }

  lemma RaceRuns(cfg: Config)
    requires cfg.compactedRetention < 2 * cfg.poll
    ensures var steps := Race(cfg);
            && IsRun(cfg, steps)
            && var s := Exec(cfg, steps);
               CanOpen(cfg, s, 0, 0) && IsCleared(s, 0)
  {
    var all := Race(cfg);
    var clear := cfg.compactedRetention + 1;
    var poll := all[2].to;
    var seen := [Snapshot(poll, {}, map[0 := 0])];
    Ran(cfg, all, 0, Initial, RaceState(0, Live, []));
    Ran(cfg, all, 1, RaceState(0, Live, []), RaceState(0, Compacted(0), []));
    Ran(cfg, all, 2, RaceState(0, Compacted(0), []), RaceState(poll, Compacted(0), []));
    RacePolls(cfg, poll);
    Ran(cfg, all, 3, RaceState(poll, Compacted(0), []), RaceState(poll, Compacted(0), seen));
    Ran(cfg, all, 4, RaceState(poll, Compacted(0), seen), RaceState(clear, Compacted(0), seen));
    Ran(cfg, all, 5, RaceState(clear, Compacted(0), seen), RaceState(clear, Cleared(0, clear), seen));
    assert all[..6] == all;
  }

  lemma Ran(cfg: Config, all: seq<Step>, n: nat, s: State, s': State)
    requires n < |all| && IsRun(cfg, all[..n]) && Exec(cfg, all[..n]) == s
    requires Enabled(cfg, s, all[n]) && Apply(cfg, s, all[n]) == s'
    ensures IsRun(cfg, all[..n + 1]) && Exec(cfg, all[..n + 1]) == s'
  {
    Extend(cfg, all[..n], all[n]);
    assert all[..n] + [all[n]] == all[..n + 1];
  }

  /** Keeping compacted blocks for two polls is exactly what readers need. */
  lemma SafeExactlyWithTwoPolls(cfg: Config)
    ensures ReadersAreSafe(cfg) <==> 2 * cfg.poll <= cfg.compactedRetention
  {
    if 2 * cfg.poll <= cfg.compactedRetention {
      forall steps, r, b | IsRun(cfg, steps) && CanOpen(cfg, Exec(cfg, steps), r, b)
        ensures !IsCleared(Exec(cfg, steps), b)
      {
        RunInv(cfg, steps);
        OpenedIsNotCleared(cfg, Exec(cfg, steps), r, b);
      }
    } else {
      RaceRuns(cfg);
    }
  }
}
