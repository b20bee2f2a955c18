/** The run that puts a record into two live blocks, over any log in which a partition carries two tenants. */
module BuilderExamples {
  import opened BuilderProtocol
  import opened Options

  /**
   The partition's first record is at start, o is its first record of another tenant, and e is just past
   the last record before o.
   */
  ghost predicate Switches(log: Log, p: Partition, start: Offset, e: Offset, o: Offset) {
    && IsFirst(log, p, 0, start) && start < e <= o
    && log(p, e - 1).Some? && (forall x: Offset :: e <= x < o ==> log(p, x).None?)
    && (forall x: Offset :: start <= x < o && log(p, x).Some? ==> log(p, x) == log(p, start))
    && log(p, o).Some? && log(p, o) != log(p, start)
  }

  lemma FirstRecord(log: Log, p: Partition, a: Offset) returns (start: Offset)
    requires log(p, a).Some?
    ensures IsFirst(log, p, 0, start) && start <= a
  {
    start := 0;
    while log(p, start).None?
      invariant start <= a && forall x: Offset :: x < start ==> log(p, x).None?
      decreases a - start
    {
      start := start + 1;
    }
  }

  /** Two tenants in a partition meet somewhere. */
  lemma FindSwitch(log: Log, p: Partition, a: Offset, b: Offset) returns (start: Offset, e: Offset, o: Offset)
    requires log(p, a).Some? && log(p, b).Some? && log(p, a) != log(p, b)
    ensures Switches(log, p, start, e, o)
  {
    start := FirstRecord(log, p, a);
    var other := if log(p, a) == log(p, start) then b else a;
    e, o := start + 1, start + 1;
    while log(p, o).None? || log(p, o) == log(p, start)
      invariant start < e <= o <= other && log(p, e - 1).Some?
      invariant forall x: Offset :: e <= x < o ==> log(p, x).None?
      invariant forall x: Offset :: start <= x < o && log(p, x).Some? ==> log(p, x) == log(p, start)
      decreases other - o
    {
      if log(p, o).Some? { e := o + 1; }
      o := o + 1;
    }
  }

  lemma Planned(log: Log, before: seq<Step>, p: Partition, t: Tenant, start: Offset, end: Offset) returns (steps: seq<Step>)
    requires IsRun(log, before)
    requires Enabled(log, Exec(log, before), Read(p, start, end))
    requires t in SectionTenants(log, p, start, end)
    requires Built(Seed(t, p, start), 1) !in Exec(log, before).blocks
    ensures IsRun(log, steps)
    ensures var s := Exec(log, before);
            var s' := Exec(log, steps);
            && s'.blocks == s.blocks && s'.committed == s.committed
            && WorkerOf(s', p).Flushing? && WorkerOf(s', p).start == start && WorkerOf(s', p).end == end
            && WorkerOf(s', p).tenants.Keys == SectionTenants(log, p, start, end)
            && WorkerOf(s', p).tenants[t] == Marking([], Built(Seed(t, p, start), 1))
  {
    var id := Built(Seed(t, p, start), 1);
    Extend(log, before, Read(p, start, end));
    var one := before + [Read(p, start, end)];
    Extend(log, one, Determine(p, t, [], id));
    steps := one + [Determine(p, t, [], id)];
  }

  /** One attempt from an idle owner that reads [start, end) and writes tenant t's block under a fresh first ID. */
  lemma Attempt(log: Log, before: seq<Step>, p: Partition, t: Tenant, start: Offset, end: Offset) returns (steps: seq<Step>)
    requires IsRun(log, before)
    requires Enabled(log, Exec(log, before), Read(p, start, end))
    requires t in SectionTenants(log, p, start, end)
    requires Built(Seed(t, p, start), 1) !in Exec(log, before).blocks
    ensures IsRun(log, steps)
    ensures var s := Exec(log, before);
            var s' := Exec(log, steps);
            var id := Built(Seed(t, p, start), 1);
            && s'.blocks == s.blocks[id := Block(Live, true, SectionRecs(log, t, p, start, end))]
            && s'.committed == s.committed
            && WorkerOf(s', p).Flushing? && WorkerOf(s', p).end == end
            && WorkerOf(s', p).tenants.Keys == SectionTenants(log, p, start, end)
            && WorkerOf(s', p).tenants[t] == Written(id)
  {
    var two := Planned(log, before, p, t, start, end);
    Extend(log, two, WriteBlock(p, t));
    steps := two + [WriteBlock(p, t)];
  }

  /** Finishing a section with a single tenant: commit the offset and let go. */
  lemma {:induction false} CommitSection(log: Log, before: seq<Step>, p: Partition, t: Tenant) returns (steps: seq<Step>)
    requires IsRun(log, before)
    requires WorkerOf(Exec(log, before), p).Flushing?
    requires WorkerOf(Exec(log, before), p).tenants.Keys == {t} && WorkerOf(Exec(log, before), p).tenants[t].Written?
    ensures IsRun(log, steps)
    ensures var s := Exec(log, before);
            var s' := Exec(log, steps);
            s'.blocks == s.blocks && Committed(s', p) == WorkerOf(s, p).end && WorkerOf(s', p) == Idle
  {
    Extend(log, before, Commit(p));
    var one := before + [Commit(p)];
    Extend(log, one, Finish(p));
    steps := one + [Finish(p)];
  }

  lemma Sections(log: Log, p: Partition, start: Offset, e: Offset, o: Offset)
    requires Switches(log, p, start, e, o)
    ensures log(p, o).value in SectionTenants(log, p, start, o + 1)
    ensures SectionTenants(log, p, start, e) == {log(p, start).value}
    ensures SectionTenants(log, p, o, o + 1) == {log(p, o).value}
    ensures Rec(p, o) in SectionRecs(log, log(p, o).value, p, start, o + 1)
    ensures Rec(p, o) in SectionRecs(log, log(p, o).value, p, o, o + 1)
  {
    OneTenant(log, p, start, e);
    OneTenant(log, p, o, o + 1);
  }

  lemma OneTenant(log: Log, p: Partition, start: Offset, end: Offset)
    requires start < end && log(p, start).Some?
    requires forall x: Offset :: start <= x < end && log(p, x).Some? ==> log(p, x) == log(p, start)
    ensures SectionTenants(log, p, start, end) == {log(p, start).value}
  {
    assert log(p, start).value in SectionTenants(log, p, start, end);
    forall t | t in SectionTenants(log, p, start, end) ensures t == log(p, start).value {
      var x: Offset :| start <= x < end && log(p, x).Some? && log(p, x).value == t;
    }
  }

  /** The first attempt reads through the second tenant's record, writes only that tenant's block, and crashes. */
  lemma LongAttempt(log: Log, p: Partition, start: Offset, e: Offset, o: Offset) returns (steps: seq<Step>)
    requires Switches(log, p, start, e, o)
    ensures IsRun(log, steps)
    ensures var s := Exec(log, steps);
            var id := Built(Seed(log(p, o).value, p, start), 1);
            && s.blocks.Keys == {id} && IsLive(s.blocks, id) && Rec(p, o) in s.blocks[id].recs
            && Committed(s, p) == 0 && WorkerOf(s, p) == Idle
  {
    Sections(log, p, start, e, o);
    var one := Attempt(log, [], p, log(p, o).value, start, o + 1);
    Extend(log, one, Crash(p));
    steps := one + [Crash(p)];
  }

  /** The replay reads only the first tenant's records and commits: the second tenant's block stays live. */
  lemma ShortReplay(log: Log, p: Partition, start: Offset, e: Offset, o: Offset) returns (steps: seq<Step>)
    requires Switches(log, p, start, e, o)
    ensures IsRun(log, steps)
    ensures var s := Exec(log, steps);
            var id := Built(Seed(log(p, o).value, p, start), 1);
            && s.blocks.Keys == {id, Built(Seed(log(p, start).value, p, start), 1)}
            && IsLive(s.blocks, id) && Rec(p, o) in s.blocks[id].recs
            && Committed(s, p) == e && WorkerOf(s, p) == Idle
  {
    Sections(log, p, start, e, o);
    steps := LongAttempt(log, p, start, e, o);
    steps := Attempt(log, steps, p, log(p, start).value, start, e);
    steps := CommitSection(log, steps, p, log(p, start).value);
  }

  /** The second tenant's record is then read, written and committed on its own, and is in two live blocks. */
  lemma ShortReplayDuplicates(log: Log, p: Partition, start: Offset, e: Offset, o: Offset)
    returns (steps: seq<Step>, x: BlockId, y: BlockId)
    requires Switches(log, p, start, e, o)
    ensures IsRun(log, steps) && x != y
    ensures var s := Exec(log, steps);
            && o < Committed(s, p)
            && IsLive(s.blocks, x) && Rec(p, o) in s.blocks[x].recs
            && IsLive(s.blocks, y) && Rec(p, o) in s.blocks[y].recs
  {
    Sections(log, p, start, e, o);
    var t := log(p, o).value;
    x, y := Built(Seed(t, p, start), 1), Built(Seed(t, p, o), 1);
    steps := ShortReplay(log, p, start, e, o);
    steps := Attempt(log, steps, p, t, o, o + 1);
    steps := CommitSection(log, steps, p, t);
  }
}
