/**
 The time window of a redaction: which blocks are selected for it, which traces a block's scan finds,
 and why the two agree. Instants are unix nanoseconds.
 */
module RedactionWindow {
  import opened Options

  const MaxInt64: int := 0x7FFF_FFFF_FFFF_FFFF
  const Second: int := 1_000_000_000

  /** Zero bounds are unset. */
  datatype Window = Window(start: int, end: int) {
    predicate IsZero() { start == 0 && end == 0 }

    predicate Representable() { -MaxInt64 - 1 <= start <= MaxInt64 && -MaxInt64 - 1 <= end <= MaxInt64 }

    /** The inclusive bounds of a scan, an open side pinned to the widest bound that still installs a filter. */
    function Materialise(): Option<(int, int)> {
      if start <= 0 && end <= 0 then None
      else Some((if start <= 0 then 1 else start, if end <= 0 then MaxInt64 else end))
    }

    predicate Validate() {
      start >= 0 && end >= 0
      && var m := Materialise();
         m.Some? ==> m.value.0 < m.value.1
    }

    /** fetchBounds: the bounds handed to the block scan, (0, 0) when there are none. */
    function FetchBounds(): (int, int) {
      if Materialise().Some? then Materialise().value else (0, 0)
    }
  }

  /** From the definitions: a validated window always installs a filter unless it is no window at all. */
  lemma ValidatedWindowIsBounded(w: Window)
    requires w.Representable() && w.Validate()
    ensures w.IsZero() <==> w.FetchBounds() == (0, 0)
    ensures !w.IsZero() ==> 0 < w.FetchBounds().0 < w.FetchBounds().1 <= MaxInt64
  {
  }

  /** Valid are the windows without negative bounds that leave more than one instant of the int64 range after 0. */
  lemma ValidExactly(w: Window)
    requires w.Representable()
    ensures w.Validate() <==>
            && w.start >= 0 && w.end >= 0
            && (w.IsZero() || (if w.start == 0 then 1 < w.end else if w.end == 0 then w.start < MaxInt64 else w.start < w.end))
  {
  }

  // ------------------------------------------------------------------- blocks

  /** A trace as one block holds it. */
  datatype Trace = Trace(id: nat, start: int, end: int)

  /** Recorded times are absent when never set. */
  datatype Meta = Meta(id: nat, start: Option<int>, end: Option<int>)

  datatype Block = Block(meta: Meta, traces: seq<Trace>)

  predicate Unusable(m: Meta) {
    m.start.None? || m.end.None? || m.start.value > m.end.value
  }

  /** blockOverlapsWindow with the recorded range padded outward: (overlaps, indeterminate). */
  function OverlapsPadded(m: Meta, w: Window, pad: int): (bool, bool) {
    if w.IsZero() then (true, false)
    else if Unusable(m) then (true, true)
    else if w.end != 0 && m.start.value - pad > w.end then (false, false)
    else if w.start != 0 && m.end.value + pad < w.start then (false, false)
    else (true, false)
  }

  function Overlaps(m: Meta, w: Window): (bool, bool) {
    OverlapsPadded(m, w, Second)
  }

  /** The trace-time filter of a block scan: none unless both bounds are positive. */
  predicate Scanned(t: Trace, bounds: (int, int)) {
    bounds.0 > 0 && bounds.1 > 0 ==> 0 <= t.start <= bounds.1 && bounds.0 <= t.end
  }

  /** Whole seconds, as block metadata records them. */
  function Truncated(t: int): int {
    t - t % Second
  }

  /** A usable recorded range is the range of the block's data, exactly or truncated to seconds. */
  ghost predicate Recorded(b: Block) {
    !Unusable(b.meta) ==> (forall t :: t in b.traces ==> b.meta.start.value <= t.start && Truncated(t.end) <= b.meta.end.value)
  }

  // ------------------------------------------------------- selection loses nothing

  /** The (block, trace) pairs a redaction drops from a list of blocks; `matched` are the pairs its query matches. */
  function Dropped(blocks: seq<Block>, bounds: (int, int), matched: set<(nat, nat)>): set<(nat, nat)> {
    set b, t | b in blocks && t in b.traces && (b.meta.id, t.id) in matched && Scanned(t, bounds) :: (b.meta.id, t.id)
  }

  function Selected(blocks: seq<Block>, w: Window): seq<Block> {
    if |blocks| == 0 then []
    else (if Overlaps(blocks[0].meta, w).0 then [blocks[0]] else []) + Selected(blocks[1..], w)
  }

  lemma {:induction false} SelectedIsExact(blocks: seq<Block>, w: Window)
    ensures forall b :: b in Selected(blocks, w) <==> b in blocks && Overlaps(b.meta, w).0
  {
    if |blocks| > 0 {
      SelectedIsExact(blocks[1..], w);
      assert blocks == [blocks[0]] + blocks[1..];
    }
  }

  lemma TruncatedBounds(t: int)
    ensures Truncated(t) <= t <= Truncated(t) + Second - 1
  {
  }

  /** A block outside the window holds no trace that its scan would find. */
  lemma UnselectedHoldsNothing(b: Block, w: Window, pad: int, t: Trace)
    requires Recorded(b) && w.Representable() && w.Validate() && pad >= Second - 1
    requires !OverlapsPadded(b.meta, w, pad).0 && t in b.traces
    ensures !Scanned(t, w.FetchBounds())
  {
    TruncatedBounds(t.end);
    ValidatedWindowIsBounded(w);
  }

  /** Selecting blocks and scanning only those drops exactly what scanning every block would. */
  lemma SelectionIsLossless(blocks: seq<Block>, w: Window, matched: set<(nat, nat)>)
    requires w.Representable() && w.Validate()
    requires forall b :: b in blocks ==> Recorded(b)
    ensures Dropped(Selected(blocks, w), w.FetchBounds(), matched) == Dropped(blocks, w.FetchBounds(), matched)
  {
    SelectedIsExact(blocks, w);
    forall b, t | b in blocks && t in b.traces && Scanned(t, w.FetchBounds()) ensures Overlaps(b.meta, w).0 {
      if !Overlaps(b.meta, w).0 { UnselectedHoldsNothing(b, w, Second, t); }
    }
  }

  /** Never missing a scanned trace, whatever the block and window. */
  ghost predicate PadSuffices(pad: int) {
    forall b: Block, w: Window, t: Trace ::
      Recorded(b) && w.Representable() && w.Validate() && t in b.traces && Scanned(t, w.FetchBounds()) ==>
        OverlapsPadded(b.meta, w, pad).0
  }

  /** The padding is needed: anything below a second less one nanosecond loses data. */
  lemma PadIsTight(pad: int)
    ensures PadSuffices(pad) <==> pad >= Second - 1
  {
    if pad >= Second - 1 {
      forall b: Block, w: Window, t: Trace |
        Recorded(b) && w.Representable() && w.Validate() && t in b.traces && Scanned(t, w.FetchBounds())
        ensures OverlapsPadded(b.meta, w, pad).0
      {
        if !OverlapsPadded(b.meta, w, pad).0 { UnselectedHoldsNothing(b, w, pad, t); }
      }
    } else {
      var t := Trace(0, 0, Second - 1);
      var b := Block(Meta(0, Some(0), Some(0)), [t]);
      var w := Window(Second - 1, Second);
      assert Truncated(Second - 1) == 0;
      assert forall u :: u in b.traces ==> u == t;
      assert Recorded(b) && Scanned(t, w.FetchBounds());
      assert w.Representable() && w.Validate() && t in b.traces;
      assert !OverlapsPadded(b.meta, w, pad).0;
    }
  }

  // ------------------------------------------------- where the hypothesis can fail

  function Clamp(x: int, lo: int, hi: int): int {
    if x < lo then lo else if x > hi then hi else x
  }

  /** adjustTimeRangeForSlack: forces a block's range into [lo, hi] around its cycle. */
  method AdjustTimeRangeForSlack(start: int, end: int, cycleStart: int, slack: nat, cycle: nat) returns (s: int, e: int)
    ensures var lo := cycleStart - slack;
            var hi := cycleStart + slack + cycle;
            && lo <= s <= e <= hi
            && ((s, e) == (start, end) <==> lo <= start <= end <= hi)
            && (lo <= start <= hi ==> s == start)
            && (s <= end <= hi ==> e == end)
            && (s == start || s == lo || s == hi)
            && (e == end || e == s || e == hi)
            && (start <= end ==> s == Clamp(start, lo, hi) && e == Clamp(end, lo, hi))
  {
    var lo := cycleStart - slack;
    var hi := cycleStart + slack + cycle;
    s, e := start, end;
    if s < lo { s := lo; }
    if s > hi { s := hi; }
    if e < s { e := s; }
    if e > hi { e := hi; }
  }

  /** A block whose recorded range was forced by the slack rule. */
  function Clamped(b: Block, lo: int, hi: int): Block
    requires !Unusable(b.meta)
  {
    Block(b.meta.(start := Some(Clamp(b.meta.start.value, lo, hi)), end := Some(Clamp(b.meta.end.value, lo, hi))), b.traces)
  }

  /** Where the recorded bounds are attained by data, forcing them is harmless exactly if neither had to move inward. */
  lemma ClampingIsHarmlessInside(b: Block, lo: int, hi: int, first: Trace, last: Trace)
    requires lo <= hi && !Unusable(b.meta) && Recorded(b) && first in b.traces && last in b.traces
    requires first.start == b.meta.start.value && Truncated(last.end) == b.meta.end.value
    ensures Recorded(Clamped(b, lo, hi)) <==> lo <= b.meta.start.value && b.meta.end.value <= hi
  {
    var c := Clamped(b, lo, hi);
    assert first in c.traces && last in c.traces;
  }

  // ------------------------------------------------ exactly when a forced range hides data

  /** Whatever the window, a block with these metadata is selected if its scan would find the trace. */
  ghost predicate SelectedWhenScanned(m: Meta, t: Trace) {
    forall w: Window :: w.Representable() && w.Validate() && Scanned(t, w.FetchBounds()) ==> Overlaps(m, w).0
  }

  /** Some bounded scan finds the trace. */
  predicate Findable(t: Trace) {
    0 <= t.start <= MaxInt64 && t.end >= 1
  }

  /** A scan finds exactly the findable traces that reach into the window, an unset bound excluding nothing. */
  lemma ScanFindsTheWindow(w: Window, t: Trace)
    requires w.Representable() && w.Validate()
    ensures Scanned(t, w.FetchBounds()) <==>
            w.IsZero() || (Findable(t) && (w.start == 0 || w.start <= t.end) && (w.end == 0 || t.start <= w.end))
  {
    ValidExactly(w);
  }

  /** The end of the earliest window that reaches the trace, and the start of the latest. */
  function EarliestEnd(t: Trace): int { if t.start < 2 then 2 else t.start }
  function LatestStart(t: Trace): int { if t.end > MaxInt64 - 1 then MaxInt64 - 1 else t.end }

  /** A recorded range hides no trace from its own windows exactly if it reaches, padded, into the extreme ones. */
  lemma {:induction false} SelectedExactly(m: Meta, t: Trace)
    requires !Unusable(m)
    ensures SelectedWhenScanned(m, t) <==>
            (Findable(t) ==> m.start.value - Second <= EarliestEnd(t) && LatestStart(t) <= m.end.value + Second)
  {
    if Findable(t) {
      var early, late := Window(0, EarliestEnd(t)), Window(LatestStart(t), 0);
      assert Scanned(t, early.FetchBounds()) && early.Representable() && early.Validate();
      assert Scanned(t, late.FetchBounds()) && late.Representable() && late.Validate();
    }
  }

  /** No window's selection leaves the block out while its scan would find one of its traces. */
  ghost predicate NeverHides(b: Block) {
    forall t :: t in b.traces ==> SelectedWhenScanned(b.meta, t)
  }

  /**
   Forcing a recorded range into [lo, hi] hides nothing exactly if every trace some scan finds lies within
   these limits up to a second: it starts no earlier than that before lo, and ends no later than that after hi.
   */
  lemma {:induction false} ForcingHidesExactly(b: Block, lo: int, hi: int)
    requires lo <= hi && !Unusable(b.meta) && Recorded(b)
    ensures NeverHides(Clamped(b, lo, hi)) <==>
            forall t :: t in b.traces && Findable(t) ==> lo - Second <= EarliestEnd(t) && LatestStart(t) <= hi + Second
  {
    var c := Clamped(b, lo, hi);
    forall t | t in b.traces
      ensures SelectedWhenScanned(c.meta, t) <==>
              (Findable(t) ==> lo - Second <= EarliestEnd(t) && LatestStart(t) <= hi + Second)
    {
      SelectedExactly(c.meta, t);
      TruncatedBounds(t.end);
    }
    assert c.traces == b.traces;
  }

  ghost predicate AlwaysLossless(blocks: seq<Block>) {
    forall w: Window, matched: set<(nat, nat)> :: w.Representable() && w.Validate() ==>
      Dropped(Selected(blocks, w), w.FetchBounds(), matched) == Dropped(blocks, w.FetchBounds(), matched)
  }

  lemma HiddenIsLost(blocks: seq<Block>, b: Block, t: Trace, w: Window)
    requires forall i, k :: 0 <= i < k < |blocks| ==> blocks[i].meta.id != blocks[k].meta.id
    requires b in blocks && t in b.traces && w.Representable() && w.Validate() && Scanned(t, w.FetchBounds()) && !Overlaps(b.meta, w).0
    ensures !AlwaysLossless(blocks)
  {
    var matched := {(b.meta.id, t.id)};
    SelectedIsExact(blocks, w);
    assert (b.meta.id, t.id) in Dropped(blocks, w.FetchBounds(), matched);
    forall c | c in Selected(blocks, w) ensures c.meta.id != b.meta.id {
      assert c in blocks && c != b;
    }
    assert (b.meta.id, t.id) !in Dropped(Selected(blocks, w), w.FetchBounds(), matched);
  }

  /** Selecting among blocks drops what scanning them all would, for all windows and queries, exactly if no block hides a trace. */
  lemma {:induction false} LosslessExactly(blocks: seq<Block>)
    requires forall i, k :: 0 <= i < k < |blocks| ==> blocks[i].meta.id != blocks[k].meta.id
    ensures AlwaysLossless(blocks) <==> forall b :: b in blocks ==> NeverHides(b)
  {
    if forall b :: b in blocks ==> NeverHides(b) {
      forall w: Window, matched | w.Representable() && w.Validate()
        ensures Dropped(Selected(blocks, w), w.FetchBounds(), matched) == Dropped(blocks, w.FetchBounds(), matched)
      {
        SelectedIsExact(blocks, w);
        forall b, t | b in blocks && t in b.traces && Scanned(t, w.FetchBounds()) ensures Overlaps(b.meta, w).0 {
          assert SelectedWhenScanned(b.meta, t);
        }
      }
    } else {
      var b, t, w: Window :| b in blocks && t in b.traces && w.Representable() && w.Validate()
                             && Scanned(t, w.FetchBounds()) && !Overlaps(b.meta, w).0;
      HiddenIsLost(blocks, b, t, w);
    }
  }

  /** Old spans forced forward: a block is left out of the window its data lies in. */
  lemma ForcedForwardLosesData(lo: int, hi: int, past: int)
    requires 0 < lo <= hi <= MaxInt64 && 0 <= past && past % Second == 0 && past + 2 * Second < lo
    ensures var t := Trace(7, past, past + 1);
            var b := Block(Meta(1, Some(past), Some(past)), [t]);
            var w := Window(past + 1, past + 2);
            Recorded(b) && Loses(Clamped(b, lo, hi), t, w)
  {
    assert Truncated(past + 1) == past;
  }

  /** Spans from the future forced back: the same on the other side. */
  lemma ForcedBackLosesData(lo: int, hi: int, future: int)
    requires 0 < lo <= hi && future % Second == 0 && hi + 2 * Second < future < MaxInt64 - 1
    ensures var t := Trace(7, future, future + 1);
            var b := Block(Meta(1, Some(future), Some(future)), [t]);
            var w := Window(future, future + 1);
            Recorded(b) && Loses(Clamped(b, lo, hi), t, w)
  {
    assert Truncated(future + 1) == future;
  }

  /** The window's scan finds the trace in the block, but the block is not selected. */
  predicate Loses(b: Block, t: Trace, w: Window) {
    && w.Representable() && w.Validate() && t in b.traces
    && Scanned(t, w.FetchBounds()) && !Overlaps(b.meta, w).0
  }

  // -------------------------------------------------------------------- requests

  datatype Error = BothSelectors | NoSelector | BadQuery | UnknownMode | HalfWindow | NegativeBound | EmptyWindow | WindowWithIds

  datatype Result = Accepted | Rejected(error: Error)

  const Apply := 0
  const DryRun := 1

  /** A submission; queryOk is validateRedactionQuery's verdict on a non-empty query. */
  datatype Request = Request(ids: nat, hasQuery: bool, queryOk: bool, mode: int, window: Window)

  /** validateRedactionRequest, check by check. */
  function ValidateRequest(r: Request): Result {
    if r.ids > 0 && r.hasQuery then Rejected(BothSelectors)
    else if r.ids == 0 && !r.hasQuery then Rejected(NoSelector)
    else if r.hasQuery && !r.queryOk then Rejected(BadQuery)
    else if r.mode != Apply && r.mode != DryRun then Rejected(UnknownMode)
    else if (r.window.start == 0) != (r.window.end == 0) then Rejected(HalfWindow)
    else if r.window.start < 0 || r.window.end < 0 then Rejected(NegativeBound)
    else if r.window.start != 0 && r.window.start >= r.window.end then Rejected(EmptyWindow)
    else if r.ids > 0 && r.window.start != 0 then Rejected(WindowWithIds)
    else Accepted
  }

  /** RedactBlock's own refusals of a window. */
  predicate BlockRefuses(r: Request) {
    !r.window.Validate() || (r.ids > 0 && !r.window.IsZero())
  }

  /** An accepted request has exactly one selector, and no layer below refuses its window. */
  lemma AcceptedIsHonoured(r: Request)
    requires ValidateRequest(r) == Accepted
    ensures (r.ids > 0) != r.hasQuery && (r.hasQuery ==> r.queryOk) && (r.mode == Apply || r.mode == DryRun)
    ensures r.window.Validate() && !BlockRefuses(r)
    ensures r.window.IsZero() || 0 < r.window.start < r.window.end
  {
  }

  /** The API edge is stricter than the store in one way only: a window must have both bounds. */
  lemma EdgeIsStricterByHalfWindows(r: Request)
    ensures ValidateRequest(r) == Accepted <==>
            ((r.ids > 0) != r.hasQuery && (r.hasQuery ==> r.queryOk) && (r.mode == Apply || r.mode == DryRun)
             && !BlockRefuses(r) && ((r.window.start == 0) == (r.window.end == 0)))
  {
  }

  // ----------------------------------------------------------------- batch reload

  /** dropBatchesWithUnusableWindows: of the batches read from disk, those with a usable window stay. */
  method DropUnusable(batches: map<string, Window>) returns (kept: map<string, Window>)
    ensures forall t :: t in kept <==> t in batches && batches[t].Validate()
    ensures forall t :: t in kept ==> kept[t] == batches[t]
  {
    kept := batches;
    var left := batches.Keys;
    while left != {}
      invariant left <= batches.Keys
      invariant forall t :: t in kept <==> t in batches && (t in left || batches[t].Validate())
      invariant forall t :: t in kept ==> kept[t] == batches[t]
    {
      var t :| t in left;
      left := left - {t};
      if !batches[t].Validate() { kept := kept - {t}; }
    }
  }

  // ---------------------------------------------------------------- covered range

  /** A meta whose range is not inverted; each of its bounds counts on its own. */
  predicate Counts(m: Meta) {
    m.start.Some? && m.end.Some? ==> m.start.value <= m.end.value
  }

  /** coveredRange: the least start and the greatest end among the metas that count, if any. */
  method CoveredRange(metas: seq<Meta>) returns (start: Option<int>, end: Option<int>)
    ensures start.None? <==> forall m :: m in metas && Counts(m) ==> m.start.None?
    ensures end.None? <==> forall m :: m in metas && Counts(m) ==> m.end.None?
    ensures start.Some? ==> (exists m :: m in metas && Counts(m) && m.start == start)
    ensures end.Some? ==> (exists m :: m in metas && Counts(m) && m.end == end)
    ensures forall m :: m in metas && Counts(m) && m.start.Some? ==> start.Some? && start.value <= m.start.value
    ensures forall m :: m in metas && Counts(m) && m.end.Some? ==> end.Some? && m.end.value <= end.value
  {
    start, end := None, None;
    var i := 0;
    while i < |metas|
      invariant 0 <= i <= |metas|
      invariant start.Some? ==> (exists m :: m in metas && Counts(m) && m.start == start)
      invariant end.Some? ==> (exists m :: m in metas && Counts(m) && m.end == end)
      invariant forall k :: 0 <= k < i && Counts(metas[k]) && metas[k].start.Some? ==> start.Some? && start.value <= metas[k].start.value
      invariant forall k :: 0 <= k < i && Counts(metas[k]) && metas[k].end.Some? ==> end.Some? && metas[k].end.value <= end.value
    {
      var m := metas[i];
      assert m in metas;
      i := i + 1;
      if m.start.Some? && m.end.Some? && m.start.value > m.end.value { continue; }
      if m.start.Some? && (start.None? || m.start.value < start.value) { start := m.start; }
      if m.end.Some? && (end.None? || m.end.value > end.value) { end := m.end; }
    }
  }
}
