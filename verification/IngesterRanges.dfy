/**
 How a search's time range is divided between the ingesters and the backend, in 32-bit seconds.
 */
module IngesterRanges {

  const Modulus: nat := 0x1_0000_0000

  type Seconds = x: nat | x < Modulus

  /** What an arithmetic result becomes in a uint32. */
  function Wrap(x: nat): Seconds {
    x % Modulus
  }

  datatype Range = Range(start: Seconds, end: Seconds)

  const MinimumInterval: Seconds := 60

  /** A difference in a uint32. */
  function Minus(a: Seconds, b: Seconds): Seconds {
    if a >= b then a - b else a + Modulus - b
  }

  function Interval(start: Seconds, end: Seconds, shards: nat): Seconds
    requires 0 < shards < Modulus
  {
    var interval := Minus(end, start) / shards;
    if interval < MinimumInterval then MinimumInterval else interval
  }

  function ShardStart(start: Seconds, interval: Seconds, i: nat): Seconds {
    Wrap(start + Wrap(i * interval))
  }

  /** Shard i's range, snapped to the query's end if it reaches it or is the last. */
  function ShardRange(start: Seconds, end: Seconds, interval: Seconds, shards: nat, i: nat): Range {
    var shardStart := ShardStart(start, interval, i);
    var shardEnd := Wrap(shardStart + interval);
    Range(shardStart, if shardEnd >= end || i == shards - 1 then end else shardEnd)
  }

  /** The sub-requests of shards i and up. */
  function SubRanges(start: Seconds, end: Seconds, interval: Seconds, shards: nat, i: nat): seq<Range>
    decreases shards - i
  {
    if i >= shards || ShardStart(start, interval, i) >= end then []
    else [ShardRange(start, end, interval, shards, i)] + SubRanges(start, end, interval, shards, i + 1)
  }

  /** The part of the query the ingesters are asked for starts here. */
  function From(start: Seconds, until: Seconds): Seconds {
    if start < until then until else start
  }

  datatype Plan = Unbounded | Nothing | Ranges(ranges: seq<Range>)

  /** ingesterRequests: `until` is the first clock reading less the time after which the backend is asked. */
  method IngesterRequests(start: Seconds, end: Seconds, until: Seconds, shards: nat) returns (p: Plan)
    requires 0 < shards < Modulus
    ensures p.Unbounded? <==> start == 0 || end == 0
    ensures !p.Unbounded? ==>
              var from := From(start, until);
              p == if end < until || from == end then Nothing
                   else Ranges(SubRanges(from, end, Interval(from, end, shards), shards, 0))
  {
    if start == 0 || end == 0 { return Unbounded; }
    if end < until { return Nothing; }
    var from := start;
    if from < until { from := until; }
    if from == end { return Nothing; }
    var duration := Minus(end, from);
    var interval := duration / shards;
    if interval < MinimumInterval { interval := MinimumInterval; }
    assert interval == Interval(from, end, shards);
    var ranges := Split(from, end, interval, shards);
    return Ranges(ranges);
  }

  /** The body of the loop below: the shard's range, or past the end. */
  method OneShard(start: Seconds, end: Seconds, interval: Seconds, shards: nat, i: nat) returns (past: bool, r: Range)
    ensures past <==> ShardStart(start, interval, i) >= end
    ensures !past ==> r == ShardRange(start, end, interval, shards, i)
  {
    var shardStart := Wrap(start + Wrap(i * interval));
    var shardEnd := Wrap(shardStart + interval);
    if shardStart >= end {
      return true, Range(0, 0);
    }
    if shardEnd >= end || i == shards - 1 { shardEnd := end; }
    return false, Range(shardStart, shardEnd);
  }

  method Split(start: Seconds, end: Seconds, interval: Seconds, shards: nat) returns (ranges: seq<Range>)
    ensures ranges == SubRanges(start, end, interval, shards, 0)
  {
    ranges := [];
    var i := 0;
    while i < shards
      invariant 0 <= i <= shards
      invariant SubRanges(start, end, interval, shards, 0) == ranges + SubRanges(start, end, interval, shards, i)
    {
      var past, r := OneShard(start, end, interval, shards, i);
      if past { break; }
      ranges := ranges + [r];
      i := i + 1;
    }
  }

  /** backendRange, with the second clock reading. */
  function BackendRange(start: Seconds, end: Seconds, until: Seconds): Range {
    Range(if start > until then until else start, if end > until then until else end)
  }

  // -------------------------------------------------------------------- tiling

  /** The ranges follow one another from `from` to `end`, none empty, all but the last at least a minute long. */
  predicate Tiles(ranges: seq<Range>, from: int, end: int)
    decreases |ranges|
  {
    && |ranges| > 0
    && ranges[0].start == from < ranges[0].end
    && (if |ranges| == 1 then ranges[0].end == end
        else ranges[0].end - from >= MinimumInterval && Tiles(ranges[1..], ranges[0].end, end))
  }

  /** While no sum reaches 2^32, wrapping changes nothing. */
  lemma NoWrap(x: nat)
    requires x < Modulus
    ensures Wrap(x) == x
  {
  }

  lemma Times(i: nat, k: nat, interval: nat)
    requires i <= k
    ensures i * interval <= k * interval && (i + 1) * interval == i * interval + interval
  {
  }

  /** Minutes in the range, the last one possibly begun only. */
  function Minutes(start: Seconds, end: Seconds): nat
    requires start <= end
  {
    (end - start + 59) / 60
  }

  /**
   The shards are longer than the minimum, or there are only as many of them as the range has minutes, or the
   last minute begun ends before 2^32.
   */
  predicate Fits(start: Seconds, end: Seconds, shards: nat)
    requires start <= end && 0 < shards < Modulus
  {
    (end - start) / shards >= MinimumInterval || Minutes(start, end) >= shards || start + 60 * Minutes(start, end) < Modulus
  }

  lemma PlainInterval(start: Seconds, end: Seconds, shards: nat)
    requires start <= end && 0 < shards < Modulus
    ensures Minus(end, start) == end - start
    ensures var quotient := (end - start) / shards;
            && shards * quotient <= end - start
            && Interval(start, end, shards) == if quotient < 60 then 60 else quotient
  {
  }

  /** A shard that is not the last ends in range: by the query's end, or within the last minute begun. */
  lemma EndFits(start: Seconds, end: Seconds, shards: nat, i: nat)
    requires start < end && 0 < shards < Modulus && Fits(start, end, shards) && i < shards
    requires start + i * Interval(start, end, shards) < end
    ensures i * Interval(start, end, shards) < Modulus
    ensures i < shards - 1 ==> start + (i + 1) * Interval(start, end, shards) < Modulus
  {
    PlainInterval(start, end, shards);
    var quotient := (end - start) / shards;
    if quotient >= MinimumInterval { Times(i + 1, shards, quotient); }
  }

  /** A shard that starts before the end starts and ends where plain arithmetic says. */
  lemma ShardIsExact(start: Seconds, end: Seconds, shards: nat, i: nat, at: nat)
    requires start < end && 0 < shards < Modulus && Fits(start, end, shards) && i < shards
    requires at == start + i * Interval(start, end, shards) < end
    ensures var interval := Interval(start, end, shards);
            && ShardStart(start, interval, i) == at
            && (i < shards - 1 ==> at + interval < Modulus && at + interval == start + (i + 1) * interval)
            && ShardRange(start, end, interval, shards, i) == Range(at, if at + interval >= end || i == shards - 1 then end else at + interval)
  {
    var interval := Interval(start, end, shards);
    EndFits(start, end, shards, i);
    NoWrap(i * interval);
    NoWrap(start + i * interval);
    Times(i, i, interval);
    if i < shards - 1 { NoWrap(at + interval); }
  }

  /** After a shard that reaches the end there is none. */
  lemma LastShard(start: Seconds, end: Seconds, shards: nat, i: nat, at: nat)
    requires start < end && 0 < shards < Modulus && Fits(start, end, shards) && i < shards
    requires at == start + i * Interval(start, end, shards) < end
    requires at + Interval(start, end, shards) >= end || i == shards - 1
    ensures SubRanges(start, end, Interval(start, end, shards), shards, i + 1) == []
  {
    if i < shards - 1 {
      ShardIsExact(start, end, shards, i, at);
      PastTheEnd(start, end, Interval(start, end, shards), shards, i + 1);
    }
  }

  lemma PastTheEnd(start: Seconds, end: Seconds, interval: Seconds, shards: nat, i: nat)
    requires end <= start + i * interval < Modulus
    ensures SubRanges(start, end, interval, shards, i) == []
  {
    NoWrap(i * interval);
    NoWrap(start + i * interval);
  }

  /** From shard i on, the sub-requests tile what is left of the range. */
  lemma {:induction false} SubRangesTile(start: Seconds, end: Seconds, shards: nat, i: nat, at: nat)
    requires start < end && 0 < shards < Modulus && Fits(start, end, shards) && i < shards
    requires at == start + i * Interval(start, end, shards) < end
    ensures var ranges := SubRanges(start, end, Interval(start, end, shards), shards, i);
            Tiles(ranges, at, end) && |ranges| <= shards - i
    decreases shards - i
  {
    var interval := Interval(start, end, shards);
    ShardIsExact(start, end, shards, i, at);
    var rest := SubRanges(start, end, interval, shards, i + 1);
    var all := SubRanges(start, end, interval, shards, i);
    assert all == [ShardRange(start, end, interval, shards, i)] + rest;
    assert all[1..] == rest;
    if at + interval >= end || i == shards - 1 {
      LastShard(start, end, shards, i, at);
    } else {
      PlainInterval(start, end, shards);
      SubRangesTile(start, end, shards, i + 1, at + interval);
    }
  }

  predicate InRange(r: Range, x: int) {
    r.start <= x < r.end
  }

  predicate InRanges(rs: seq<Range>, x: int) {
    exists i :: 0 <= i < |rs| && InRange(rs[i], x)
  }

  /** A tiling covers exactly its range, each second once. */
  lemma {:induction false} TilesExactly(rs: seq<Range>, from: int, end: int, x: int)
    requires Tiles(rs, from, end)
    ensures InRanges(rs, x) <==> from <= x < end
    ensures forall i, k :: 0 <= i < k < |rs| ==> rs[i].end <= rs[k].start
    decreases |rs|
  {
    if |rs| == 1 {
      assert InRange(rs[0], x) <==> from <= x < end;
    } else {
      var rest := rs[1..];
      TilesExactly(rest, rs[0].end, end, x);
      TilesExactly(rest, rs[0].end, end, rs[0].end);
      TilesWithin(rest, rs[0].end, end);
      if InRanges(rest, x) {
        var i :| 0 <= i < |rest| && InRange(rest[i], x);
        assert InRange(rs[i + 1], x);
      }
      if from <= x < rs[0].end { assert InRange(rs[0], x); }
      if InRanges(rs, x) {
        var i :| 0 <= i < |rs| && InRange(rs[i], x);
        if i > 0 { assert InRange(rest[i - 1], x); }
      }
      forall i, k | 0 <= i < k < |rs| ensures rs[i].end <= rs[k].start {
        assert rs[k] == rest[k - 1];
        if i > 0 { assert rs[i] == rest[i - 1]; }
      }
    }
  }

  lemma {:induction false} TilesWithin(rs: seq<Range>, from: int, end: int)
    requires Tiles(rs, from, end)
    ensures from < end && forall i :: 0 <= i < |rs| ==> from <= rs[i].start
    decreases |rs|
  {
    if |rs| > 1 {
      TilesWithin(rs[1..], rs[0].end, end);
      forall i | 0 < i < |rs| ensures from <= rs[i].start {
        assert rs[i] == rs[1..][i - 1];
      }
    }
  }

  /** Every second of the range is in exactly one of the ranges, and no other second is in any. */
  ghost predicate Partition(rs: seq<Range>, from: int, end: int) {
    && (forall x :: InRanges(rs, x) <==> from <= x < end)
    && (forall i, k, x {:trigger InRange(rs[i], x), InRange(rs[k], x)} :: 0 <= i < k < |rs| ==> !(InRange(rs[i], x) && InRange(rs[k], x)))
  }

  lemma TilesPartition(rs: seq<Range>, from: int, end: int)
    requires Tiles(rs, from, end)
    ensures Partition(rs, from, end)
  {
    forall x ensures InRanges(rs, x) <==> from <= x < end {
      TilesExactly(rs, from, end, x);
    }
    TilesExactly(rs, from, end, from);
  }

  // ------------------------------------------------------------- when the sums wrap

  /** If none of the shards up to the k-th starts past the end, the k-th sub-request is its range. */
  lemma {:induction false} NthRange(start: Seconds, end: Seconds, interval: Seconds, shards: nat, i: nat, k: nat)
    requires i + k < shards && forall j :: i <= j <= i + k ==> ShardStart(start, interval, j) < end
    ensures var ranges := SubRanges(start, end, interval, shards, i);
            k < |ranges| && ranges[k] == ShardRange(start, end, interval, shards, i + k)
    decreases k
  {
    assert ShardStart(start, interval, i) < end;
    if k > 0 { NthRange(start, end, interval, shards, i + 1, k - 1); }
  }

  /** The shard after the last minute begun starts again near 0. */
  lemma WrappedStart(start: Seconds, end: Seconds, c: nat)
    requires start < end && c == Minutes(start, end) && start + 60 * c >= Modulus
    ensures forall j :: 0 <= j < c ==> ShardStart(start, 60, j) == start + 60 * j < end
    ensures ShardStart(start, 60, c) == start + 60 * c - Modulus < 60 <= end
  {
    assert 60 * (c - 1) < end - start;
    assert 60 * c < Modulus ==> Wrap(60 * c) == 60 * c;
    assert 60 * c >= Modulus ==> Wrap(60 * c) == 60 * c - Modulus;
  }

  /** That shard is asked for the second it starts at; if this second is in the range, so is the first shard. */
  lemma WrappedRange(start: Seconds, end: Seconds, shards: nat, c: nat, w: nat)
    requires start < end && c == Minutes(start, end) && w == start + 60 * c - Modulus >= 0 && c < shards < Modulus
    ensures var ranges := SubRanges(start, end, 60, shards, 0);
            && 0 < c < |ranges| && InRange(ranges[c], w)
            && (start <= w ==> InRange(ranges[0], w))
  {
    WrappedStart(start, end, c);
    NthRange(start, end, 60, shards, 0, 0);
    NthRange(start, end, 60, shards, 0, c);
    NoWrap(w + 60);
    if start <= w { NoWrap(start + 60); }
  }

  lemma Overlap(rs: seq<Range>, from: int, end: int, c: nat, w: int)
    requires 0 < c < |rs| && InRange(rs[c], w) && (from <= w ==> InRange(rs[0], w))
    ensures !Partition(rs, from, end)
  {
    assert InRanges(rs, w);
  }

  /** Where the range does not fit, a second near 0 is asked for that is not in the range, or asked for twice. */
  lemma WrapsOtherwise(start: Seconds, end: Seconds, shards: nat)
    requires start < end && 0 < shards < Modulus && !Fits(start, end, shards)
    ensures !Partition(SubRanges(start, end, Interval(start, end, shards), shards, 0), start, end)
  {
    var c := Minutes(start, end);
    var w := start + 60 * c - Modulus;
    PlainInterval(start, end, shards);
    WrappedRange(start, end, shards, c, w);
    Overlap(SubRanges(start, end, 60, shards, 0), start, end, c, w);
  }

  /** The sub-requests tile the range, and ask for each of its seconds once and for no other, exactly when it fits. */
  lemma {:induction false} TilesExactlyWhenFits(start: Seconds, end: Seconds, shards: nat)
    requires start < end && 0 < shards < Modulus
    ensures var ranges := SubRanges(start, end, Interval(start, end, shards), shards, 0);
            && (Tiles(ranges, start, end) <==> Fits(start, end, shards))
            && (Partition(ranges, start, end) <==> Fits(start, end, shards))
  {
    var ranges := SubRanges(start, end, Interval(start, end, shards), shards, 0);
    if Fits(start, end, shards) {
      SubRangesTile(start, end, shards, 0, start);
      TilesPartition(ranges, start, end);
    } else {
      WrapsOtherwise(start, end, shards);
      if Tiles(ranges, start, end) { TilesPartition(ranges, start, end); }
    }
  }

  // ------------------------------------------------------------------ coverage

  /** What the ingesters are asked for by a query with both bounds. */
  function AskedRanges(start: Seconds, end: Seconds, until: Seconds, shards: nat): seq<Range>
    requires 0 < shards < Modulus
  {
    var from := From(start, until);
    if end < until || from == end then [] else SubRanges(from, end, Interval(from, end, shards), shards, 0)
  }

  /** The recent part of the query is empty or fits. */
  predicate RecentPartFits(start: Seconds, end: Seconds, until: Seconds, shards: nat)
    requires 0 < shards < Modulus
  {
    end <= From(start, until) || Fits(From(start, until), end, shards)
  }

  /** The ingesters are asked for each second of the recent part of the query once, and for nothing else, exactly when it fits. */
  lemma {:induction false} IngestersGetTheRecentPart(start: Seconds, end: Seconds, until: Seconds, shards: nat)
    requires 0 < shards < Modulus
    ensures Partition(AskedRanges(start, end, until, shards), if start < until then until else start, end) <==>
            RecentPartFits(start, end, until, shards)
  {
    var from := From(start, until);
    if from < end {
      TilesExactlyWhenFits(from, end, shards);
    } else {
      assert ShardStart(from, Interval(from, end, shards), 0) == from;
      assert AskedRanges(start, end, until, shards) == [];
    }
  }

  /** The backend is asked for the seconds of the query before its boundary and for no other. */
  lemma BackendGetsTheOldPart(start: Seconds, end: Seconds, until: Seconds, x: int)
    ensures InRange(BackendRange(start, end, until), x) <==> start <= x < end && x < until
  {
  }

  /** Every second of the query is asked of the ingesters or of the backend. */
  ghost predicate WholeQueryCovered(start: Seconds, end: Seconds, first: Seconds, second: Seconds, shards: nat)
    requires 0 < shards < Modulus
  {
    forall x :: start <= x < end ==> InRanges(AskedRanges(start, end, first, shards), x) || InRange(BackendRange(start, end, second), x)
  }

  /**
   The two clock readings leave no gap exactly when the second boundary, within the query, is not before
   the first; in particular when the clock did not run backwards between them.
   */
  lemma CoveredUnlessClockFellBack(start: Seconds, end: Seconds, first: Seconds, second: Seconds, shards: nat)
    requires start < end && 0 < shards < Modulus && RecentPartFits(start, end, first, shards)
    ensures WholeQueryCovered(start, end, first, second, shards) <==>
            (if start < second then second else start) >= (if end < first then end else first)
    ensures first <= second ==> WholeQueryCovered(start, end, first, second, shards)
  {
    IngestersGetTheRecentPart(start, end, first, shards);
    var gap := From(start, second);
    if gap < (if end < first then end else first) {
      assert start <= gap < end && !InRanges(AskedRanges(start, end, first, shards), gap) && !InRange(BackendRange(start, end, second), gap);
    }
  }
}
