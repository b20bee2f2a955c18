/**
 The block builder's iterator over a tenant's live traces: each trace once, in ID order, its duplicate
 spans filtered out in place, and the time bounds of what was kept collected on the way.
 */
module LiveTraces {
  import opened Options

  datatype Span = Span(id: nat, kind: int, start: nat, end: nat, body: nat)

  /** A span's token: a hash of its kind and ID, of which nothing is assumed. */
  type Tokens = Span -> nat

  /** A stored batch: bytes that do not decode, or the span lists of its scopes in order. */
  datatype Batch = Bad | Scopes(scopes: seq<seq<Span>>)

  /** A live trace. IDs are numbers whose order is the order of their bytes. */
  datatype Live = Live(id: nat, batches: seq<Batch>)

  datatype Item = Item(id: nat, scopes: seq<seq<Span>>) | Failure

  /** The iterator's time bounds. */
  datatype Range = Range(start: nat, end: nat)

  // --------------------------------------------------------------- first of a kind

  predicate IsFirst(xs: seq<Span>, i: nat, token: Tokens)
    requires i < |xs|
  {
    forall j :: 0 <= j < i ==> token(xs[j]) != token(xs[i])
  }

  /** The first span of each token among the first n, in order. */
  function Firsts(xs: seq<Span>, n: nat, token: Tokens): seq<Span>
    requires n <= |xs|
  {
    if n == 0 then [] else Firsts(xs, n - 1, token) + (if IsFirst(xs, n - 1, token) then [xs[n - 1]] else [])
  }

  function TokensOf(xs: seq<Span>, n: nat, token: Tokens): set<nat>
    requires n <= |xs|
  {
    set j | 0 <= j < n :: token(xs[j])
  }

  /** What the filter keeps of the first n spans when some tokens were seen before. */
  function Kept(xs: seq<Span>, n: nat, seen: set<nat>, token: Tokens): seq<Span>
    requires n <= |xs|
  {
    if n == 0 then []
    else Kept(xs, n - 1, seen, token) + (if token(xs[n - 1]) in seen + TokensOf(xs, n - 1, token) then [] else [xs[n - 1]])
  }

  /** The bounds after one more kept span: a start of 0 counts as not set yet. */
  function See(r: Range, x: Span): Range {
    Range(if r.start == 0 || x.start < r.start then x.start else r.start, if x.end > r.end then x.end else r.end)
  }

  function SeeAll(r: Range, xs: seq<Span>): Range {
    if |xs| == 0 then r else See(SeeAll(r, xs[..|xs| - 1]), xs[|xs| - 1])
  }

  lemma SeeAllAppend(r: Range, xs: seq<Span>, x: Span)
    ensures SeeAll(r, xs + [x]) == See(SeeAll(r, xs), x)
  {
    assert (xs + [x])[..|xs|] == xs;
  }

  lemma {:induction false} SeeAllConcat(r: Range, a: seq<Span>, b: seq<Span>)
    ensures SeeAll(r, a + b) == SeeAll(SeeAll(r, a), b)
  {
    if |b| == 0 {
      assert a + b == a;
    } else {
      SeeAllConcat(r, a, b[..|b| - 1]);
      assert (a + b)[..|a + b| - 1] == a + b[..|b| - 1];
    }
  }

  lemma TokensGrow(xs: seq<Span>, n: nat, token: Tokens)
    requires n < |xs|
    ensures TokensOf(xs, n + 1, token) == TokensOf(xs, n, token) + {token(xs[n])}
  {
  }

  /** Half way: the first i spans are filtered into the first k places, and the rest are untouched. */
  ghost predicate Halfway(a: array<Span>, xs: seq<Span>, i: nat, k: nat, seen: set<nat>, token: Tokens, r: Range, r': Range)
    reads a
  {
    && k <= i <= |xs| == a.Length
    && a[..k] == Kept(xs, i, seen, token) && a[i..] == xs[i..]
    && r' == SeeAll(r, a[..k])
  }

  /** Keeps the i-th span: moves it down to the k-th place. */
  method Keep(a: array<Span>, ghost xs: seq<Span>, i: nat, k: nat, ghost seen: set<nat>, ghost token: Tokens, ghost r: Range, r': Range) returns (r'': Range)
    requires i < a.Length && Halfway(a, xs, i, k, seen, token, r, r') && token(xs[i]) !in seen + TokensOf(xs, i, token)
    modifies a
    ensures Halfway(a, xs, i + 1, k + 1, seen, token, r, r'')
  {
    ghost var kept := a[..k];
    ghost var rest := a[i + 1..];
    var s := a[i];
    assert s == a[i..][0] == xs[i];
    assert rest == a[i..][1..] == xs[i + 1..];
    SeeAllAppend(r, kept, s);
    a[k] := s;
    assert a[..k + 1] == kept + [s];
    assert a[i + 1..] == rest;
    r'' := See(r', s);
  }

  /**
   The in-place filter of one scope's spans: the kept ones end up in the first k places; the bounds take
   in each kept span and the counter each dropped one.
   */
  method FilterInPlace(a: array<Span>, token: Tokens, seen: set<nat>, r: Range, dropped: nat)
    returns (k: nat, seen': set<nat>, r': Range, dropped': nat)
    modifies a
    ensures k <= a.Length && a[..k] == Kept(old(a[..]), a.Length, seen, token)
    ensures seen' == seen + TokensOf(old(a[..]), a.Length, token)
    ensures r' == SeeAll(r, a[..k])
    ensures dropped' + k == dropped + a.Length
  {
    ghost var xs := a[..];
    k, seen', r', dropped' := 0, seen, r, dropped;
    var i := 0;
    while i < a.Length
      invariant Halfway(a, xs, i, k, seen, token, r, r') && dropped' + k == dropped + i
      invariant seen' == seen + TokensOf(xs, i, token)
    {
      assert a[i] == a[i..][0] == xs[i];
      TokensGrow(xs, i, token);
      var t := token(a[i]);
      if t in seen' {
        assert a[i + 1..] == xs[i + 1..];
        dropped' := dropped' + 1;
      } else {
        seen' := seen' + {t};
        r' := Keep(a, xs, i, k, seen, token, r, r');
        k := k + 1;
      }
      i := i + 1;
    }
  }

  // ------------------------------------------------------------------- one trace

  /** All spans of the first n scopes. */
  function Flat(scopes: seq<seq<Span>>, n: nat): seq<Span>
    requires n <= |scopes|
  {
    if n == 0 then [] else Flat(scopes, n - 1) + scopes[n - 1]
  }

  function SeenIn(scopes: seq<seq<Span>>, n: nat, token: Tokens): set<nat>
    requires n <= |scopes|
  {
    if n == 0 then {} else SeenIn(scopes, n - 1, token) + TokensOf(scopes[n - 1], |scopes[n - 1]|, token)
  }

  /** The scopes after filtering: tokens are remembered across the scopes of a trace. */
  function Deduped(scopes: seq<seq<Span>>, n: nat, token: Tokens): seq<seq<Span>>
    requires n <= |scopes|
  {
    if n == 0 then []
    else Deduped(scopes, n - 1, token) + [Kept(scopes[n - 1], |scopes[n - 1]|, SeenIn(scopes, n - 1, token), token)]
  }

  method FilterScope(xs: seq<Span>, token: Tokens, seen: set<nat>, r: Range, dropped: nat)
    returns (ys: seq<Span>, seen': set<nat>, r': Range, dropped': nat)
    ensures ys == Kept(xs, |xs|, seen, token) && seen' == seen + TokensOf(xs, |xs|, token)
    ensures r' == SeeAll(r, ys) && dropped' + |ys| == dropped + |xs|
  {
    var a := new Span[|xs|](i requires 0 <= i < |xs| => xs[i]);
    assert a[..] == xs;
    var k;
    k, seen', r', dropped' := FilterInPlace(a, token, seen, r, dropped);
    ys := a[..k];
  }

  lemma FlatAppend(kept: seq<seq<Span>>, ys: seq<Span>, r: Range)
    ensures Flat(kept + [ys], |kept| + 1) == Flat(kept, |kept|) + ys
    ensures SeeAll(r, Flat(kept + [ys], |kept| + 1)) == SeeAll(SeeAll(r, Flat(kept, |kept|)), ys)
  {
    FlatPrefix(kept, [ys], |kept|);
    SeeAllConcat(r, Flat(kept, |kept|), ys);
  }

  method DedupTrace(scopes: seq<seq<Span>>, token: Tokens, r: Range, dropped: nat)
    returns (kept: seq<seq<Span>>, r': Range, dropped': nat)
    ensures kept == Deduped(scopes, |scopes|, token) && |kept| == |scopes|
    ensures r' == SeeAll(r, Flat(kept, |kept|))
    ensures dropped' + |Flat(kept, |kept|)| == dropped + |Flat(scopes, |scopes|)|
  {
    kept, r', dropped' := [], r, dropped;
    var seen: set<nat> := {};
    var n := 0;
    while n < |scopes|
      invariant 0 <= n <= |scopes| && n == |kept|
      invariant kept == Deduped(scopes, n, token) && seen == SeenIn(scopes, n, token)
      invariant r' == SeeAll(r, Flat(kept, n)) && dropped' + |Flat(kept, n)| == dropped + |Flat(scopes, n)|
    {
      var ys;
      ys, seen, r', dropped' := FilterScope(scopes[n], token, seen, r', dropped');
      FlatAppend(kept, ys, r);
      kept := kept + [ys];
      n := n + 1;
    }
  }

  lemma {:induction false} TokensConcat(a: seq<Span>, b: seq<Span>, n: nat, token: Tokens)
    requires n <= |b|
    ensures TokensOf(a + b, |a| + n, token) == TokensOf(a, |a|, token) + TokensOf(b, n, token)
  {
    if n == 0 {
      assert forall j :: 0 <= j < |a| ==> (a + b)[j] == a[j];
    } else {
      TokensConcat(a, b, n - 1, token);
      TokensGrow(a + b, |a| + n - 1, token);
      TokensGrow(b, n - 1, token);
    }
  }

  lemma {:induction false} SeenIsTokens(scopes: seq<seq<Span>>, n: nat, token: Tokens)
    requires n <= |scopes|
    ensures SeenIn(scopes, n, token) == TokensOf(Flat(scopes, n), |Flat(scopes, n)|, token)
  {
    if n > 0 {
      SeenIsTokens(scopes, n - 1, token);
      TokensConcat(Flat(scopes, n - 1), scopes[n - 1], |scopes[n - 1]|, token);
    }
  }

  lemma {:induction false} FirstsPrefix(a: seq<Span>, b: seq<Span>, n: nat, token: Tokens)
    requires n <= |a|
    ensures Firsts(a + b, n, token) == Firsts(a, n, token)
  {
    if n > 0 {
      FirstsPrefix(a, b, n - 1, token);
      assert forall j :: 0 <= j < n ==> (a + b)[j] == a[j];
    }
  }

  lemma FirstIsUnseen(xs: seq<Span>, i: nat, token: Tokens)
    requires i < |xs|
    ensures IsFirst(xs, i, token) <==> token(xs[i]) !in TokensOf(xs, i, token)
  {
  }

  /** Filtering a continuation with what was seen before keeps exactly the firsts of the whole. */
  lemma {:induction false} KeptIsFirsts(a: seq<Span>, b: seq<Span>, n: nat, token: Tokens)
    requires n <= |b|
    ensures Firsts(a + b, |a| + n, token) == Firsts(a, |a|, token) + Kept(b, n, TokensOf(a, |a|, token), token)
  {
    if n == 0 {
      FirstsPrefix(a, b, |a|, token);
    } else {
      KeptIsFirsts(a, b, n - 1, token);
      FirstIsUnseen(a + b, |a| + n - 1, token);
      TokensConcat(a, b, n - 1, token);
      assert (a + b)[|a| + n - 1] == b[n - 1];
    }
  }

  /**
   What the emitted scopes must be, whatever computes them: as many as the trace has, the n-th holding
   exactly what the n-th scope adds to the trace's first spans, in order.
   */
  ghost predicate FiltersFirsts(scopes: seq<seq<Span>>, out: seq<seq<Span>>, token: Tokens) {
    && |out| == |scopes|
    && Flat(out, |out|) == FirstsOf(scopes, |scopes|, token)
    && forall n :: 0 <= n < |scopes| ==> FirstsOf(scopes, n + 1, token) == FirstsOf(scopes, n, token) + out[n]
  }

  /** The first span of each token over the first n scopes. */
  function FirstsOf(scopes: seq<seq<Span>>, n: nat, token: Tokens): seq<Span>
    requires n <= |scopes|
  {
    Firsts(Flat(scopes, n), |Flat(scopes, n)|, token)
  }

  lemma ScopeAdds(scopes: seq<seq<Span>>, n: nat, token: Tokens)
    requires n < |scopes|
    ensures FirstsOf(scopes, n + 1, token) ==
            FirstsOf(scopes, n, token) + Kept(scopes[n], |scopes[n]|, SeenIn(scopes, n, token), token)
  {
    SeenIsTokens(scopes, n, token);
    KeptIsFirsts(Flat(scopes, n), scopes[n], |scopes[n]|, token);
  }

  lemma DedupedFiltersFirsts(scopes: seq<seq<Span>>, token: Tokens)
    ensures FiltersFirsts(scopes, Deduped(scopes, |scopes|, token), token)
  {
    TraceKeepsFirsts(scopes, |scopes|, token);
    forall n: nat | n < |scopes|
      ensures FirstsOf(scopes, n + 1, token) == FirstsOf(scopes, n, token) + Deduped(scopes, |scopes|, token)[n]
    {
      DedupedAt(scopes, |scopes|, n, token);
      ScopeAdds(scopes, n, token);
    }
  }

  lemma {:induction false} DedupedAt(scopes: seq<seq<Span>>, n: nat, k: nat, token: Tokens)
    requires k < n <= |scopes|
    ensures |Deduped(scopes, n, token)| == n
    ensures Deduped(scopes, n, token)[k] == Kept(scopes[k], |scopes[k]|, SeenIn(scopes, k, token), token)
  {
    TraceKeepsFirsts(scopes, n - 1, token);
    if k < n - 1 { DedupedAt(scopes, n - 1, k, token); }
  }

  /** A trace keeps exactly the first span of each token, in order. */
  lemma {:induction false} TraceKeepsFirsts(scopes: seq<seq<Span>>, n: nat, token: Tokens)
    requires n <= |scopes|
    ensures |Deduped(scopes, n, token)| == n
    ensures Flat(Deduped(scopes, n, token), n) == Firsts(Flat(scopes, n), |Flat(scopes, n)|, token)
  {
    if n > 0 {
      TraceKeepsFirsts(scopes, n - 1, token);
      var before := Deduped(scopes, n - 1, token);
      var one := Kept(scopes[n - 1], |scopes[n - 1]|, SeenIn(scopes, n - 1, token), token);
      FlatPrefix(before, [one], n - 1);
      SeenIsTokens(scopes, n - 1, token);
      KeptIsFirsts(Flat(scopes, n - 1), scopes[n - 1], |scopes[n - 1]|, token);
    }
  }

  lemma {:induction false} FlatPrefix(a: seq<seq<Span>>, b: seq<seq<Span>>, n: nat)
    requires n <= |a|
    ensures Flat(a + b, n) == Flat(a, n)
  {
    if n > 0 { FlatPrefix(a, b, n - 1); }
  }

  // ------------------------------------------------------------ the bounds' meaning

  predicate Bounds(xs: seq<Span>, lo: nat, hi: nat) {
    && (forall x :: x in xs ==> lo <= x.start && x.end <= hi)
    && (exists x :: x in xs && x.start == lo)
    && (hi == 0 || exists x :: x in xs && x.end == hi)
  }

  lemma {:induction false} EndIsGreatest(xs: seq<Span>)
    ensures var s := SeeAll(Range(0, 0), xs);
            (forall x :: x in xs ==> x.end <= s.end) && (s.end == 0 || exists x :: x in xs && x.end == s.end)
  {
    if |xs| > 0 {
      var before, last := xs[..|xs| - 1], xs[|xs| - 1];
      assert xs == before + [last];
      EndIsGreatest(before);
      var s := SeeAll(Range(0, 0), before);
      if y :| y in before && y.end == s.end { assert y in xs; }
      assert last in xs;
    }
  }

  lemma {:induction false} StartIsOne(xs: seq<Span>)
    requires |xs| > 0
    ensures var s := SeeAll(Range(0, 0), xs);
            && (exists x :: x in xs && x.start == s.start)
            && (s.start == 0 <==> xs[|xs| - 1].start == 0)
            && ((forall x :: x in xs ==> x.start > 0) ==> forall x :: x in xs ==> s.start <= x.start)
  {
    var before, last := xs[..|xs| - 1], xs[|xs| - 1];
    assert xs == before + [last];
    assert last in xs;
    if |before| > 0 {
      StartIsOne(before);
      var s := SeeAll(Range(0, 0), before);
      var x :| x in before && x.start == s.start;
      assert x in xs;
    }
  }

  /** The reported start is the least one exactly if no span starts at 0, or the last one does. */
  lemma {:induction false} StartIsLeast(xs: seq<Span>)
    requires |xs| > 0
    ensures var s := SeeAll(Range(0, 0), xs);
            && (Bounds(xs, s.start, s.end) <==> (forall x :: x in xs ==> x.start > 0) || xs[|xs| - 1].start == 0)
            && (exists x :: x in xs && x.start == s.start)
            && (s.start == 0 <==> xs[|xs| - 1].start == 0)
            && (forall x :: x in xs ==> x.end <= s.end) && (s.end == 0 || exists x :: x in xs && x.end == s.end)
            && ((forall x :: x in xs ==> x.start > 0) ==> forall x :: x in xs ==> s.start <= x.start)
  {
    EndIsGreatest(xs);
    StartIsOne(xs);
  }

  // ---------------------------------------------------------------- the iterator

  /** What a trace's batches hold, or None if one does not decode. */
  function Decoded(batches: seq<Batch>, n: nat): Option<seq<seq<Span>>>
    requires n <= |batches|
  {
    if n == 0 then Some([])
    else if Decoded(batches, n - 1).None? || batches[n - 1].Bad? then None
    else Some(Decoded(batches, n - 1).value + batches[n - 1].scopes)
  }

  function ScopesOf(t: Live): Option<seq<seq<Span>>> {
    Decoded(t.batches, |t.batches|)
  }

  method Decode(t: Live) returns (scopes: Option<seq<seq<Span>>>)
    ensures scopes == ScopesOf(t)
  {
    var out: seq<seq<Span>> := [];
    var n := 0;
    while n < |t.batches|
      invariant 0 <= n <= |t.batches| && Decoded(t.batches, n) == Some(out)
    {
      if t.batches[n].Bad? {
        BadStays(t.batches, n + 1);
        return None;
      }
      out := out + t.batches[n].scopes;
      n := n + 1;
    }
    return Some(out);
  }

  lemma {:induction false} BadStays(batches: seq<Batch>, n: nat)
    requires n <= |batches| && Decoded(batches, n).None?
    ensures Decoded(batches, |batches|).None?
    decreases |batches| - n
  {
    if n < |batches| { BadStays(batches, n + 1); }
  }

  /** A trace decodes exactly if each of its batches does, and its scopes are those of its batches in a row. */
  lemma {:induction false} DecodingIsExact(id: nat, batches: seq<Batch>, more: Batch)
    ensures ScopesOf(Live(id, batches)).Some? <==> forall b :: b in batches ==> b.Scopes?
    ensures ScopesOf(Live(id, [])) == Some([])
    ensures ScopesOf(Live(id, batches + [more])) ==
            if ScopesOf(Live(id, batches)).Some? && more.Scopes?
            then Some(ScopesOf(Live(id, batches)).value + more.scopes) else None
  {
    var n := |batches|;
    DecodedPrefix(batches, [more], n);
    if n > 0 {
      var init := batches[..n - 1];
      DecodingIsExact(id, init, batches[n - 1]);
      assert init + [batches[n - 1]] == batches;
    }
  }

  lemma {:induction false} DecodedPrefix(a: seq<Batch>, b: seq<Batch>, n: nat)
    requires n <= |a|
    ensures Decoded(a + b, n) == Decoded(a, n)
  {
    if n > 0 { DecodedPrefix(a, b, n - 1); }
  }

  datatype Entry = Entry(id: nat, hash: nat)

  /** What a trace holds; nothing if it does not decode. */
  function ContentOf(t: Live): seq<seq<Span>> {
    if ScopesOf(t).Some? then ScopesOf(t).value else []
  }

  /** What becomes of a trace: its item's ID and scopes, the spans kept, how many it had, and whether it decodes. */
  datatype Done = Done(id: nat, scopes: seq<seq<Span>>, kept: seq<Span>, total: nat, ok: bool)

  function DoneOf(t: Live, token: Tokens): Done {
    var scopes := ContentOf(t);
    var kept := Deduped(scopes, |scopes|, token);
    Done(t.id, kept, Flat(kept, |kept|), |Flat(scopes, |scopes|)|, ScopesOf(t).Some?)
  }

  /** It keeps the first span of each token over all its scopes, in order. */
  predicate KeepsFirsts(t: Live, d: Done, token: Tokens) {
    var all := Flat(ContentOf(t), |ContentOf(t)|);
    d.id == t.id && d.kept == Firsts(all, |all|, token) && d.total == |all| && (d.ok <==> ScopesOf(t).Some?)
  }

  lemma DoneKeepsFirsts(t: Live, token: Tokens)
    ensures KeepsFirsts(t, DoneOf(t, token), token)
  {
    TraceKeepsFirsts(ContentOf(t), |ContentOf(t)|, token);
  }

  /** The first n traces: their items, the spans kept of them, and how many spans they had. */
  function Items(list: seq<Done>, n: nat): seq<Item>
    requires n <= |list|
  {
    if n == 0 then [] else Items(list, n - 1) + [Item(list[n - 1].id, list[n - 1].scopes)]
  }

  function AllKept(list: seq<Done>, n: nat): seq<Span>
    requires n <= |list|
  {
    if n == 0 then [] else AllKept(list, n - 1) + list[n - 1].kept
  }

  function Total(list: seq<Done>, n: nat): nat
    requires n <= |list|
  {
    if n == 0 then 0 else Total(list, n - 1) + list[n - 1].total
  }

  predicate AllDecode(list: seq<Done>, n: nat)
    requires n <= |list|
  {
    forall i :: 0 <= i < n ==> list[i].ok
  }

  function Flatten(chunks: seq<seq<Item>>): seq<Item> {
    if |chunks| == 0 then [] else Flatten(chunks[..|chunks| - 1]) + chunks[|chunks| - 1]
  }

  lemma FlattenAppend(chunks: seq<seq<Item>>, c: seq<Item>)
    ensures Flatten(chunks + [c]) == Flatten(chunks) + c
  {
    assert (chunks + [c])[..|chunks|] == chunks;
  }

  function HashesFrom(entries: seq<Entry>, n: nat): set<nat>
    requires n <= |entries|
    decreases |entries| - n
  {
    if n == |entries| then {} else {entries[n].hash} + HashesFrom(entries, n + 1)
  }

  lemma {:induction false} HashesFromExact(entries: seq<Entry>, n: nat)
    requires n <= |entries|
    ensures forall hash :: hash in HashesFrom(entries, n) <==> exists i :: n <= i < |entries| && entries[i].hash == hash
    decreases |entries| - n
  {
    if n < |entries| { HashesFromExact(entries, n + 1); }
  }

  predicate Listed(traces: map<nat, Live>, e: Entry, d: Done, token: Tokens) {
    e.hash in traces && DoneOf(traces[e.hash], token) == d && e.id == d.id
  }

  /** The traces from the n-th entry on are the ones left in the map. */
  ghost predicate Left(traces: map<nat, Live>, entries: seq<Entry>, list: seq<Done>, n: nat, token: Tokens) {
    && |entries| == |list| && n <= |list|
    && (forall i {:trigger Listed(traces, entries[i], list[i], token)} :: n <= i < |entries| ==> Listed(traces, entries[i], list[i], token))
    && traces.Keys == HashesFrom(entries, n)
  }

  predicate DistinctHashes(entries: seq<Entry>) {
    forall i, k :: 0 <= i < k < |entries| ==> entries[i].hash != entries[k].hash
  }

  lemma OneTaken(traces: map<nat, Live>, entries: seq<Entry>, list: seq<Done>, n: nat, token: Tokens)
    requires n < |entries| && Left(traces, entries, list, n, token) && DistinctHashes(entries)
    ensures Left(traces - {entries[n].hash}, entries, list, n + 1, token)
  {
    var rest := traces - {entries[n].hash};
    forall i | n + 1 <= i < |entries| ensures Listed(rest, entries[i], list[i], token) {
      assert Listed(traces, entries[i], list[i], token);
    }
    HashesFromExact(entries, n + 1);
    assert rest.Keys == HashesFrom(entries, n + 1);
  }

  predicate Ascending(list: seq<Done>) {
    forall i, k :: 0 <= i < k < |list| ==> list[i].id < list[k].id
  }

  /** `entries` is the map's content sorted by ID, and `list` what becomes of the traces, in that order. */
  ghost predicate IsListing(traces: map<nat, Live>, entries: seq<Entry>, list: seq<Done>, token: Tokens) {
    Left(traces, entries, list, 0, token) && Ascending(list)
  }

  /** IDs ascend strictly, so no trace is listed twice. */
  lemma ListedOnce(traces: map<nat, Live>, entries: seq<Entry>, list: seq<Done>, token: Tokens)
    requires IsListing(traces, entries, list, token)
    ensures DistinctHashes(entries)
  {
    forall i, k | 0 <= i < k < |entries| ensures entries[i].hash != entries[k].hash {
      assert list[i].id < list[k].id;
      assert Listed(traces, entries[i], list[i], token) && Listed(traces, entries[k], list[k], token);
    }
  }

  /** What is listed of the map's traces are their first spans of each token. */
  predicate AllKeepFirsts(traces: map<nat, Live>, entries: seq<Entry>, list: seq<Done>, token: Tokens) {
    && |entries| == |list|
    && forall i :: 0 <= i < |list| ==> entries[i].hash in traces && KeepsFirsts(traces[entries[i].hash], list[i], token)
  }

  lemma ListedKeepFirsts(traces: map<nat, Live>, entries: seq<Entry>, list: seq<Done>, token: Tokens)
    requires IsListing(traces, entries, list, token)
    ensures AllKeepFirsts(traces, entries, list, token)
  {
    forall i | 0 <= i < |list| ensures entries[i].hash in traces && KeepsFirsts(traces[entries[i].hash], list[i], token) {
      assert Listed(traces, entries[i], list[i], token);
      DoneKeepsFirsts(traces[entries[i].hash], token);
    }
  }

  /** The bounds and the counter after the first n traces. */
  predicate TakenIn(list: seq<Done>, n: nat, r: Range, dropped: nat)
    requires n <= |list|
  {
    r == SeeAll(Range(0, 0), AllKept(list, n)) && dropped + |AllKept(list, n)| == Total(list, n)
  }

  /** One trace, decoded and filtered; None if it does not decode. */
  method TakeTrace(t: Live, token: Tokens, ghost list: seq<Done>, ghost n: nat, r: Range, dropped: nat)
    returns (item: Option<Item>, r': Range, dropped': nat)
    requires n < |list| && list[n] == DoneOf(t, token) && TakenIn(list, n, r, dropped)
    ensures item == if list[n].ok then Some(Item(list[n].id, list[n].scopes)) else None
    ensures item.Some? ==> TakenIn(list, n + 1, r', dropped')
  {
    r', dropped' := r, dropped;
    var scopes := Decode(t);
    if scopes.None? {
      item := None;
      return;
    }
    var kept;
    kept, r', dropped' := DedupTrace(scopes.value, token, r, dropped);
    SeeAllConcat(Range(0, 0), AllKept(list, n), Flat(kept, |kept|));
    item := Some(Item(t.id, kept));
  }

  /** How many chunks of ten n traces make. */
  function Chunks(n: nat): nat {
    (n + 9) / 10
  }

  function ChunkSize(total: nat, i: nat): int {
    if 10 * i + 10 <= total then 10 else total - 10 * i
  }

  /** A chunk holds the items of traces `from` to n. */
  predicate Carries(list: seq<Done>, from: nat, n: nat, output: seq<Item>) {
    from <= n <= |list| && |output| == n - from && Items(list, n) == Items(list, from) + output
  }

  lemma CarriesOneMore(list: seq<Done>, from: nat, n: nat, output: seq<Item>)
    requires Carries(list, from, n, output) && n < |list|
    ensures Carries(list, from, n + 1, output + [Item(list[n].id, list[n].scopes)])
  {
    Regroup(Items(list, from), output, [Item(list[n].id, list[n].scopes)]);
  }

  function FlattenRight(chunks: seq<seq<Item>>): seq<Item> {
    if |chunks| == 0 then [] else chunks[0] + FlattenRight(chunks[1..])
  }

  /** Both ways of joining the chunks give the same list. */
  lemma {:induction false} FlattenBothWays(chunks: seq<seq<Item>>)
    ensures Flatten(chunks) == FlattenRight(chunks)
  {
    if |chunks| > 0 {
      FlattenConcat([chunks[0]], chunks[1..]);
      FlattenBothWays(chunks[1..]);
      assert [chunks[0]] + chunks[1..] == chunks;
      assert [chunks[0]][..0] == [];
    }
  }

  lemma {:induction false} FlattenConcat(a: seq<seq<Item>>, b: seq<seq<Item>>)
    ensures Flatten(a + b) == Flatten(a) + Flatten(b)
  {
    if |b| == 0 {
      assert a + b == a;
    } else {
      FlattenConcat(a, b[..|b| - 1]);
      assert (a + b)[..|a + b| - 1] == a + b[..|b| - 1];
    }
  }

  // ---------------------------------------------------------------- what is emitted

  /** The item carries the trace under its own ID, each scope reduced to the spans that come first in the trace. */
  ghost predicate CarriesFirsts(t: Live, x: Item, token: Tokens) {
    x.Item? && x.id == t.id && ScopesOf(t).Some? && FiltersFirsts(ScopesOf(t).value, x.scopes, token)
  }

  /** The i-th item carries the i-th listed trace, but for a failure at the end if that trace does not decode. */
  ghost predicate EmitsFirsts(traces: map<nat, Live>, entries: seq<Entry>, items: seq<Item>, token: Tokens) {
    forall i {:trigger items[i]} :: 0 <= i < |items| ==>
      (i < |entries| && entries[i].hash in traces && CarriesFirsts(traces[entries[i].hash], items[i], token))
      || (items[i].Failure? && i == |items| - 1 && exists e :: e in entries && e.hash in traces && ScopesOf(traces[e.hash]).None?)
  }

  lemma {:induction false} AllKeptExact(list: seq<Done>, n: nat)
    requires n <= |list|
    ensures forall x :: x in AllKept(list, n) <==> exists i :: 0 <= i < n && x in list[i].kept
  {
    if n > 0 { AllKeptExact(list, n - 1); }
  }

  /** The bounds hold every kept span's end, and its start if no kept span starts at 0. */
  predicate Encloses(r: Range, list: seq<Done>) {
    forall i, x :: 0 <= i < |list| && x in list[i].kept ==>
      x.end <= r.end && ((forall k, y :: 0 <= k < |list| && y in list[k].kept ==> y.start > 0) ==> r.start <= x.start)
  }

  lemma BoundsEnclose(list: seq<Done>, r: Range, dropped: nat)
    requires TakenIn(list, |list|, r, dropped)
    ensures Encloses(r, list)
  {
    AllKeptExact(list, |list|);
    if |AllKept(list, |list|)| > 0 { StartIsLeast(AllKept(list, |list|)); }
  }

  lemma {:induction false} ItemsAt(list: seq<Done>, n: nat)
    requires n <= |list|
    ensures |Items(list, n)| == n && forall i :: 0 <= i < n ==> Items(list, n)[i] == Item(list[i].id, list[i].scopes)
  {
    if n > 0 { ItemsAt(list, n - 1); }
  }

  /** What goes into the channel are the traces' own first spans. */
  lemma OutputIsFirsts(traces: map<nat, Live>, entries: seq<Entry>, list: seq<Done>, token: Tokens, sends: nat)
    requires IsListing(traces, entries, list, token)
    ensures EmitsFirsts(traces, entries, Output(list, sends), token)
  {
    var n := SentBy(list, sends);
    StopBounds(list, sends);
    ItemsAt(list, n);
    StopsExactly(list, sends);
    forall i: nat | i < n
      ensures entries[i].hash in traces && CarriesFirsts(traces[entries[i].hash], Output(list, sends)[i], token)
    {
      assert Listed(traces, entries[i], list[i], token);
      DedupedFiltersFirsts(ContentOf(traces[entries[i].hash]), token);
    }
    if StopOf(list, sends).Undecodable? {
      var f := StopOf(list, sends).f;
      assert Listed(traces, entries[f], list[f], token);
    }
  }

  /** The iterator's three ends, told by the first trace that does not decode and the number of sends. */
  lemma StopsExactly(list: seq<Done>, sends: nat)
    ensures StopOf(list, sends).AllSent? <==> AllDecode(list, |list|) && |list| <= 10 * sends
    ensures forall f: nat :: StopOf(list, sends) == Undecodable(f) <==>
              f < |list| && f < 10 * sends + 10 && !list[f].ok && AllDecode(list, f)
    ensures AllDecode(list, SentBy(list, sends))
    ensures SentBy(list, sends) <= 10 * sends && (SentBy(list, sends) == |list| || SentBy(list, sends) % 10 == 0)
  {
    var f := FirstBad(list, 0);
    FirstBadWithin(list, 0);
    FirstBadIsFirst(list, 0);
    if f == |list| { FirstBadExact(list, 0, |list|); }
    forall g: nat | g < |list| && !list[g].ok && AllDecode(list, g) ensures g == f {
      FirstBadExact(list, 0, g);
    }
  }

  lemma {:induction false} FirstBadIsFirst(list: seq<Done>, from: nat)
    requires from <= |list|
    ensures from <= FirstBad(list, from) <= |list|
    ensures forall i :: from <= i < FirstBad(list, from) ==> list[i].ok
    ensures FirstBad(list, from) < |list| ==> !list[FirstBad(list, from)].ok
    decreases |list| - from
  {
    if from < |list| && list[from].ok { FirstBadIsFirst(list, from + 1); }
  }

  // ------------------------------------------------------------ where the iterator stops

  /** The first trace that does not decode, or the end. */
  function FirstBad(list: seq<Done>, from: nat): nat
    requires from <= |list|
    decreases |list| - from
  {
    if from == |list| || !list[from].ok then from else FirstBad(list, from + 1)
  }

  lemma {:induction false} FirstBadExact(list: seq<Done>, from: nat, n: nat)
    requires from <= n <= |list| && forall i :: from <= i < n ==> list[i].ok
    ensures n <= FirstBad(list, from) <= |list|
    ensures n == |list| || !list[n].ok ==> FirstBad(list, from) == n
    decreases n - from
  {
    if from < n { FirstBadExact(list, from + 1, n); } else { FirstBadWithin(list, from); }
  }

  lemma {:induction false} FirstBadWithin(list: seq<Done>, from: nat)
    requires from <= |list|
    ensures from <= FirstBad(list, from) <= |list|
    decreases |list| - from
  {
    if from < |list| { FirstBadWithin(list, from + 1); }
  }

  /** All sent; an undecodable trace met; or the context cancelled after the given number of sends. */
  datatype Stop = AllSent | Undecodable(f: nat) | Cancelled

  function StopOf(list: seq<Done>, sends: nat): Stop {
    var f := FirstBad(list, 0);
    if f < |list| && f / 10 <= sends then Undecodable(f)
    else if Chunks(|list|) <= sends then AllSent
    else Cancelled
  }

  /** How many traces have left the map by then. */
  function TakenBy(list: seq<Done>, sends: nat): nat {
    match StopOf(list, sends)
    case AllSent => |list|
    case Undecodable(f) => f
    case Cancelled => if 10 * sends + 10 <= |list| then 10 * sends + 10 else |list|
  }

  /** How many have been sent. */
  function SentBy(list: seq<Done>, sends: nat): nat {
    match StopOf(list, sends)
    case AllSent => |list|
    case Undecodable(f) => 10 * (f / 10)
    case Cancelled => 10 * sends
  }

  lemma StopBounds(list: seq<Done>, sends: nat)
    ensures SentBy(list, sends) <= TakenBy(list, sends) <= |list|
    ensures SentBy(list, sends) == TakenBy(list, sends) <==>
            StopOf(list, sends).AllSent? || (StopOf(list, sends).Undecodable? && StopOf(list, sends).f % 10 == 0)
  {
    FirstBadWithin(list, 0);
  }

  /** What goes into the channel: the items of whole chunks, and a failure if a trace did not decode. */
  function Output(list: seq<Done>, sends: nat): seq<Item> {
    StopBounds(list, sends);
    Items(list, SentBy(list, sends)) + (if StopOf(list, sends).Undecodable? then [Failure] else [])
  }

  /** The chunk from n on has an undecodable trace. */
  lemma StopsAtBad(list: seq<Done>, n: nat, f: nat, sends: nat)
    requires n % 10 == 0 && n / 10 <= sends && n <= f < |list| && f < n + 10 && AllDecode(list, f) && !list[f].ok
    ensures StopOf(list, sends) == Undecodable(f) && TakenBy(list, sends) == f
    ensures Output(list, sends) == Items(list, n) + [Failure]
  {
    FirstBadExact(list, 0, f);
  }

  /** The chunk from n on is not sent. */
  lemma StopsAtCancel(list: seq<Done>, n: nat, to: nat, sends: nat)
    requires n == 10 * sends < |list| && to == (if n + 10 <= |list| then n + 10 else |list|) && AllDecode(list, to)
    ensures StopOf(list, sends) == Cancelled && TakenBy(list, sends) == to
    ensures Output(list, sends) == Items(list, n)
  {
    FirstBadExact(list, 0, to);
  }

  lemma StopsAtEnd(list: seq<Done>, sends: nat)
    requires AllDecode(list, |list|) && Chunks(|list|) <= sends
    ensures StopOf(list, sends) == AllSent && TakenBy(list, sends) == |list|
    ensures Output(list, sends) == Items(list, |list|)
  {
    FirstBadExact(list, 0, |list|);
  }

  /** Nothing has become of the trace yet, or its item was sent. */
  predicate KeptOrSent(traces: map<nat, Live>, e: Entry, d: Done, sent: seq<Item>) {
    e.hash in traces || Item(d.id, d.scopes) in sent
  }

  /** Every trace is still in the map or was sent. */
  ghost predicate NothingLost(traces: map<nat, Live>, entries: seq<Entry>, list: seq<Done>, sent: seq<Item>)
    requires |entries| == |list|
  {
    forall i {:trigger KeptOrSent(traces, entries[i], list[i], sent)} :: 0 <= i < |list| ==> KeptOrSent(traces, entries[i], list[i], sent)
  }

  lemma {:induction false} ItemsExact(list: seq<Done>, n: nat, x: Item)
    requires n <= |list|
    ensures x in Items(list, n) <==> exists i :: 0 <= i < n && x == Item(list[i].id, list[i].scopes)
  {
    if n > 0 { ItemsExact(list, n - 1, x); }
  }

  /** A trace is neither left in the map nor sent exactly if it was taken and not sent. */
  lemma KeptOrSentExactly(traces: map<nat, Live>, entries: seq<Entry>, list: seq<Done>, token: Tokens, sends: nat, i: nat)
    requires Left(traces, entries, list, TakenBy(list, sends), token) && DistinctHashes(entries) && Ascending(list) && i < |list|
    ensures KeptOrSent(traces, entries[i], list[i], Output(list, sends)) <==> i >= TakenBy(list, sends) || i < SentBy(list, sends)
  {
    StopBounds(list, sends);
    HashesFromExact(entries, TakenBy(list, sends));
    var x := Item(list[i].id, list[i].scopes);
    ItemsExact(list, SentBy(list, sends), x);
    assert x in Output(list, sends) <==> x in Items(list, SentBy(list, sends));
  }

  /** Nothing is lost exactly if the iterator sent all, or met the undecodable trace at the start of a chunk. */
  lemma {:induction false} LossExactly(traces: map<nat, Live>, entries: seq<Entry>, list: seq<Done>, token: Tokens, sends: nat)
    requires Left(traces, entries, list, TakenBy(list, sends), token) && DistinctHashes(entries) && Ascending(list)
    ensures NothingLost(traces, entries, list, Output(list, sends)) <==>
            StopOf(list, sends).AllSent? || (StopOf(list, sends).Undecodable? && StopOf(list, sends).f % 10 == 0)
  {
    StopBounds(list, sends);
    forall i: nat | i < |list|
      ensures KeptOrSent(traces, entries[i], list[i], Output(list, sends)) <==> i >= TakenBy(list, sends) || i < SentBy(list, sends)
    {
      KeptOrSentExactly(traces, entries, list, token, sends, i);
    }
    if SentBy(list, sends) < TakenBy(list, sends) {
      var i := SentBy(list, sends);
      assert !KeptOrSent(traces, entries[i], list[i], Output(list, sends));
    }
  }

  /** Two traces of which the second does not decode: the first has left the map by then and is never sent. */
  lemma FinishedTraceIsLost(token: Tokens, sends: nat)
    ensures var list := [DoneOf(Live(1, []), token), DoneOf(Live(2, [Bad]), token)];
            var entries := [Entry(1, 1), Entry(2, 2)];
            var left := map[2 := Live(2, [Bad])];
            && IsListing(map[1 := Live(1, []), 2 := Live(2, [Bad])], entries, list, token)
            && StopOf(list, sends) == Undecodable(1)
            && Left(left, entries, list, TakenBy(list, sends), token)
            && !KeptOrSent(left, entries[0], list[0], Output(list, sends))
  {
    var list := [DoneOf(Live(1, []), token), DoneOf(Live(2, [Bad]), token)];
    var entries := [Entry(1, 1), Entry(2, 2)];
    var before := map[1 := Live(1, []), 2 := Live(2, [Bad])];
    var left := map[2 := Live(2, [Bad])];
    assert list[0].ok && !list[1].ok;
    FirstBadExact(list, 0, 1);
    HashesFromExact(entries, 0);
    HashesFromExact(entries, 1);
    assert Listed(before, entries[0], list[0], token) && Listed(before, entries[1], list[1], token);
    assert Listed(left, entries[1], list[1], token);
    KeptOrSentExactly(left, entries, list, token, sends, 0);
  }

  class LiveTracesIter {
    var traces: map<nat, Live>
    var r: Range
    var dropped: nat
    var exhausted: bool
    var ch: seq<seq<Item>>
    var chBuf: seq<Item>

    constructor (traces: map<nat, Live>)
      ensures this.traces == traces && r == Range(0, 0) && dropped == 0 && !exhausted && ch == [] && chBuf == []
    {
      this.traces, r, dropped, exhausted, ch, chBuf := traces, Range(0, 0), 0, false, [], [];
    }

    /** The first n traces have been taken out of the map and into the bounds. */
    ghost predicate At(entries: seq<Entry>, list: seq<Done>, n: nat, token: Tokens)
      reads this
    {
      n <= |list| && Left(traces, entries, list, n, token) && TakenIn(list, n, r, dropped) && AllDecode(list, n)
    }

    method Take(entries: seq<Entry>, ghost list: seq<Done>, n: nat, token: Tokens) returns (item: Option<Item>)
      requires At(entries, list, n, token) && n < |list| && DistinctHashes(entries)
      modifies `r, `dropped, `traces
      ensures item == if list[n].ok then Some(Item(list[n].id, list[n].scopes)) else None
      ensures item.Some? ==> At(entries, list, n + 1, token)
      ensures item.None? ==> At(entries, list, n, token)
    {
      var e := entries[n];
      assert Listed(traces, e, list[n], token);
      var r', dropped';
      item, r', dropped' := TakeTrace(traces[e.hash], token, list, n, r, dropped);
      if item.Some? {
        OneTaken(traces, entries, list, n, token);
        traces, r, dropped := traces - {e.hash}, r', dropped';
      }
    }

    /** One turn of the inner loop. */
    method TakeInto(entries: seq<Entry>, ghost list: seq<Done>, ghost from: nat, n: nat, token: Tokens, output: seq<Item>)
      returns (output': seq<Item>, ok: bool)
      requires At(entries, list, n, token) && n < |list| && DistinctHashes(entries) && Carries(list, from, n, output)
      modifies `r, `dropped, `traces
      ensures ok <==> list[n].ok
      ensures !ok ==> At(entries, list, n, token)
      ensures ok ==> At(entries, list, n + 1, token) && Carries(list, from, n + 1, output')
    {
      output' := output;
      var item := Take(entries, list, n, token);
      ok := item.Some?;
      if ok {
        CarriesOneMore(list, from, n, output);
        output' := output + [item.value];
      }
    }

    /** One chunk of traces, up to one that does not decode if there is one. */
    method TakeChunk(entries: seq<Entry>, ghost list: seq<Done>, from: nat, to: nat, token: Tokens) returns (output: seq<Item>, ok: bool, ghost n: nat)
      requires At(entries, list, from, token) && from <= to <= |list| && DistinctHashes(entries)
      modifies `r, `dropped, `traces
      ensures from <= n <= to && At(entries, list, n, token)
      ensures if ok then n == to && Carries(list, from, to, output) else n < to && !list[n].ok
    {
      output, ok := [], true;
      var i := from;
      n := i;
      while i < to
        invariant from <= i <= to && n == i && ok && At(entries, list, i, token) && Carries(list, from, i, output)
      {
        output, ok := TakeInto(entries, list, from, i, token, output);
        if !ok { return; }
        i := i + 1;
        n := i;
      }
    }

    /** The chunks sent so far carry the first n traces. */
    ghost predicate Sent(list: seq<Done>, n: nat)
      reads this
    {
      && n <= |list|
      && Flatten(ch) == Items(list, n)
      && forall i :: 0 <= i < |ch| ==> |ch[i]| == ChunkSize(|list|, i) > 0
    }

    /** Between chunks: the first n traces are taken, and sent in full chunks, the last perhaps short. */
    ghost predicate Between(entries: seq<Entry>, list: seq<Done>, n: nat, token: Tokens, sends: nat)
      reads this
    {
      At(entries, list, n, token) && Sent(list, n) && |ch| <= sends && |ch| == Chunks(n) && (n == 10 * |ch| || n == |list|)
    }

    /** What was taken and what was sent are as the list and the number of sends determine. */
    ghost predicate StoppedAt(entries: seq<Entry>, list: seq<Done>, token: Tokens, sends: nat)
      reads this
    {
      && At(entries, list, TakenBy(list, sends), token)
      && Flatten(ch) == Output(list, sends)
      && forall i :: 0 <= i < |ch| ==> |ch[i]| > 0
    }

    method Send(ghost list: seq<Done>, ghost n: nat, ghost to: nat, output: seq<Item>)
      requires n <= to <= |list| && Sent(list, n) && n == 10 * |ch| && |output| == ChunkSize(|list|, |ch|) > 0
      requires Carries(list, n, to, output)
      modifies `ch
      ensures Sent(list, to) && |ch| == old(|ch|) + 1
    {
      FlattenAppend(ch, output);
      ch := ch + [output];
    }

    /** The chunk from n on meets an undecodable trace. */
    method SendFailure(ghost entries: seq<Entry>, ghost list: seq<Done>, ghost n: nat, ghost f: nat, token: Tokens, ghost sends: nat)
      requires At(entries, list, f, token) && Sent(list, n) && n % 10 == 0 && n / 10 <= sends
      requires n <= f < |list| && f < n + 10 && !list[f].ok
      modifies `ch
      ensures StoppedAt(entries, list, token, sends) && StopOf(list, sends).Undecodable?
    {
      StopsAtBad(list, n, f, sends);
      FlattenAppend(ch, [Failure]);
      ch := ch + [[Failure]];
    }

    /** The chunk from n on was taken but cannot be sent. */
    lemma NotSent(entries: seq<Entry>, list: seq<Done>, n: nat, to: nat, token: Tokens, sends: nat)
      requires At(entries, list, to, token) && Sent(list, n)
      requires n == 10 * sends < |list| && to == (if n + 10 <= |list| then n + 10 else |list|)
      ensures StoppedAt(entries, list, token, sends) && StopOf(list, sends).Cancelled?
    {
      StopsAtCancel(list, n, to, sends);
    }

    /** One turn of the outer loop: the next chunk, or the end because a trace did not decode or the context is done. */
    method SendChunk(entries: seq<Entry>, ghost list: seq<Done>, n: nat, token: Tokens, sends: nat) returns (to: nat, go: bool)
      requires Between(entries, list, n, token, sends) && n < |entries| && DistinctHashes(entries)
      modifies `r, `dropped, `traces, `ch
      ensures go ==> n < to <= |list| && Between(entries, list, to, token, sends)
      ensures !go ==> !StopOf(list, sends).AllSent? && StoppedAt(entries, list, token, sends)
    {
      to := if n + 10 <= |entries| then n + 10 else |entries|;
      var output, ok;
      ghost var f;
      output, ok, f := TakeChunk(entries, list, n, to, token);
      if !ok {
        SendFailure(entries, list, n, f, token, sends);
        return to, false;
      }
      if |ch| == sends {
        NotSent(entries, list, n, to, token, sends);
        return to, false;
      }
      Send(list, n, to, output);
      go := true;
    }

    /** The outer loop. */
    method SendAll(entries: seq<Entry>, ghost list: seq<Done>, token: Tokens, sends: nat)
      requires Between(entries, list, 0, token, sends) && DistinctHashes(entries) && !exhausted
      modifies `r, `dropped, `traces, `ch, `exhausted
      ensures exhausted <==> StopOf(list, sends).AllSent?
      ensures StoppedAt(entries, list, token, sends)
      ensures exhausted ==> traces == map[] && TakenIn(list, |list|, r, dropped) && Flatten(ch) == Items(list, |list|)
      ensures exhausted ==> |ch| == Chunks(|list|) && forall i :: 0 <= i < |ch| ==> |ch[i]| == ChunkSize(|list|, i)
    {
      var n := 0;
      while n < |entries|
        invariant Between(entries, list, n, token, sends) && !exhausted
        decreases |entries| - n
      {
        var go;
        n, go := SendChunk(entries, list, n, token, sends);
        if !go { return; }
      }
      StopsAtEnd(list, sends);
      exhausted := true;
    }

    /**
     iter: sends the traces in chunks of ten. `sends` is how many sends succeed before the context is
     cancelled. Exhausted means all traces were sent, each once, in ascending ID order, and that the bounds
     and the count of dropped spans are final. Otherwise the traces of the chunk at hand that had been taken
     are gone, so that every trace is still in the map or was sent only if none had been.
     */
    method Iter(entries: seq<Entry>, ghost list: seq<Done>, token: Tokens, sends: nat)
      requires IsListing(traces, entries, list, token) && r == Range(0, 0) && dropped == 0 && ch == [] && chBuf == [] && !exhausted
      modifies this
      ensures exhausted <==> StopOf(list, sends).AllSent?
      ensures StoppedAt(entries, list, token, sends) && Pending() == Output(list, sends)
      ensures exhausted ==> traces == map[] && TakenIn(list, |list|, r, dropped) && Pending() == Items(list, |list|)
      ensures exhausted ==> |ch| == Chunks(|list|) && forall i :: 0 <= i < |ch| ==> |ch[i]| == ChunkSize(|list|, i)
      ensures AllKeepFirsts(old(traces), entries, list, token)
      ensures EmitsFirsts(old(traces), entries, Pending(), token) && (exhausted ==> |Pending()| == |entries|)
      ensures exhausted <==> |entries| <= 10 * sends && AllDecode(list, |list|)
      ensures exhausted ==> Encloses(r, list)
      ensures NothingLost(traces, entries, list, Pending()) <==>
              exhausted || (StopOf(list, sends).Undecodable? && StopOf(list, sends).f % 10 == 0)
    {
      ListedOnce(traces, entries, list, token);
      ListedKeepFirsts(traces, entries, list, token);
      OutputIsFirsts(traces, entries, list, token, sends);
      SendAll(entries, list, token, sends);
      FlattenBothWays(ch);
      LossExactly(traces, entries, list, token, sends);
      ItemsAt(list, |list|);
      StopsExactly(list, sends);
      if exhausted { BoundsEnclose(list, r, dropped); }
    }

    /** DedupedSpans: refused until the iterator is exhausted. */
    method DedupedSpans() returns (n: Option<nat>)
      ensures n == if exhausted then Some(dropped) else None
    {
      if !exhausted { return None; }
      return Some(dropped);
    }

    /** What the consumer has still to receive. */
    function Pending(): seq<Item>
      reads this
    {
      chBuf + FlattenRight(ch)
    }

    /** Next, once the producer is done: the items come one at a time, in the order sent. */
    method Next() returns (item: Option<Item>)
      requires forall i :: 0 <= i < |ch| ==> |ch[i]| > 0
      modifies `ch, `chBuf
      ensures forall i :: 0 <= i < |ch| ==> |ch[i]| > 0
      ensures old(Pending()) == [] ==> item == None && Pending() == []
      ensures old(Pending()) != [] ==> item == Some(old(Pending())[0]) && Pending() == old(Pending())[1..]
    {
      if |chBuf| == 0 {
        if |ch| == 0 { return None; }
        chBuf := ch[0];
        ch := ch[1..];
      }
      item := Some(chBuf[0]);
      chBuf := chBuf[1..];
    }
  }

  lemma Regroup<T>(a: seq<T>, b: seq<T>, c: seq<T>)
    ensures (a + b) + c == a + (b + c)
  {
  }
}
