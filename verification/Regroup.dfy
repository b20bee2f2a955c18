/**
 Regrouping a request's spans by trace. The maps of shared pointers are maps of indices: a group of spans
 is reached both from the current batch's scopes and from the trace that lists it, and is updated once
 for both. The hash functions are parameters, so nothing is assumed of them unless a lemma says so.
 */
module Regroup {

  type TraceId = seq<nat>

  datatype Span = Span(trace: TraceId, id: seq<nat>, start: nat, end: nat, body: nat)

  /** `rest` stands for what the scope key leaves out: a scope's attributes. */
  datatype Scope = NoScope | Scope(name: string, version: string, rest: nat)

  datatype ScopeSpans = ScopeSpans(scope: Scope, spans: seq<Span>)

  datatype Batch = Batch(resource: nat, scopes: seq<ScopeSpans>)

  datatype Hashes = Hashes(trace: TraceId -> nat, add: (nat, string) -> nat, token: (string, TraceId) -> nat)

  const MaxUint32: nat := 0xFFFF_FFFF

  /** startEndFromSpan: nanoseconds to seconds, as a uint32. */
  function Sec(nanos: nat): nat {
    (nanos / 1_000_000_000) % 0x1_0000_0000
  }

  /** The result is the whole second the instant lies in exactly until seconds outgrow 32 bits. */
  lemma SecIsTheSecond(nanos: nat)
    ensures Sec(nanos) * 1_000_000_000 <= nanos < (Sec(nanos) + 1) * 1_000_000_000 <==> nanos < 0x1_0000_0000 * 1_000_000_000
  {
    var s := nanos / 1_000_000_000;
    assert s * 1_000_000_000 <= nanos < (s + 1) * 1_000_000_000;
  }

  /** A resource's spans of one scope; `home` is the index of the trace it was created for, and is read by no step. */
  datatype Group = Group(resource: nat, scope: Scope, spans: seq<Span>, home: nat)

  datatype Rebatched = Rebatched(id: TraceId, groups: seq<nat>, start: nat, end: nat, count: nat)

  datatype State = State(groups: seq<Group>, traces: seq<Rebatched>, byTrace: map<nat, nat>, byScope: map<nat, nat>)

  const Empty := State([], [], map[], map[])

  /** The key under which a batch's spans of one trace and scope are gathered. */
  function ScopeKey(h: Hashes, id: TraceId, scope: Scope): nat {
    if scope.NoScope? then h.trace(id) else h.add(h.add(h.trace(id), scope.name), scope.version)
  }

  ghost predicate Shape(s: State) {
    && (forall k :: k in s.byScope ==> s.byScope[k] < |s.groups|)
    && (forall k :: k in s.byTrace ==> s.byTrace[k] < |s.traces|)
    && (forall g :: 0 <= g < |s.groups| ==> s.groups[g].home < |s.traces|)
  }

  // ------------------------------------------------------------------ one span

  function TraceOf(h: Hashes, s: State, x: Span): nat {
    if h.trace(x.trace) in s.byTrace then s.byTrace[h.trace(x.trace)] else |s.traces|
  }

  function GroupsWith(h: Hashes, s: State, resource: nat, scope: Scope, x: Span): seq<Group>
    requires ScopeKey(h, x.trace, scope) in s.byScope ==> s.byScope[ScopeKey(h, x.trace, scope)] < |s.groups|
  {
    var key := ScopeKey(h, x.trace, scope);
    if key in s.byScope then
      var g := s.byScope[key];
      s.groups[g := s.groups[g].(spans := s.groups[g].spans + [x])]
    else
      s.groups + [Group(resource, scope, [x], TraceOf(h, s, x))]
  }

  /** The span's trace afterwards: times widened, one more span, and the group if it is new. */
  function Updated(tr: Rebatched, x: Span, added: bool, g: nat): Rebatched {
    Rebatched(tr.id,
              if added then tr.groups + [g] else tr.groups,
              if tr.start > Sec(x.start) then Sec(x.start) else tr.start,
              if tr.end < Sec(x.end) then Sec(x.end) else tr.end,
              tr.count + 1)
  }

  function TracesWith(h: Hashes, s: State, scope: Scope, x: Span): seq<Rebatched>
    requires h.trace(x.trace) in s.byTrace ==> s.byTrace[h.trace(x.trace)] < |s.traces|
  {
    var added := ScopeKey(h, x.trace, scope) !in s.byScope;
    if h.trace(x.trace) in s.byTrace then
      var t := s.byTrace[h.trace(x.trace)];
      s.traces[t := Updated(s.traces[t], x, added, |s.groups|)]
    else
      s.traces + [Updated(Rebatched(x.trace, [], MaxUint32, 0, 0), x, added, |s.groups|)]
  }

  ghost function AddSpan(h: Hashes, s: State, resource: nat, scope: Scope, x: Span): (s': State)
    requires Shape(s)
    ensures Shape(s')
  {
    var traceKey, scopeKey := h.trace(x.trace), ScopeKey(h, x.trace, scope);
    State(GroupsWith(h, s, resource, scope, x),
          TracesWith(h, s, scope, x),
          if traceKey in s.byTrace then s.byTrace else s.byTrace[traceKey := |s.traces|],
          if scopeKey in s.byScope then s.byScope else s.byScope[scopeKey := |s.groups|])
  }

  method Place(h: Hashes, s: State, resource: nat, scope: Scope, x: Span) returns (s': State)
    requires Shape(s)
    ensures s' == AddSpan(h, s, resource, scope, x)
  {
    var traceKey := h.trace(x.trace);
    var scopeKey := traceKey;
    if scope.Scope? {
      scopeKey := h.add(scopeKey, scope.name);
      scopeKey := h.add(scopeKey, scope.version);
    }
    s' := s;
    var known := scopeKey in s'.byScope;
    var g := |s'.groups|;
    if known {
      g := s'.byScope[scopeKey];
      s' := s'.(groups := s'.groups[g := s'.groups[g].(spans := s'.groups[g].spans + [x])]);
    } else {
      s' := s'.(groups := s'.groups + [Group(resource, scope, [x], TraceOf(h, s, x))], byScope := s'.byScope[scopeKey := g]);
    }
    var t := |s'.traces|;
    if traceKey in s'.byTrace {
      t := s'.byTrace[traceKey];
    } else {
      s' := s'.(traces := s'.traces + [Rebatched(x.trace, [], MaxUint32, 0, 0)], byTrace := s'.byTrace[traceKey := t]);
    }
    var tr := s'.traces[t];
    var start, end := Sec(x.start), Sec(x.end);
    if tr.end < end { tr := tr.(end := end); }
    if tr.start > start { tr := tr.(start := start); }
    if !known { tr := tr.(groups := tr.groups + [g]); }
    tr := tr.(count := tr.count + 1);
    s' := s'.(traces := s'.traces[t := tr]);
  }

  // --------------------------------------------------------------- the nested loops

  ghost function Spans(h: Hashes, s: State, resource: nat, scope: Scope, xs: seq<Span>, n: nat): (s': State)
    requires n <= |xs| && Shape(s)
    ensures Shape(s')
  {
    if n == 0 then s else AddSpan(h, Spans(h, s, resource, scope, xs, n - 1), resource, scope, xs[n - 1])
  }

  lemma SpansNext(h: Hashes, s: State, resource: nat, scope: Scope, xs: seq<Span>, n: nat)
    requires Shape(s) && 0 < n <= |xs|
    ensures Spans(h, s, resource, scope, xs, n) == AddSpan(h, Spans(h, s, resource, scope, xs, n - 1), resource, scope, xs[n - 1])
  {
  }

  ghost function Scopes(h: Hashes, s: State, resource: nat, scopes: seq<ScopeSpans>, n: nat): (s': State)
    requires n <= |scopes| && Shape(s)
    ensures Shape(s')
  {
    if n == 0 then s
    else Spans(h, Scopes(h, s, resource, scopes, n - 1), resource, scopes[n - 1].scope, scopes[n - 1].spans, |scopes[n - 1].spans|)
  }

  /** Each batch starts with no scopes known. */
  ghost function Batches(h: Hashes, bs: seq<Batch>, n: nat): (s: State)
    requires n <= |bs|
    ensures Shape(s)
  {
    if n == 0 then Empty
    else Scopes(h, Batches(h, bs, n - 1).(byScope := map[]), bs[n - 1].resource, bs[n - 1].scopes, |bs[n - 1].scopes|)
  }

  /** All spans of the first n scopes, and of the first n batches. */
  function ScopeInput(scopes: seq<ScopeSpans>, n: nat): seq<Span>
    requires n <= |scopes|
  {
    if n == 0 then [] else ScopeInput(scopes, n - 1) + scopes[n - 1].spans
  }

  function Input(bs: seq<Batch>, n: nat): seq<Span>
    requires n <= |bs|
  {
    if n == 0 then [] else Input(bs, n - 1) + ScopeInput(bs[n - 1].scopes, |bs[n - 1].scopes|)
  }

  datatype Error = BadTraceId(bits: nat) | BadSpanId(bits: nat)

  datatype Checked = Fine | Bad(error: Error)

  function Check(x: Span): Checked {
    if |x.trace| != 16 then Bad(BadTraceId(|x.trace| * 8))
    else if |x.id| != 8 || x.id == [0, 0, 0, 0, 0, 0, 0, 0] then Bad(BadSpanId(|x.id| * 8))
    else Fine
  }

  /** The first invalid span decides. */
  function CheckAll(xs: seq<Span>): Checked {
    if |xs| == 0 then Fine
    else if CheckAll(xs[..|xs| - 1]).Bad? then CheckAll(xs[..|xs| - 1])
    else Check(xs[|xs| - 1])
  }

  /** A trace ID of 128 bits and a span ID of 64 that are not all zero. */
  predicate ValidSpan(x: Span) {
    |x.trace| == 16 && |x.id| == 8 && exists i :: 0 <= i < |x.id| && x.id[i] != 0
  }

  /** What is wrong with a span; the trace ID is looked at first. */
  predicate Explains(e: Error, x: Span) {
    if |x.trace| != 16 then e == BadTraceId(8 * |x.trace|) else !ValidSpan(x) && e == BadSpanId(8 * |x.id|)
  }

  lemma CheckExact(x: Span)
    ensures Check(x).Fine? <==> ValidSpan(x)
    ensures Check(x).Bad? ==> Explains(Check(x).error, x)
  {
    if |x.trace| == 16 && |x.id| == 8 && !ValidSpan(x) {
      var zero := [0, 0, 0, 0, 0, 0, 0, 0];
      assert forall i :: 0 <= i < 8 ==> x.id[i] == zero[i];
      assert x.id == zero;
    }
  }

  /** The first invalid span of a list, told by what is wrong with it. */
  predicate FirstInvalid(xs: seq<Span>, i: nat, e: Error) {
    i < |xs| && Explains(e, xs[i]) && forall k :: 0 <= k < i ==> ValidSpan(xs[k])
  }

  lemma {:induction false} CheckAllExact(xs: seq<Span>)
    ensures CheckAll(xs).Fine? <==> forall x :: x in xs ==> ValidSpan(x)
    ensures CheckAll(xs).Bad? ==> exists i: nat :: FirstInvalid(xs, i, CheckAll(xs).error)
  {
    if |xs| > 0 {
      var before, last := xs[..|xs| - 1], xs[|xs| - 1];
      assert xs == before + [last];
      CheckAllExact(before);
      CheckExact(last);
      if CheckAll(before).Bad? {
        var i: nat :| FirstInvalid(before, i, CheckAll(before).error);
        assert FirstInvalid(xs, i, CheckAll(xs).error);
      } else if CheckAll(xs).Bad? {
        forall k | 0 <= k < |before| ensures ValidSpan(xs[k]) { assert before[k] in before; }
        assert FirstInvalid(xs, |before|, CheckAll(xs).error);
      }
    }
  }

  /** The input of a request is all its spans: those of its scopes in a row, for its batches in a row. */
  lemma {:induction false} InputIsEverything(a: seq<Batch>, b: seq<Batch>, resource: nat, more: seq<ScopeSpans>, last: ScopeSpans)
    ensures Input(a + b, |a + b|) == Input(a, |a|) + Input(b, |b|)
    ensures ScopeInput(more + [last], |more| + 1) == ScopeInput(more, |more|) + last.spans
    ensures Input([Batch(resource, more)], 1) == ScopeInput(more, |more|) && Input([], 0) == [] && ScopeInput([], 0) == []
  {
    ScopeInputPrefix(more, [last], |more|);
    if |b| == 0 {
      assert a + b == a;
    } else {
      var init := b[..|b| - 1];
      InputIsEverything(a, init, resource, more, last);
      InputPrefix(init, [b[|b| - 1]], |init|);
      InputPrefix(a + init, [b[|b| - 1]], |a + init|);
      assert init + [b[|b| - 1]] == b && (a + init) + [b[|b| - 1]] == a + b;
    }
    assert Input([Batch(resource, more)], 0) == [];
  }

  lemma {:induction false} InputPrefix(a: seq<Batch>, b: seq<Batch>, n: nat)
    requires n <= |a|
    ensures Input(a + b, n) == Input(a, n)
  {
    if n > 0 { InputPrefix(a, b, n - 1); }
  }

  lemma {:induction false} ScopeInputPrefix(a: seq<ScopeSpans>, b: seq<ScopeSpans>, n: nat)
    requires n <= |a|
    ensures ScopeInput(a + b, n) == ScopeInput(a, n)
  {
    if n > 0 { ScopeInputPrefix(a, b, n - 1); }
  }

  lemma {:induction false} CheckConcat(a: seq<Span>, b: seq<Span>)
    ensures CheckAll(a + b) == if CheckAll(a).Bad? then CheckAll(a) else CheckAll(b)
  {
    if |b| == 0 {
      assert a + b == a;
    } else {
      CheckConcat(a, b[..|b| - 1]);
      assert (a + b)[..|a + b| - 1] == a + b[..|b| - 1];
    }
  }

  method PlaceScope(h: Hashes, s: State, resource: nat, scope: Scope, xs: seq<Span>) returns (s': State, c: Checked)
    requires Shape(s)
    ensures c == CheckAll(xs)
    ensures c.Fine? ==> s' == Spans(h, s, resource, scope, xs, |xs|)
  {
    s', c := s, Fine;
    var n := 0;
    while n < |xs|
      invariant 0 <= n <= |xs| && c.Fine? && CheckAll(xs[..n]).Fine?
      invariant s' == Spans(h, s, resource, scope, xs, n)
    {
      var x := xs[n];
      assert xs[..n + 1][..n] == xs[..n];
      c := Check(x);
      n := n + 1;
      if c.Bad? {
        assert xs == xs[..n] + xs[n..];
        CheckConcat(xs[..n], xs[n..]);
        return;
      }
      s' := Place(h, s', resource, scope, x);
      SpansNext(h, s, resource, scope, xs, n);
    }
    assert xs[..n] == xs;
  }

  /** The first n scopes of a batch have been placed, or one of their spans was bad. */
  ghost predicate ScopesDone(h: Hashes, base: State, b: Batch, n: nat, s: State, c: Checked)
    requires Shape(base)
  {
    n <= |b.scopes| && c == CheckAll(ScopeInput(b.scopes, n)) && (c.Fine? ==> s == Scopes(h, base, b.resource, b.scopes, n))
  }

  method PlaceNth(h: Hashes, ghost base: State, b: Batch, n: nat, s: State) returns (s': State, c: Checked)
    requires Shape(base) && n < |b.scopes| && ScopesDone(h, base, b, n, s, Fine)
    ensures ScopesDone(h, base, b, n + 1, s', c)
  {
    s', c := PlaceScope(h, s, b.resource, b.scopes[n].scope, b.scopes[n].spans);
    CheckConcat(ScopeInput(b.scopes, n), b.scopes[n].spans);
  }

  lemma ScopesStart(h: Hashes, base: State, b: Batch)
    requires Shape(base)
    ensures ScopesDone(h, base, b, 0, base, Fine)
  {
  }

  method PlaceBatch(h: Hashes, s: State, b: Batch) returns (s': State, c: Checked)
    requires Shape(s)
    ensures ScopesDone(h, s.(byScope := map[]), b, |b.scopes|, s', c)
  {
    ghost var base := s.(byScope := map[]);
    s', c := s.(byScope := map[]), Fine;
    ScopesStart(h, base, b);
    var n := 0;
    while n < |b.scopes|
      invariant ScopesDone(h, base, b, n, s', c) && c.Fine?
    {
      s', c := PlaceNth(h, base, b, n, s');
      n := n + 1;
      if c.Bad? {
        ScopeInputBad(b.scopes, n);
        return;
      }
    }
  }

  lemma {:induction false} ScopeInputBad(scopes: seq<ScopeSpans>, n: nat)
    requires n <= |scopes| && CheckAll(ScopeInput(scopes, n)).Bad?
    ensures CheckAll(ScopeInput(scopes, |scopes|)) == CheckAll(ScopeInput(scopes, n))
    decreases |scopes| - n
  {
    if n < |scopes| {
      CheckConcat(ScopeInput(scopes, n), scopes[n].spans);
      ScopeInputBad(scopes, n + 1);
    }
  }

  lemma {:induction false} InputBad(bs: seq<Batch>, n: nat)
    requires n <= |bs| && CheckAll(Input(bs, n)).Bad?
    ensures CheckAll(Input(bs, |bs|)) == CheckAll(Input(bs, n))
    decreases |bs| - n
  {
    if n < |bs| {
      CheckConcat(Input(bs, n), ScopeInput(bs[n].scopes, |bs[n].scopes|));
      InputBad(bs, n + 1);
    }
  }

  datatype Result = Failed(error: Error) | Regrouped(tokens: seq<nat>, traces: seq<Rebatched>, groups: seq<Group>)

  function Upto(n: nat): (r: set<nat>)
    ensures forall t :: t in r <==> 0 <= t < n
  {
    if n == 0 then {} else Upto(n - 1) + {n - 1}
  }

  /** Of the traces, those at the given indices are still to be collected, and they are those of the given keys. */
  ghost predicate Remaining(h: Hashes, s: State, left: set<nat>, rest: set<nat>, traces: seq<Rebatched>) {
    && left <= s.byTrace.Keys
    && (forall t :: t in rest <==> 0 <= t < |s.traces| && h.trace(s.traces[t].id) in left)
    && multiset(traces) + Those(s.traces, |s.traces|, rest) == multiset(s.traces)
  }

  lemma CollectOne(h: Hashes, s: State, left: set<nat>, rest: set<nat>, traces: seq<Rebatched>, key: nat)
    requires Indexed(h, s) && Remaining(h, s, left, rest, traces) && key in left
    ensures var t := s.byTrace[key]; t < |s.traces| && Remaining(h, s, left - {key}, rest - {t}, traces + [s.traces[t]])
  {
    ThoseWithout(s.traces, |s.traces|, rest, s.byTrace[key]);
  }

  lemma CollectStart(h: Hashes, s: State)
    requires Indexed(h, s)
    ensures Remaining(h, s, s.byTrace.Keys, Upto(|s.traces|), [])
  {
    ThoseAll(s.traces, |s.traces|, Upto(|s.traces|));
    assert s.traces[..|s.traces|] == s.traces;
  }

  predicate Aligned(h: Hashes, user: string, tokens: seq<nat>, traces: seq<Rebatched>) {
    |tokens| == |traces| && forall i :: 0 <= i < |traces| ==> tokens[i] == h.token(user, traces[i].id)
  }

  /** The traces of the map, in some order, with their tokens. */
  method Collect(h: Hashes, user: string, s: State) returns (tokens: seq<nat>, traces: seq<Rebatched>)
    requires Indexed(h, s)
    ensures Aligned(h, user, tokens, traces) && multiset(traces) == multiset(s.traces)
  {
    tokens, traces := [], [];
    var left := s.byTrace.Keys;
    ghost var rest := Upto(|s.traces|);
    CollectStart(h, s);
    while left != {}
      invariant Aligned(h, user, tokens, traces) && Remaining(h, s, left, rest, traces)
      decreases |left|
    {
      var key :| key in left;
      CollectOne(h, s, left, rest, traces, key);
      left := left - {key};
      var t := s.byTrace[key];
      rest := rest - {t};
      tokens := tokens + [h.token(user, s.traces[t].id)];
      traces := traces + [s.traces[t]];
    }
    ThoseNone(s.traces, |s.traces|, rest);
  }

  /** The first n batches have been placed, or one of their spans was bad. */
  ghost predicate BatchesDone(h: Hashes, bs: seq<Batch>, n: nat, s: State, c: Checked) {
    n <= |bs| && c == CheckAll(Input(bs, n)) && (c.Fine? ==> s == Batches(h, bs, n))
  }

  method PlaceNthBatch(h: Hashes, bs: seq<Batch>, n: nat, s: State) returns (s': State, c: Checked)
    requires n < |bs| && BatchesDone(h, bs, n, s, Fine)
    ensures BatchesDone(h, bs, n + 1, s', c)
  {
    s', c := PlaceBatch(h, s, bs[n]);
    CheckConcat(Input(bs, n), ScopeInput(bs[n].scopes, |bs[n].scopes|));
  }

  /** The loop over the batches. */
  method PlaceAll(h: Hashes, bs: seq<Batch>) returns (s: State, c: Checked)
    ensures BatchesDone(h, bs, |bs|, s, c)
  {
    s, c := Empty, Fine;
    var n := 0;
    while n < |bs|
      invariant BatchesDone(h, bs, n, s, c) && c.Fine?
    {
      s, c := PlaceNthBatch(h, bs, n, s);
      n := n + 1;
      if c.Bad? {
        InputBad(bs, n);
        return;
      }
    }
  }

  /** requestsByTraceID. */
  method RequestsByTraceId(h: Hashes, user: string, bs: seq<Batch>) returns (r: Result)
    ensures r.Regrouped? <==> forall x :: x in Input(bs, |bs|) ==> ValidSpan(x)
    ensures r.Failed? ==> exists i: nat :: FirstInvalid(Input(bs, |bs|), i, r.error)
    ensures r.Regrouped? ==> Aligned(h, user, r.tokens, r.traces)
    ensures r.Regrouped? ==> multiset(r.traces) == multiset(Batches(h, bs, |bs|).traces) && r.groups == Batches(h, bs, |bs|).groups
  {
    var s, c := PlaceAll(h, bs);
    CheckAllExact(Input(bs, |bs|));
    if c.Bad? { return Failed(c.error); }
    BatchesIndexed(h, bs, |bs|);
    var tokens, traces := Collect(h, user, s);
    return Regrouped(tokens, traces, s.groups);
  }

  // --------------------------------------------------- the trace map is a bijection

  /** The map leads from each trace's key to that trace and to nothing else. */
  ghost predicate Indexed(h: Hashes, s: State) {
    && (forall t :: 0 <= t < |s.traces| ==> h.trace(s.traces[t].id) in s.byTrace && s.byTrace[h.trace(s.traces[t].id)] == t)
    && (forall k :: k in s.byTrace ==> s.byTrace[k] < |s.traces| && h.trace(s.traces[s.byTrace[k]].id) == k)
  }

  lemma AddIndexed(h: Hashes, s: State, resource: nat, scope: Scope, x: Span)
    requires Shape(s) && Indexed(h, s)
    ensures Indexed(h, AddSpan(h, s, resource, scope, x))
  {
  }

  lemma {:induction false} SpansIndexed(h: Hashes, s: State, resource: nat, scope: Scope, xs: seq<Span>, n: nat)
    requires n <= |xs| && Shape(s) && Indexed(h, s)
    ensures Indexed(h, Spans(h, s, resource, scope, xs, n))
  {
    if n > 0 {
      SpansIndexed(h, s, resource, scope, xs, n - 1);
      var before := Spans(h, s, resource, scope, xs, n - 1);
      AddIndexed(h, before, resource, scope, xs[n - 1]);
      SpansNext(h, s, resource, scope, xs, n);
    }
  }

  lemma {:induction false} ScopesIndexed(h: Hashes, s: State, resource: nat, scopes: seq<ScopeSpans>, n: nat)
    requires n <= |scopes| && Shape(s) && Indexed(h, s)
    ensures Indexed(h, Scopes(h, s, resource, scopes, n))
  {
    if n > 0 {
      ScopesIndexed(h, s, resource, scopes, n - 1);
      SpansIndexed(h, Scopes(h, s, resource, scopes, n - 1), resource, scopes[n - 1].scope, scopes[n - 1].spans, |scopes[n - 1].spans|);
    }
  }

  lemma {:induction false} BatchesIndexed(h: Hashes, bs: seq<Batch>, n: nat)
    requires n <= |bs|
    ensures Indexed(h, Batches(h, bs, n))
  {
    if n > 0 {
      BatchesIndexed(h, bs, n - 1);
      ScopesIndexed(h, Batches(h, bs, n - 1).(byScope := map[]), bs[n - 1].resource, bs[n - 1].scopes, |bs[n - 1].scopes|);
    }
  }

  /** The first n traces whose index is in a set, as a multiset. */
  function Those(traces: seq<Rebatched>, n: nat, ids: set<nat>): multiset<Rebatched>
    requires n <= |traces|
  {
    if n == 0 then multiset{} else Those(traces, n - 1, ids) + if n - 1 in ids then multiset{traces[n - 1]} else multiset{}
  }

  lemma {:induction false} ThoseWithout(traces: seq<Rebatched>, n: nat, ids: set<nat>, t: nat)
    requires n <= |traces| && t in ids && t < |traces|
    ensures Those(traces, n, ids) == Those(traces, n, ids - {t}) + if t < n then multiset{traces[t]} else multiset{}
  {
    if n > 0 { ThoseWithout(traces, n - 1, ids, t); }
  }

  lemma {:induction false} ThoseNone(traces: seq<Rebatched>, n: nat, ids: set<nat>)
    requires n <= |traces| && forall t :: 0 <= t < n ==> t !in ids
    ensures Those(traces, n, ids) == multiset{}
  {
    if n > 0 { ThoseNone(traces, n - 1, ids); }
  }

  lemma {:induction false} ThoseAll(traces: seq<Rebatched>, n: nat, ids: set<nat>)
    requires n <= |traces| && forall t :: 0 <= t < n ==> t in ids
    ensures Those(traces, n, ids) == multiset(traces[..n])
  {
    if n > 0 {
      ThoseAll(traces, n - 1, ids);
      assert traces[..n] == traces[..n - 1] + [traces[n - 1]];
    }
  }
}
