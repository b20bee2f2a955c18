/**
 Regrouping when the request's keys do not collide: each trace holds its own spans and no others, counts
 them, and knows their first and last second.
 */
module RegroupExact {
  import opened Regroup
  import opened RegroupMeaning
  import opened RegroupScopes

  /** A trace ID and the scope one of its spans comes under. */
  type Use = (TraceId, Scope)

  function KeyOf(h: Hashes, u: Use): nat {
    ScopeKey(h, u.0, u.1)
  }

  /** Trace keys determine the trace IDs, and scope keys determine the trace keys. */
  ghost predicate NoCollisions(h: Hashes, ids: set<TraceId>, uses: set<Use>) {
    && (forall a, b :: a in ids && b in ids && h.trace(a) == h.trace(b) ==> a == b)
    && (forall p, q :: p in uses && q in uses && KeyOf(h, p) == KeyOf(h, q) ==> h.trace(p.0) == h.trace(q.0))
  }

  // -------------------------------------------------------- a trace's own numbers

  function CountOf(xs: seq<Span>, id: TraceId): nat {
    if |xs| == 0 then 0 else CountOf(xs[..|xs| - 1], id) + if xs[|xs| - 1].trace == id then 1 else 0
  }

  /** The earliest start and the latest end of a trace's spans, in seconds. */
  function FirstOf(xs: seq<Span>, id: TraceId): nat {
    if |xs| == 0 then MaxUint32
    else
      var x := xs[|xs| - 1];
      var rest := FirstOf(xs[..|xs| - 1], id);
      if x.trace == id && Sec(x.start) < rest then Sec(x.start) else rest
  }

  function LastOf(xs: seq<Span>, id: TraceId): nat {
    if |xs| == 0 then 0
    else
      var x := xs[|xs| - 1];
      var rest := LastOf(xs[..|xs| - 1], id);
      if x.trace == id && Sec(x.end) > rest then Sec(x.end) else rest
  }

  predicate FirstIn(xs: seq<Span>, id: TraceId, at: nat) {
    exists x :: x in xs && x.trace == id && Sec(x.start) == at
  }

  predicate LastIn(xs: seq<Span>, id: TraceId, at: nat) {
    exists x :: x in xs && x.trace == id && Sec(x.end) == at
  }

  /** FirstOf and LastOf are the least start and the greatest end, and are attained. */
  lemma {:induction false} TimesAreExtreme(xs: seq<Span>, id: TraceId)
    ensures forall x :: x in xs && x.trace == id ==> FirstOf(xs, id) <= Sec(x.start) && Sec(x.end) <= LastOf(xs, id)
    ensures CountOf(xs, id) > 0 ==> FirstIn(xs, id, FirstOf(xs, id)) && LastIn(xs, id, LastOf(xs, id))
    ensures CountOf(xs, id) == 0 ==> FirstOf(xs, id) == MaxUint32 && LastOf(xs, id) == 0
  {
    if |xs| > 0 {
      var before := xs[..|xs| - 1];
      var x := xs[|xs| - 1];
      TimesAreExtreme(before, id);
      assert xs == before + [x];
      assert x in xs;
      if CountOf(before, id) > 0 {
        StillIn(before, x, id);
      }
    }
  }

  lemma StillIn(xs: seq<Span>, y: Span, id: TraceId)
    requires FirstIn(xs, id, FirstOf(xs, id)) && LastIn(xs, id, LastOf(xs, id))
    ensures FirstIn(xs + [y], id, FirstOf(xs, id)) && LastIn(xs + [y], id, LastOf(xs, id))
  {
    var a :| a in xs && a.trace == id && Sec(a.start) == FirstOf(xs, id);
    var b :| b in xs && b.trace == id && Sec(b.end) == LastOf(xs, id);
    assert a in xs + [y] && b in xs + [y];
  }

  lemma OneMore(seen: seq<Span>, y: Span, id: TraceId)
    ensures CountOf(seen + [y], id) == CountOf(seen, id) + if y.trace == id then 1 else 0
    ensures FirstOf(seen + [y], id) == if y.trace == id && Sec(y.start) < FirstOf(seen, id) then Sec(y.start) else FirstOf(seen, id)
    ensures LastOf(seen + [y], id) == if y.trace == id && Sec(y.end) > LastOf(seen, id) then Sec(y.end) else LastOf(seen, id)
  {
    assert (seen + [y])[..|seen|] == seen;
  }

  lemma {:induction false} Unseen(xs: seq<Span>, id: TraceId, x: Span)
    requires forall y :: y in xs ==> y.trace != id
    ensures CountOf(xs, id) == 0 && FirstOf(xs, id) == MaxUint32 && LastOf(xs, id) == 0
    ensures x.trace == id ==> Times(xs, x) == 0
  {
    if |xs| > 0 {
      assert xs[|xs| - 1] in xs;
      Unseen(xs[..|xs| - 1], id, x);
    }
  }

  lemma {:induction false} NoHome(groups: seq<Group>, t: nat, n: nat, x: Span)
    requires n <= |groups| && forall g :: 0 <= g < n ==> groups[g].home < t
    ensures InGroups(groups, Only(t), n, x) == 0
  {
    if n > 0 { NoHome(groups, t, n - 1, x); }
  }

  // ------------------------------------------------------------------ invariant

  /** The t-th trace counts, bounds and owns exactly the spans seen of its ID. */
  ghost predicate TraceExact(s: State, t: nat, seen: seq<Span>)
    requires t < |s.traces|
  {
    var tr := s.traces[t];
    && tr.count == CountOf(seen, tr.id)
    && tr.start == FirstOf(seen, tr.id)
    && tr.end == LastOf(seen, tr.id)
    && forall x :: InGroups(s.groups, Only(t), |s.groups|, x) == if x.trace == tr.id then Times(seen, x) else 0
  }

  /** A known scope key is a key of the trace its group was created for. */
  ghost predicate Scoped(h: Hashes, s: State, uses: set<Use>, key: nat)
    requires Shape(s) && key in s.byScope
  {
    exists u :: u in uses && u.0 == s.traces[s.groups[s.byScope[key]].home].id && KeyOf(h, u) == key
  }

  predicate Found(h: Hashes, s: State, id: TraceId) {
    h.trace(id) in s.byTrace && s.byTrace[h.trace(id)] < |s.traces| && s.traces[s.byTrace[h.trace(id)]].id == id
  }

  ghost predicate Exact(h: Hashes, s: State, seen: seq<Span>, ids: set<TraceId>, uses: set<Use>) {
    && Shape(s) && Indexed(h, s)
    && (forall t :: 0 <= t < |s.traces| ==> s.traces[t].id in ids)
    && (forall x :: x in seen ==> Found(h, s, x.trace))
    && (forall key :: key in s.byScope ==> Scoped(h, s, uses, key))
    && (forall t :: 0 <= t < |s.traces| ==> TraceExact(s, t, seen))
  }

  /** Without collisions the span's group and its trace belong together. */
  lemma HomeIsTrace(h: Hashes, s: State, scope: Scope, y: Span, seen: seq<Span>, ids: set<TraceId>, uses: set<Use>)
    requires Exact(h, s, seen, ids, uses) && NoCollisions(h, ids, uses) && y.trace in ids && (y.trace, scope) in uses
    ensures HomeOf(h, s, scope, y) == TraceOf(h, s, y)
    ensures TraceOf(h, s, y) < |s.traces| ==> s.traces[TraceOf(h, s, y)].id == y.trace
    ensures TraceOf(h, s, y) <= |s.traces|
  {
    if Known(h, s, scope, y) {
      var key := ScopeKey(h, y.trace, scope);
      assert Scoped(h, s, uses, key);
      var home := s.groups[s.byScope[key]].home;
      var u :| u in uses && u.0 == s.traces[home].id && KeyOf(h, u) == key;
      assert KeyOf(h, (y.trace, scope)) == key;
    }
  }

  lemma AddedTraces(h: Hashes, s: State, resource: nat, scope: Scope, y: Span)
    requires Shape(s)
    ensures var s' := AddSpan(h, s, resource, scope, y); var t := TraceOf(h, s, y);
            && |s'.traces| == (if t < |s.traces| then |s.traces| else |s.traces| + 1)
            && t < |s'.traces|
            && (forall u :: 0 <= u < |s.traces| ==> s'.traces[u].id == s.traces[u].id && (u != t ==> s'.traces[u] == s.traces[u]))
            && (t == |s.traces| ==> s'.traces[t].id == y.trace)
  {
  }

  /** The numbers of the span's own trace. */
  lemma AddNumbers(h: Hashes, s: State, resource: nat, scope: Scope, y: Span)
    requires Shape(s)
    ensures var s' := AddSpan(h, s, resource, scope, y); var t := TraceOf(h, s, y);
            var start := if t < |s.traces| then s.traces[t].start else MaxUint32;
            var end := if t < |s.traces| then s.traces[t].end else 0;
            && t < |s'.traces|
            && s'.traces[t].count == (if t < |s.traces| then s.traces[t].count else 0) + 1
            && s'.traces[t].start == (if Sec(y.start) < start then Sec(y.start) else start)
            && s'.traces[t].end == (if Sec(y.end) > end then Sec(y.end) else end)
  {
  }

  lemma AddGroupsExact(h: Hashes, s: State, resource: nat, scope: Scope, y: Span, seen: seq<Span>, ids: set<TraceId>, uses: set<Use>, t: nat, x: Span)
    requires Exact(h, s, seen, ids, uses) && NoCollisions(h, ids, uses) && y.trace in ids && (y.trace, scope) in uses
    requires t < |AddSpan(h, s, resource, scope, y).traces|
    ensures var s' := AddSpan(h, s, resource, scope, y);
            InGroups(s'.groups, Only(t), |s'.groups|, x) == if x.trace == s'.traces[t].id then Times(seen + [y], x) else 0
  {
    HomeIsTrace(h, s, scope, y, seen, ids, uses);
    AddedTraces(h, s, resource, scope, y);
    AddGroups(h, s, resource, scope, y, Only(t), x);
    TimesAppend(seen, y, x);
    if t < |s.traces| {
      assert TraceExact(s, t, seen);
      IdsDiffer(h, s, t, TraceOf(h, s, y), y, ids, uses);
    } else {
      NoHome(s.groups, t, |s.groups|, x);
      NotSeen(h, s, seen, y, ids, uses);
      Unseen(seen, y.trace, x);
    }
  }

  /** Another trace has another ID than the span. */
  lemma IdsDiffer(h: Hashes, s: State, t: nat, u: nat, y: Span, ids: set<TraceId>, uses: set<Use>)
    requires Indexed(h, s) && t < |s.traces| && u == TraceOf(h, s, y)
    requires u < |s.traces| ==> s.traces[u].id == y.trace
    ensures s.traces[t].id == y.trace ==> t == u
  {
  }

  lemma NotSeen(h: Hashes, s: State, seen: seq<Span>, y: Span, ids: set<TraceId>, uses: set<Use>)
    requires Exact(h, s, seen, ids, uses) && TraceOf(h, s, y) >= |s.traces|
    ensures forall x :: x in seen ==> x.trace != y.trace
  {
    forall x | x in seen ensures x.trace != y.trace {
      assert Found(h, s, x.trace);
    }
  }

  lemma AddTraceExact(h: Hashes, s: State, resource: nat, scope: Scope, y: Span, seen: seq<Span>, ids: set<TraceId>, uses: set<Use>, t: nat)
    requires Exact(h, s, seen, ids, uses) && NoCollisions(h, ids, uses) && y.trace in ids && (y.trace, scope) in uses
    requires t < |AddSpan(h, s, resource, scope, y).traces|
    ensures TraceExact(AddSpan(h, s, resource, scope, y), t, seen + [y])
  {
    var s' := AddSpan(h, s, resource, scope, y);
    forall x ensures InGroups(s'.groups, Only(t), |s'.groups|, x) == if x.trace == s'.traces[t].id then Times(seen + [y], x) else 0 {
      AddGroupsExact(h, s, resource, scope, y, seen, ids, uses, t, x);
    }
    HomeIsTrace(h, s, scope, y, seen, ids, uses);
    AddedTraces(h, s, resource, scope, y);
    AddNumbers(h, s, resource, scope, y);
    OneMore(seen, y, s'.traces[t].id);
    if t < |s.traces| {
      assert TraceExact(s, t, seen);
      IdsDiffer(h, s, t, TraceOf(h, s, y), y, ids, uses);
    } else {
      NotSeen(h, s, seen, y, ids, uses);
      Unseen(seen, y.trace, y);
    }
  }

  lemma AddFound(h: Hashes, s: State, resource: nat, scope: Scope, y: Span, id: TraceId)
    requires Shape(s) && Indexed(h, s)
    ensures Found(h, s, id) ==> Found(h, AddSpan(h, s, resource, scope, y), id)
    ensures (TraceOf(h, s, y) < |s.traces| ==> s.traces[TraceOf(h, s, y)].id == y.trace) ==> Found(h, AddSpan(h, s, resource, scope, y), y.trace)
  {
    AddedTraces(h, s, resource, scope, y);
  }

  lemma AddScoped(h: Hashes, s: State, resource: nat, scope: Scope, y: Span, uses: set<Use>, key: nat)
    requires Shape(s) && (y.trace, scope) in uses && key in AddSpan(h, s, resource, scope, y).byScope
    requires key in s.byScope ==> Scoped(h, s, uses, key)
    requires TraceOf(h, s, y) <= |s.traces| && (TraceOf(h, s, y) < |s.traces| ==> s.traces[TraceOf(h, s, y)].id == y.trace)
    ensures Scoped(h, AddSpan(h, s, resource, scope, y), uses, key)
  {
    var s' := AddSpan(h, s, resource, scope, y);
    AddedTraces(h, s, resource, scope, y);
    if key in s.byScope {
      var g := s.byScope[key];
      assert s'.byScope[key] == g && s'.groups[g].home == s.groups[g].home;
    } else {
      assert s'.groups[s'.byScope[key]].home == TraceOf(h, s, y);
    }
  }

  lemma AddExact(h: Hashes, s: State, resource: nat, scope: Scope, y: Span, seen: seq<Span>, ids: set<TraceId>, uses: set<Use>)
    requires Exact(h, s, seen, ids, uses) && NoCollisions(h, ids, uses) && y.trace in ids && (y.trace, scope) in uses
    ensures Exact(h, AddSpan(h, s, resource, scope, y), seen + [y], ids, uses)
  {
    var s' := AddSpan(h, s, resource, scope, y);
    HomeIsTrace(h, s, scope, y, seen, ids, uses);
    AddIndexed(h, s, resource, scope, y);
    AddedTraces(h, s, resource, scope, y);
    forall x | x in seen + [y] ensures Found(h, s', x.trace) {
      AddFound(h, s, resource, scope, y, x.trace);
    }
    forall key | key in s'.byScope ensures Scoped(h, s', uses, key) {
      AddScoped(h, s, resource, scope, y, uses, key);
    }
    forall t | 0 <= t < |s'.traces| ensures TraceExact(s', t, seen + [y]) {
      AddTraceExact(h, s, resource, scope, y, seen, ids, uses, t);
    }
  }

  // ------------------------------------------------------------------- the loops

  /** The uses of some spans under a scope, and of a batch. */
  predicate UsesIn(xs: seq<Span>, scope: Scope, ids: set<TraceId>, uses: set<Use>) {
    forall x :: x in xs ==> x.trace in ids && (x.trace, scope) in uses
  }

  lemma SpanExact(h: Hashes, before: State, resource: nat, scope: Scope, xs: seq<Span>, n: nat, seen: seq<Span>, ids: set<TraceId>, uses: set<Use>)
    requires 0 < n <= |xs| && Exact(h, before, seen + xs[..n - 1], ids, uses) && NoCollisions(h, ids, uses) && UsesIn(xs, scope, ids, uses)
    ensures Exact(h, AddSpan(h, before, resource, scope, xs[n - 1]), seen + xs[..n], ids, uses)
  {
    assert xs[n - 1] in xs;
    AddExact(h, before, resource, scope, xs[n - 1], seen + xs[..n - 1], ids, uses);
    TakeOneMore(seen, xs, n);
  }

  lemma {:induction false} SpansExact(h: Hashes, s: State, resource: nat, scope: Scope, xs: seq<Span>, n: nat, seen: seq<Span>, ids: set<TraceId>, uses: set<Use>)
    requires n <= |xs| && Exact(h, s, seen, ids, uses) && NoCollisions(h, ids, uses) && UsesIn(xs, scope, ids, uses)
    ensures Exact(h, Spans(h, s, resource, scope, xs, n), seen + xs[..n], ids, uses)
  {
    if n == 0 {
      assert seen + xs[..0] == seen;
    } else {
      SpansExact(h, s, resource, scope, xs, n - 1, seen, ids, uses);
      var before := Spans(h, s, resource, scope, xs, n - 1);
      SpanExact(h, before, resource, scope, xs, n, seen, ids, uses);
      SpansNext(h, s, resource, scope, xs, n);
    }
  }

  predicate ScopesIn(scopes: seq<ScopeSpans>, ids: set<TraceId>, uses: set<Use>) {
    forall i :: 0 <= i < |scopes| ==> UsesIn(scopes[i].spans, scopes[i].scope, ids, uses)
  }

  lemma {:induction false} ScopesExact(h: Hashes, s: State, resource: nat, scopes: seq<ScopeSpans>, n: nat, seen: seq<Span>, ids: set<TraceId>, uses: set<Use>)
    requires n <= |scopes| && Exact(h, s, seen, ids, uses) && NoCollisions(h, ids, uses) && ScopesIn(scopes, ids, uses)
    ensures Exact(h, Scopes(h, s, resource, scopes, n), seen + ScopeInput(scopes, n), ids, uses)
  {
    if n == 0 {
      assert seen + [] == seen;
    } else {
      var xs := scopes[n - 1].spans;
      ScopesExact(h, s, resource, scopes, n - 1, seen, ids, uses);
      var before := Scopes(h, s, resource, scopes, n - 1);
      SpansExact(h, before, resource, scopes[n - 1].scope, xs, |xs|, seen + ScopeInput(scopes, n - 1), ids, uses);
      TakeOneScope(seen, scopes, n);
      assert Scopes(h, s, resource, scopes, n) == Spans(h, before, resource, scopes[n - 1].scope, xs, |xs|);
    }
  }

  /** Each batch starts with no scopes known, so only its own uses matter to it. */
  lemma ForgetExact(h: Hashes, s: State, seen: seq<Span>, ids: set<TraceId>, uses: set<Use>, more: set<Use>)
    requires Exact(h, s, seen, ids, uses)
    ensures Exact(h, s.(byScope := map[]), seen, ids, more)
  {
    var s' := s.(byScope := map[]);
    forall t | 0 <= t < |s'.traces| ensures TraceExact(s', t, seen) {
      assert TraceExact(s, t, seen);
    }
    forall x | x in seen ensures Found(h, s', x.trace) {
      assert Found(h, s, x.trace);
    }
  }

  function IdsOf(xs: seq<Span>): set<TraceId> {
    set x | x in xs :: x.trace
  }

  function UsesOf(scopes: seq<ScopeSpans>): set<Use> {
    set i, x | 0 <= i < |scopes| && x in scopes[i].spans :: (x.trace, scopes[i].scope)
  }

  /** On the request's trace IDs trace keys are unambiguous, and in each batch scope keys determine trace keys. */
  ghost predicate KeysSuffice(h: Hashes, bs: seq<Batch>) {
    && (forall a, b :: a in IdsOf(Input(bs, |bs|)) && b in IdsOf(Input(bs, |bs|)) && h.trace(a) == h.trace(b) ==> a == b)
    && (forall m, p, q {:trigger p in UsesOf(bs[m].scopes), q in UsesOf(bs[m].scopes)} ::
          0 <= m < |bs| && p in UsesOf(bs[m].scopes) && q in UsesOf(bs[m].scopes) && KeyOf(h, p) == KeyOf(h, q) ==> h.trace(p.0) == h.trace(q.0))
  }

  lemma {:induction false} InScopeInput(scopes: seq<ScopeSpans>, n: nat, i: nat, x: Span)
    requires i < n <= |scopes| && x in scopes[i].spans
    ensures x in ScopeInput(scopes, n)
  {
    if i < n - 1 { InScopeInput(scopes, n - 1, i, x); }
  }

  lemma {:induction false} InInput(bs: seq<Batch>, n: nat, m: nat, i: nat, x: Span)
    requires m < n <= |bs| && i < |bs[m].scopes| && x in bs[m].scopes[i].spans
    ensures x in Input(bs, n)
  {
    if m < n - 1 {
      InInput(bs, n - 1, m, i, x);
    } else {
      InScopeInput(bs[m].scopes, |bs[m].scopes|, i, x);
    }
  }

  /** A batch's spans meet the conditions for its own uses. */
  lemma BatchUses(h: Hashes, bs: seq<Batch>, m: nat)
    requires KeysSuffice(h, bs) && m < |bs|
    ensures NoCollisions(h, IdsOf(Input(bs, |bs|)), UsesOf(bs[m].scopes))
    ensures ScopesIn(bs[m].scopes, IdsOf(Input(bs, |bs|)), UsesOf(bs[m].scopes))
  {
    var scopes := bs[m].scopes;
    forall i, x | 0 <= i < |scopes| && x in scopes[i].spans ensures x.trace in IdsOf(Input(bs, |bs|)) && (x.trace, scopes[i].scope) in UsesOf(scopes) {
      InInput(bs, |bs|, m, i, x);
    }
  }

  /** One batch, from no scopes known to none known again. */
  lemma BatchExact(h: Hashes, s: State, b: Batch, seen: seq<Span>, ids: set<TraceId>)
    requires s.byScope == map[] && Exact(h, s, seen, ids, {})
    requires NoCollisions(h, ids, UsesOf(b.scopes)) && ScopesIn(b.scopes, ids, UsesOf(b.scopes))
    ensures Exact(h, Scopes(h, s, b.resource, b.scopes, |b.scopes|).(byScope := map[]),
                  seen + ScopeInput(b.scopes, |b.scopes|), ids, {})
  {
    var uses := UsesOf(b.scopes);
    ForgetExact(h, s, seen, ids, {}, uses);
    ScopesExact(h, s, b.resource, b.scopes, |b.scopes|, seen, ids, uses);
    ForgetExact(h, Scopes(h, s, b.resource, b.scopes, |b.scopes|), seen + ScopeInput(b.scopes, |b.scopes|), ids, uses, {});
  }

  lemma {:induction false} BatchesExact(h: Hashes, bs: seq<Batch>, n: nat)
    requires n <= |bs| && KeysSuffice(h, bs)
    ensures Exact(h, Batches(h, bs, n).(byScope := map[]), Input(bs, n), IdsOf(Input(bs, |bs|)), {})
  {
    if n > 0 {
      BatchesExact(h, bs, n - 1);
      BatchUses(h, bs, n - 1);
      BatchExact(h, Batches(h, bs, n - 1).(byScope := map[]), bs[n - 1], Input(bs, n - 1), IdsOf(Input(bs, |bs|)));
    }
  }

  /** The t-th trace lists each of its own spans as often as it came and no other, counts them, and has their first and last second. */
  ghost predicate OwnSpans(s: State, t: nat, input: seq<Span>)
    requires t < |s.traces|
  {
    var tr := s.traces[t];
    && InBounds(s.groups, tr.groups)
    && (forall x :: ListedBy(s.groups, tr.groups, x) == if x.trace == tr.id then multiset(input)[x] else 0)
    && tr.count == CountOf(input, tr.id) && tr.start == FirstOf(input, tr.id) && tr.end == LastOf(input, tr.id)
  }

  /** Every trace has its own spans, every span's trace is there, and no trace is there twice. */
  ghost predicate ResultIsExact(h: Hashes, s: State, input: seq<Span>) {
    && (forall t {:trigger OwnSpans(s, t, input)} :: 0 <= t < |s.traces| ==> OwnSpans(s, t, input))
    && (forall t, u :: 0 <= t < |s.traces| && 0 <= u < |s.traces| && s.traces[t].id == s.traces[u].id ==> t == u)
    && (forall y :: y in input ==> Found(h, s, y.trace))
  }

  /** If no keys of the request collide where it matters, the result is exact. */
  lemma {:induction false} TracesAreExact(h: Hashes, bs: seq<Batch>)
    requires KeysSuffice(h, bs)
    ensures ResultIsExact(h, Batches(h, bs, |bs|), Input(bs, |bs|))
  {
    var s := Batches(h, bs, |bs|);
    var forgot := s.(byScope := map[]);
    var input := Input(bs, |bs|);
    BatchesExact(h, bs, |bs|);
    BatchesConserve(h, bs, |bs|);
    forall t | 0 <= t < |s.traces| ensures OwnSpans(s, t, input) {
      assert TraceExact(forgot, t, input) && Owns(s, t);
      OwnedIsListed(s.groups, t, |s.groups|, Span([], [], 0, 0, 0));
      forall x ensures ListedBy(s.groups, s.traces[t].groups, x) == if x.trace == s.traces[t].id then multiset(input)[x] else 0 {
        OwnedIsListed(s.groups, t, |s.groups|, x);
        TimesIsMultiplicity(input, x);
      }
    }
    forall y | y in input ensures Found(h, s, y.trace) {
      assert Found(h, forgot, y.trace);
    }
  }

  // ----------------------------------------------------------- and only if they do not

  /** A span listed by a trace of an exact result is that trace's own. */
  lemma ListedIsOwn(h: Hashes, s: State, input: seq<Span>, g: nat, x: Span)
    requires ResultIsExact(h, s, input) && Conserves(s, input) && g < |s.groups| && x in s.groups[g].spans
    ensures s.groups[g].home < |s.traces| && x.trace == s.traces[s.groups[g].home].id
  {
    var t := s.groups[g].home;
    assert Owns(s, t) && OwnSpans(s, t, input);
    OwnedIsListed(s.groups, t, |s.groups|, x);
    GroupCounts(s.groups, |s.groups|, g, x);
  }

  lemma {:induction false} GroupCounts(groups: seq<Group>, n: nat, g: nat, x: Span)
    requires g < n <= |groups| && x in groups[g].spans
    ensures InGroups(groups, Only(groups[g].home), n, x) > 0
  {
    if g < n - 1 { GroupCounts(groups, n - 1, g, x); } else { TimesIsMultiplicity(groups[g].spans, x); }
  }

  /** Spans of a batch with one scope key share a group, hence a trace. */
  lemma SharedKeySharedTrace(h: Hashes, bs: seq<Batch>, m: nat, p: Use, q: Use)
    requires ResultIsExact(h, Batches(h, bs, |bs|), Input(bs, |bs|))
    requires m < |bs| && p in UsesOf(bs[m].scopes) && q in UsesOf(bs[m].scopes) && KeyOf(h, p) == KeyOf(h, q)
    ensures p.0 == q.0
  {
    var scopes := bs[m].scopes;
    var i, x :| 0 <= i < |scopes| && x in scopes[i].spans && p == (x.trace, scopes[i].scope);
    var k, y :| 0 <= k < |scopes| && y in scopes[k].spans && q == (y.trace, scopes[k].scope);
    BatchesConserve(h, bs, |bs|);
    var ss := StatesOf(h, bs);
    ThroughEnds(h, bs, ss, |bs|);
    SpanIsInItsGroup(h, bs, ss, m, i, x);
    SpanIsInItsGroup(h, bs, ss, m, k, y);
    var g := ss[m + 1].byScope[KeyOf(h, p)];
    ListedIsOwn(h, ss[|bs|], Input(bs, |bs|), g, x);
    ListedIsOwn(h, ss[|bs|], Input(bs, |bs|), g, y);
  }

  /**
   The result is exact if and only if the keys suffice: trace keys tell the request's trace IDs apart, and
   batch by batch scope keys determine trace keys.
   */
  lemma {:induction false} ExactIffKeysSuffice(h: Hashes, bs: seq<Batch>)
    ensures ResultIsExact(h, Batches(h, bs, |bs|), Input(bs, |bs|)) <==> KeysSuffice(h, bs)
  {
    var s, input := Batches(h, bs, |bs|), Input(bs, |bs|);
    if KeysSuffice(h, bs) {
      TracesAreExact(h, bs);
    } else if ResultIsExact(h, s, input) {
      forall a, b | a in IdsOf(input) && b in IdsOf(input) && h.trace(a) == h.trace(b) ensures a == b {
        assert Found(h, s, a) && Found(h, s, b);
      }
      forall m, p, q | 0 <= m < |bs| && p in UsesOf(bs[m].scopes) && q in UsesOf(bs[m].scopes) && KeyOf(h, p) == KeyOf(h, q)
        ensures h.trace(p.0) == h.trace(q.0)
      {
        SharedKeySharedTrace(h, bs, m, p, q);
      }
      assert false;
    }
  }

  /** For instance, two traces whose keys collide come out as one, under the first one's ID. */
  lemma CollidingTracesMerge(h: Hashes, resource: nat, x: Span, y: Span)
    requires h.trace(x.trace) == h.trace(y.trace) && x.trace != y.trace
    ensures var s := Batches(h, [Batch(resource, [ScopeSpans(NoScope, [x, y])])], 1);
            && |s.traces| == 1 && s.traces[0].id == x.trace && s.traces[0].count == 2
            && s.traces[0].groups == [0] && |s.groups| == 1 && s.groups[0].spans == [x, y]
  {
    var scopes := [ScopeSpans(NoScope, [x, y])];
    var one := AddSpan(h, Empty, resource, NoScope, x);
    assert Empty.(byScope := map[]) == Empty;
    assert one == Spans(h, Empty, resource, NoScope, [x, y], 1);
    assert |one.traces| == 1 && one.groups == [Group(resource, NoScope, [x], 0)] && one.traces[0].groups == [0];
    var two := AddSpan(h, one, resource, NoScope, y);
    assert two == Spans(h, Empty, resource, NoScope, [x, y], 2);
    assert two == Scopes(h, Empty, resource, scopes, 1);
    assert two.groups == [Group(resource, NoScope, [x] + [y], 0)];
  }
}
