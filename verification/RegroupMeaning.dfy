/**
 What regrouping keeps. Whatever the hash functions do, no span is lost, duplicated or listed by two
 traces; if the keys do not collide on the request, each trace holds exactly its own spans.
 */
module RegroupMeaning {
  import opened Regroup

  /** How often a span occurs. */
  function Times(xs: seq<Span>, x: Span): nat {
    if |xs| == 0 then 0 else Times(xs[..|xs| - 1], x) + if xs[|xs| - 1] == x then 1 else 0
  }

  lemma TimesAppend(xs: seq<Span>, y: Span, x: Span)
    ensures Times(xs + [y], x) == Times(xs, x) + if y == x then 1 else 0
  {
    assert (xs + [y])[..|xs|] == xs;
  }

  lemma {:induction false} TimesIsMultiplicity(xs: seq<Span>, x: Span)
    ensures Times(xs, x) == multiset(xs)[x]
  {
    if |xs| > 0 {
      TimesIsMultiplicity(xs[..|xs| - 1], x);
      assert xs == xs[..|xs| - 1] + [xs[|xs| - 1]];
    }
  }

  // -------------------------------------------------------- who owns which group

  /** The groups created for a trace, among the first n, in order. */
  function OwnedBy(groups: seq<Group>, t: nat, n: nat): seq<nat>
    requires n <= |groups|
  {
    if n == 0 then [] else OwnedBy(groups, t, n - 1) + (if groups[n - 1].home == t then [n - 1] else [])
  }

  /** Which groups to count. */
  datatype Whose = Everyone | Only(t: nat) | Below(k: nat)

  predicate Counts(w: Whose, home: nat) {
    match w
    case Everyone => true
    case Only(t) => home == t
    case Below(k) => home < k
  }

  /** How often a span occurs in the first n groups, as far as they count. */
  function InGroups(groups: seq<Group>, w: Whose, n: nat, x: Span): nat
    requires n <= |groups|
  {
    if n == 0 then 0
    else InGroups(groups, w, n - 1, x) + if Counts(w, groups[n - 1].home) then Times(groups[n - 1].spans, x) else 0
  }

  predicate InBounds(groups: seq<Group>, ids: seq<nat>) {
    forall i :: 0 <= i < |ids| ==> ids[i] < |groups|
  }

  /** How often a trace lists a span, through its groups. */
  function ListedBy(groups: seq<Group>, ids: seq<nat>, x: Span): nat
    requires InBounds(groups, ids)
  {
    if |ids| == 0 then 0 else ListedBy(groups, ids[..|ids| - 1], x) + Times(groups[ids[|ids| - 1]].spans, x)
  }

  lemma ListedAppend(groups: seq<Group>, ids: seq<nat>, g: nat, x: Span)
    requires InBounds(groups, ids) && g < |groups|
    ensures InBounds(groups, ids + [g]) && ListedBy(groups, ids + [g], x) == ListedBy(groups, ids, x) + Times(groups[g].spans, x)
  {
    assert (ids + [g])[..|ids|] == ids;
  }

  lemma {:induction false} OwnedIsListed(groups: seq<Group>, t: nat, n: nat, x: Span)
    requires n <= |groups|
    ensures InBounds(groups, OwnedBy(groups, t, n)) && ListedBy(groups, OwnedBy(groups, t, n), x) == InGroups(groups, Only(t), n, x)
  {
    if n > 0 {
      OwnedIsListed(groups, t, n - 1, x);
      ListedAppend(groups, OwnedBy(groups, t, n - 1), n - 1, x);
      assert groups[n - 1].home != t ==> OwnedBy(groups, t, n) == OwnedBy(groups, t, n - 1);
    }
  }

  // ------------------------------------------------------- changing one group

  lemma {:induction false} OwnedSame(a: seq<Group>, b: seq<Group>, t: nat, n: nat)
    requires n <= |a| && n <= |b| && forall g :: 0 <= g < n ==> a[g].home == b[g].home
    ensures OwnedBy(a, t, n) == OwnedBy(b, t, n)
  {
    if n > 0 { OwnedSame(a, b, t, n - 1); }
  }

  lemma {:induction false} GroupsSame(a: seq<Group>, b: seq<Group>, w: Whose, n: nat, x: Span)
    requires n <= |a| && n <= |b| && forall g :: 0 <= g < n ==> a[g] == b[g]
    ensures InGroups(a, w, n, x) == InGroups(b, w, n, x)
  {
    if n > 0 { GroupsSame(a, b, w, n - 1, x); }
  }

  function Plus(groups: seq<Group>, g: nat, y: Span): seq<Group>
    requires g < |groups|
  {
    groups[g := groups[g].(spans := groups[g].spans + [y])]
  }

  lemma {:induction false} PlusGroups(groups: seq<Group>, g: nat, y: Span, w: Whose, n: nat, x: Span)
    requires g < |groups| && n <= |groups|
    ensures InGroups(Plus(groups, g, y), w, n, x) ==
            InGroups(groups, w, n, x) + if g < n && Counts(w, groups[g].home) && y == x then 1 else 0
  {
    if n > 0 {
      PlusGroups(groups, g, y, w, n - 1, x);
      if g == n - 1 { TimesAppend(groups[g].spans, y, x); } else { assert Plus(groups, g, y)[n - 1] == groups[n - 1]; }
    }
  }

  lemma AppendGroups(groups: seq<Group>, one: Group, w: Whose, x: Span)
    ensures InGroups(groups + [one], w, |groups| + 1, x) == InGroups(groups, w, |groups|, x) + if Counts(w, one.home) then Times(one.spans, x) else 0
  {
    GroupsSame(groups, groups + [one], w, |groups|, x);
  }

  // ------------------------------------------------------------------- one step

  predicate Known(h: Hashes, s: State, scope: Scope, x: Span) {
    ScopeKey(h, x.trace, scope) in s.byScope
  }

  /** The home of the group the step puts the span into. */
  function HomeOf(h: Hashes, s: State, scope: Scope, x: Span): nat
    requires Known(h, s, scope, x) ==> s.byScope[ScopeKey(h, x.trace, scope)] < |s.groups|
  {
    if Known(h, s, scope, x) then s.groups[s.byScope[ScopeKey(h, x.trace, scope)]].home else TraceOf(h, s, x)
  }

  /** What the step does to the groups. */
  lemma AddedGroups(h: Hashes, s: State, resource: nat, scope: Scope, y: Span)
    requires Shape(s)
    ensures Known(h, s, scope, y) ==> AddSpan(h, s, resource, scope, y).groups == Plus(s.groups, s.byScope[ScopeKey(h, y.trace, scope)], y)
    ensures !Known(h, s, scope, y) ==> AddSpan(h, s, resource, scope, y).groups == s.groups + [Group(resource, scope, [y], TraceOf(h, s, y))]
  {
  }

  lemma AddGroups(h: Hashes, s: State, resource: nat, scope: Scope, y: Span, w: Whose, x: Span)
    requires Shape(s)
    ensures var groups := AddSpan(h, s, resource, scope, y).groups;
            InGroups(groups, w, |groups|, x) ==
            InGroups(s.groups, w, |s.groups|, x) + if Counts(w, HomeOf(h, s, scope, y)) && y == x then 1 else 0
  {
    AddedGroups(h, s, resource, scope, y);
    if Known(h, s, scope, y) {
      PlusGroups(s.groups, s.byScope[ScopeKey(h, y.trace, scope)], y, w, |s.groups|, x);
    } else {
      AppendGroups(s.groups, Group(resource, scope, [y], TraceOf(h, s, y)), w, x);
      TimesOne(y, x);
    }
  }

  lemma TimesOne(y: Span, x: Span)
    ensures Times([y], x) == if y == x then 1 else 0
  {
    TimesAppend([], y, x);
    assert [] + [y] == [y];
  }

  lemma AddOwned(h: Hashes, s: State, resource: nat, scope: Scope, y: Span, t: nat)
    requires Shape(s)
    ensures var s' := AddSpan(h, s, resource, scope, y);
            OwnedBy(s'.groups, t, |s'.groups|) ==
            OwnedBy(s.groups, t, |s.groups|) + (if !Known(h, s, scope, y) && t == TraceOf(h, s, y) then [|s.groups|] else [])
  {
    var s' := AddSpan(h, s, resource, scope, y);
    OwnedSame(s.groups, s'.groups, t, |s.groups|);
  }

  // --------------------------------------------------------------- conservation

  /** Each trace lists exactly the groups created for it, and no group is created for a trace that is not there. */
  ghost predicate Owns(s: State, t: nat) {
    if t < |s.traces| then s.traces[t].groups == OwnedBy(s.groups, t, |s.groups|) else OwnedBy(s.groups, t, |s.groups|) == []
  }

  /** Besides, the groups hold exactly the spans placed so far. */
  ghost predicate Conserves(s: State, seen: seq<Span>) {
    && Shape(s)
    && (forall x :: InGroups(s.groups, Everyone, |s.groups|, x) == Times(seen, x))
    && (forall t :: 0 <= t ==> Owns(s, t))
  }

  lemma AddOwns(h: Hashes, s: State, resource: nat, scope: Scope, y: Span, t: nat)
    requires Shape(s) && Owns(s, t)
    ensures Owns(AddSpan(h, s, resource, scope, y), t)
  {
    AddOwned(h, s, resource, scope, y, t);
  }

  lemma AddConserves(h: Hashes, s: State, resource: nat, scope: Scope, y: Span, seen: seq<Span>)
    requires Conserves(s, seen)
    ensures Conserves(AddSpan(h, s, resource, scope, y), seen + [y])
  {
    var s' := AddSpan(h, s, resource, scope, y);
    forall x ensures InGroups(s'.groups, Everyone, |s'.groups|, x) == Times(seen + [y], x) {
      AddGroups(h, s, resource, scope, y, Everyone, x);
      TimesAppend(seen, y, x);
    }
    forall t: nat ensures Owns(s', t) {
      AddOwns(h, s, resource, scope, y, t);
    }
  }

  lemma TakeOneMore(seen: seq<Span>, xs: seq<Span>, n: nat)
    requires 0 < n <= |xs|
    ensures (seen + xs[..n - 1]) + [xs[n - 1]] == seen + xs[..n]
  {
  }

  lemma SpanConserves(h: Hashes, before: State, resource: nat, scope: Scope, xs: seq<Span>, n: nat, seen: seq<Span>)
    requires 0 < n <= |xs| && Conserves(before, seen + xs[..n - 1])
    ensures Conserves(AddSpan(h, before, resource, scope, xs[n - 1]), seen + xs[..n])
  {
    AddConserves(h, before, resource, scope, xs[n - 1], seen + xs[..n - 1]);
    TakeOneMore(seen, xs, n);
  }

  lemma {:induction false} SpansConserve(h: Hashes, s: State, resource: nat, scope: Scope, xs: seq<Span>, n: nat, seen: seq<Span>)
    requires n <= |xs| && Conserves(s, seen)
    ensures Conserves(Spans(h, s, resource, scope, xs, n), seen + xs[..n])
  {
    if n == 0 {
      assert seen + xs[..0] == seen;
    } else {
      SpansConserve(h, s, resource, scope, xs, n - 1, seen);
      var before := Spans(h, s, resource, scope, xs, n - 1);
      SpanConserves(h, before, resource, scope, xs, n, seen);
      SpansNext(h, s, resource, scope, xs, n);
    }
  }

  lemma TakeOneScope(seen: seq<Span>, scopes: seq<ScopeSpans>, n: nat)
    requires 0 < n <= |scopes|
    ensures var xs := scopes[n - 1].spans; (seen + ScopeInput(scopes, n - 1)) + xs[..|xs|] == seen + ScopeInput(scopes, n)
  {
    var xs := scopes[n - 1].spans;
    assert xs[..|xs|] == xs;
  }

  lemma ScopeConserves(h: Hashes, before: State, resource: nat, scopes: seq<ScopeSpans>, n: nat, seen: seq<Span>)
    requires 0 < n <= |scopes| && Conserves(before, seen + ScopeInput(scopes, n - 1))
    ensures Conserves(Spans(h, before, resource, scopes[n - 1].scope, scopes[n - 1].spans, |scopes[n - 1].spans|), seen + ScopeInput(scopes, n))
  {
    var xs := scopes[n - 1].spans;
    SpansConserve(h, before, resource, scopes[n - 1].scope, xs, |xs|, seen + ScopeInput(scopes, n - 1));
    TakeOneScope(seen, scopes, n);
  }

  lemma {:induction false} ScopesConserve(h: Hashes, s: State, resource: nat, scopes: seq<ScopeSpans>, n: nat, seen: seq<Span>)
    requires n <= |scopes| && Conserves(s, seen)
    ensures Conserves(Scopes(h, s, resource, scopes, n), seen + ScopeInput(scopes, n))
  {
    if n == 0 {
      assert seen + [] == seen;
    } else {
      var xs := scopes[n - 1].spans;
      ScopesConserve(h, s, resource, scopes, n - 1, seen);
      var before := Scopes(h, s, resource, scopes, n - 1);
      ScopeConserves(h, before, resource, scopes, n, seen);
      assert Scopes(h, s, resource, scopes, n) == Spans(h, before, resource, scopes[n - 1].scope, xs, |xs|);
    }
  }

  lemma {:induction false} BatchesConserve(h: Hashes, bs: seq<Batch>, n: nat)
    requires n <= |bs|
    ensures Conserves(Batches(h, bs, n), Input(bs, n))
  {
    if n > 0 {
      BatchesConserve(h, bs, n - 1);
      var before := Batches(h, bs, n - 1).(byScope := map[]);
      assert Conserves(before, Input(bs, n - 1)) by { ForgetScopes(Batches(h, bs, n - 1), Input(bs, n - 1)); }
      ScopesConserve(h, before, bs[n - 1].resource, bs[n - 1].scopes, |bs[n - 1].scopes|, Input(bs, n - 1));
    }
  }

  lemma ForgetScopes(s: State, seen: seq<Span>)
    requires Conserves(s, seen)
    ensures Conserves(s.(byScope := map[]), seen)
  {
    forall t: nat ensures Owns(s.(byScope := map[]), t) {
      assert Owns(s, t);
    }
  }

  /** How often the first n traces list a span, together. */
  ghost function Listed(s: State, n: nat, x: Span): nat
    requires n <= |s.traces| && forall t :: 0 <= t < n ==> InBounds(s.groups, s.traces[t].groups)
  {
    if n == 0 then 0 else Listed(s, n - 1, x) + ListedBy(s.groups, s.traces[n - 1].groups, x)
  }

  lemma {:induction false} HomesSplit(groups: seq<Group>, k: nat, n: nat, x: Span)
    requires n <= |groups|
    ensures InGroups(groups, Below(k + 1), n, x) == InGroups(groups, Below(k), n, x) + InGroups(groups, Only(k), n, x)
  {
    if n > 0 { HomesSplit(groups, k, n - 1, x); }
  }

  lemma {:induction false} HomesEnds(groups: seq<Group>, k: nat, n: nat, x: Span)
    requires n <= |groups|
    ensures InGroups(groups, Below(0), n, x) == 0
    ensures (forall g :: 0 <= g < n ==> groups[g].home < k) ==> InGroups(groups, Below(k), n, x) == InGroups(groups, Everyone, n, x)
  {
    if n > 0 { HomesEnds(groups, k, n - 1, x); }
  }

  lemma {:induction false} ListedIsHomes(s: State, n: nat, x: Span)
    requires n <= |s.traces| && forall t :: 0 <= t < n ==> Owns(s, t)
    ensures forall t :: 0 <= t < n ==> InBounds(s.groups, s.traces[t].groups)
    ensures Listed(s, n, x) == InGroups(s.groups, Below(n), |s.groups|, x)
  {
    if n == 0 {
      HomesEnds(s.groups, 0, |s.groups|, x);
    } else {
      ListedIsHomes(s, n - 1, x);
      assert Owns(s, n - 1);
      OwnedIsListed(s.groups, n - 1, |s.groups|, x);
      HomesSplit(s.groups, n - 1, |s.groups|, x);
    }
  }

  /**
   On success the traces together list exactly the request's spans, each as often as it came, whatever
   the hash functions do.
   */
  lemma SpansAreConserved(h: Hashes, bs: seq<Batch>, x: Span)
    ensures var s := Batches(h, bs, |bs|);
            && (forall t :: 0 <= t < |s.traces| ==> InBounds(s.groups, s.traces[t].groups))
            && Listed(s, |s.traces|, x) == multiset(Input(bs, |bs|))[x]
  {
    var s := Batches(h, bs, |bs|);
    BatchesConserve(h, bs, |bs|);
    ListedIsHomes(s, |s.traces|, x);
    HomesEnds(s.groups, |s.traces|, |s.groups|, x);
    TimesIsMultiplicity(Input(bs, |bs|), x);
  }
}
