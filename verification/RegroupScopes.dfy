/**
 Under which scope a span comes out. A batch's spans of one scope key share one group, which has the scope
 of the first of them; attributes of a scope are no part of its key.
 */
module RegroupScopes {
  import opened Options
  import opened Regroup

  predicate HasKey(h: Hashes, ss: ScopeSpans, key: nat) {
    exists x :: x in ss.spans && ScopeKey(h, x.trace, ss.scope) == key
  }

  /** The scope, among a batch's first n, under which a key occurs first. */
  function FirstScope(h: Hashes, scopes: seq<ScopeSpans>, n: nat, key: nat): Option<Scope>
    requires n <= |scopes|
  {
    if n == 0 then None
    else
      var before := FirstScope(h, scopes, n - 1, key);
      if before.Some? then before else if HasKey(h, scopes[n - 1], key) then Some(scopes[n - 1].scope) else None
  }

  /** Groups keep their resource, scope and home, and only gain spans. */
  predicate GroupsGrow(a: seq<Group>, b: seq<Group>) {
    && |a| <= |b|
    && forall g :: 0 <= g < |a| ==> b[g].resource == a[g].resource && b[g].scope == a[g].scope && b[g].home == a[g].home && a[g].spans <= b[g].spans
  }

  /** What placing spans of one resource and scope makes of the known keys and their groups; the first `earlier` groups are of other batches. */
  ghost predicate Placed(earlier: nat, s: State, s': State, resource: nat, scope: Scope) {
    && GroupsGrow(s.groups, s'.groups)
    && earlier <= |s.groups| && s'.groups[..earlier] == s.groups[..earlier]
    && (forall k :: k in s.byScope ==> k in s'.byScope && s'.byScope[k] == s.byScope[k])
    && (forall k :: k in s'.byScope ==> s'.byScope[k] < |s'.groups|)
    && (forall k :: k in s'.byScope && k !in s.byScope ==>
          && s'.groups[s'.byScope[k]].scope == scope && s'.groups[s'.byScope[k]].resource == resource
          && |s.groups| <= s'.byScope[k])
  }

  /** No known key is of a group of earlier batches. */
  predicate Apart(earlier: nat, s: State) {
    forall k :: k in s.byScope ==> earlier <= s.byScope[k]
  }

  predicate Holds(s: State, key: nat, x: Span) {
    key in s.byScope && s.byScope[key] < |s.groups| && x in s.groups[s.byScope[key]].spans
  }

  /** What one step does to the groups and to the known keys. */
  lemma AddChanges(h: Hashes, s: State, resource: nat, scope: Scope, x: Span)
    requires Shape(s)
    ensures var s' := AddSpan(h, s, resource, scope, x);
            var key := ScopeKey(h, x.trace, scope);
            if key in s.byScope
            then var g := s.byScope[key];
                 s'.byScope == s.byScope && s'.groups == s.groups[g := s.groups[g].(spans := s.groups[g].spans + [x])]
            else s'.byScope == s.byScope[key := |s.groups|]
                 && |s'.groups| == |s.groups| + 1 && s'.groups[..|s.groups|] == s.groups
                 && s'.groups[|s.groups|].scope == scope && s'.groups[|s.groups|].resource == resource && s'.groups[|s.groups|].spans == [x]
  {
  }

  lemma AddPlaces(h: Hashes, earlier: nat, s: State, s': State, resource: nat, scope: Scope, x: Span)
    requires Shape(s) && earlier <= |s.groups| && Apart(earlier, s) && s' == AddSpan(h, s, resource, scope, x)
    ensures Placed(earlier, s, s', resource, scope)
    ensures Holds(s', ScopeKey(h, x.trace, scope), x)
    ensures s'.byScope.Keys == s.byScope.Keys + {ScopeKey(h, x.trace, scope)}
  {
    AddChanges(h, s, resource, scope, x);
    var key := ScopeKey(h, x.trace, scope);
    if key in s.byScope {
      GrowsInPlace(s, s', earlier, resource, scope, key, x);
    } else {
      GrowsByOne(s, s', earlier, resource, scope, key, x);
    }
  }

  lemma GrowsInPlace(s: State, s': State, earlier: nat, resource: nat, scope: Scope, key: nat, x: Span)
    requires Shape(s) && earlier <= |s.groups| && Apart(earlier, s) && key in s.byScope && s'.byScope == s.byScope
    requires var g := s.byScope[key]; s'.groups == s.groups[g := s.groups[g].(spans := s.groups[g].spans + [x])]
    ensures Placed(earlier, s, s', resource, scope) && Holds(s', key, x)
  {
    assert s'.groups[s.byScope[key]].spans[|s.groups[s.byScope[key]].spans|] == x;
  }

  lemma GrowsByOne(s: State, s': State, earlier: nat, resource: nat, scope: Scope, key: nat, x: Span)
    requires Shape(s) && earlier <= |s.groups| && Apart(earlier, s) && key !in s.byScope && s'.byScope == s.byScope[key := |s.groups|]
    requires |s'.groups| == |s.groups| + 1 && s'.groups[..|s.groups|] == s.groups
    requires s'.groups[|s.groups|].scope == scope && s'.groups[|s.groups|].resource == resource && s'.groups[|s.groups|].spans == [x]
    ensures Placed(earlier, s, s', resource, scope) && Holds(s', key, x)
  {
    assert forall g :: 0 <= g < |s.groups| ==> s'.groups[g] == s'.groups[..|s.groups|][g];
  }

  lemma PlacedTwice(earlier: nat, a: State, b: State, c: State, resource: nat, scope: Scope)
    requires Placed(earlier, a, b, resource, scope) && Placed(earlier, b, c, resource, scope)
    ensures Placed(earlier, a, c, resource, scope)
  {
  }

  lemma StaysApart(earlier: nat, s: State, s': State, resource: nat, scope: Scope)
    requires Placed(earlier, s, s', resource, scope) && Apart(earlier, s)
    ensures Apart(earlier, s')
  {
  }

  lemma StillHolds(earlier: nat, s: State, s': State, resource: nat, scope: Scope, key: nat, x: Span)
    requires Placed(earlier, s, s', resource, scope) && Holds(s, key, x)
    ensures Holds(s', key, x)
  {
    var g := s.byScope[key];
    assert s.groups[g].spans <= s'.groups[g].spans;
  }

  predicate KeyAmong(h: Hashes, scope: Scope, xs: seq<Span>, n: nat, key: nat)
    requires n <= |xs|
  {
    exists i :: 0 <= i < n && ScopeKey(h, xs[i].trace, scope) == key
  }

  /** The first n spans of a scope have been placed. */
  ghost predicate SpansPlaced(h: Hashes, earlier: nat, s: State, s': State, resource: nat, scope: Scope, xs: seq<Span>, n: nat)
    requires n <= |xs|
  {
    && Placed(earlier, s, s', resource, scope)
    && (forall k :: k in s'.byScope <==> k in s.byScope || KeyAmong(h, scope, xs, n, k))
    && (forall i :: 0 <= i < n ==> Holds(s', ScopeKey(h, xs[i].trace, scope), xs[i]))
  }

  lemma OneMorePlaced(h: Hashes, earlier: nat, s: State, before: State, after: State, resource: nat, scope: Scope, xs: seq<Span>, n: nat)
    requires 0 < n <= |xs| && SpansPlaced(h, earlier, s, before, resource, scope, xs, n - 1)
    requires Placed(earlier, before, after, resource, scope) && Holds(after, ScopeKey(h, xs[n - 1].trace, scope), xs[n - 1])
    requires after.byScope.Keys == before.byScope.Keys + {ScopeKey(h, xs[n - 1].trace, scope)}
    ensures SpansPlaced(h, earlier, s, after, resource, scope, xs, n)
  {
    PlacedTwice(earlier, s, before, after, resource, scope);
    forall k ensures k in after.byScope <==> k in s.byScope || KeyAmong(h, scope, xs, n, k) {
      KeysGrow(h, scope, xs, n, k);
    }
    forall i | 0 <= i < n ensures Holds(after, ScopeKey(h, xs[i].trace, scope), xs[i]) {
      if i < n - 1 { StillHolds(earlier, before, after, resource, scope, ScopeKey(h, xs[i].trace, scope), xs[i]); }
    }
  }

  lemma KeysGrow(h: Hashes, scope: Scope, xs: seq<Span>, n: nat, key: nat)
    requires 0 < n <= |xs|
    ensures KeyAmong(h, scope, xs, n, key) <==> KeyAmong(h, scope, xs, n - 1, key) || key == ScopeKey(h, xs[n - 1].trace, scope)
  {
  }

  lemma PlaceOne(h: Hashes, earlier: nat, s: State, before: State, resource: nat, scope: Scope, xs: seq<Span>, n: nat)
    requires 0 < n <= |xs| && Shape(before)
    requires SpansPlaced(h, earlier, s, before, resource, scope, xs, n - 1) && Apart(earlier, s)
    ensures SpansPlaced(h, earlier, s, AddSpan(h, before, resource, scope, xs[n - 1]), resource, scope, xs, n)
  {
    StaysApart(earlier, s, before, resource, scope);
    AddPlaces(h, earlier, before, AddSpan(h, before, resource, scope, xs[n - 1]), resource, scope, xs[n - 1]);
    OneMorePlaced(h, earlier, s, before, AddSpan(h, before, resource, scope, xs[n - 1]), resource, scope, xs, n);
  }

  /** The state once the first n spans of a scope are placed. */
  ghost function After(h: Hashes, s: State, resource: nat, scope: Scope, xs: seq<Span>, n: nat): State
    requires n <= |xs| && Shape(s)
  {
    Spans(h, s, resource, scope, xs, n)
  }

  lemma NonePlaced(h: Hashes, earlier: nat, s: State, resource: nat, scope: Scope, xs: seq<Span>)
    requires Shape(s) && earlier <= |s.groups|
    ensures SpansPlaced(h, earlier, s, After(h, s, resource, scope, xs, 0), resource, scope, xs, 0)
  {
  }

  lemma NextPlaced(h: Hashes, earlier: nat, s: State, resource: nat, scope: Scope, xs: seq<Span>, n: nat)
    requires Shape(s) && 0 < n <= |xs| && Apart(earlier, s)
    requires SpansPlaced(h, earlier, s, After(h, s, resource, scope, xs, n - 1), resource, scope, xs, n - 1)
    ensures SpansPlaced(h, earlier, s, After(h, s, resource, scope, xs, n), resource, scope, xs, n)
  {
    SpansNext(h, s, resource, scope, xs, n);
    PlaceOne(h, earlier, s, After(h, s, resource, scope, xs, n - 1), resource, scope, xs, n);
  }

  lemma {:induction false} SpansArePlaced(h: Hashes, earlier: nat, s: State, resource: nat, scope: Scope, xs: seq<Span>, n: nat)
    requires Shape(s) && earlier <= |s.groups| && Apart(earlier, s) && n <= |xs|
    ensures SpansPlaced(h, earlier, s, After(h, s, resource, scope, xs, n), resource, scope, xs, n)
    decreases n
  {
    if n == 0 {
      NonePlaced(h, earlier, s, resource, scope, xs);
    } else {
      SpansArePlaced(h, earlier, s, resource, scope, xs, n - 1);
      assert GroupsGrow(s.groups, After(h, s, resource, scope, xs, n - 1).groups);
      NextPlaced(h, earlier, s, resource, scope, xs, n);
    }
  }

  // ------------------------------------------------------------------- one batch

  /** The group of a key, if it has one, is new in this batch, and has its resource and the key's first scope. */
  ghost predicate GroupOfKey(h: Hashes, base: State, s: State, resource: nat, scopes: seq<ScopeSpans>, n: nat, key: nat)
    requires n <= |scopes|
  {
    && (key in s.byScope <==> FirstScope(h, scopes, n, key).Some?)
    && (key in s.byScope ==>
          && |base.groups| <= s.byScope[key] < |s.groups|
          && s.groups[s.byScope[key]].resource == resource
          && s.groups[s.byScope[key]].scope == FirstScope(h, scopes, n, key).value)
  }

  predicate HoldsScope(h: Hashes, s: State, ss: ScopeSpans) {
    forall x :: x in ss.spans ==> Holds(s, ScopeKey(h, x.trace, ss.scope), x)
  }

  ghost predicate ScopesPlaced(h: Hashes, base: State, s: State, resource: nat, scopes: seq<ScopeSpans>, n: nat)
    requires n <= |scopes|
  {
    && |base.groups| <= |s.groups| && s.groups[..|base.groups|] == base.groups
    && (forall key :: GroupOfKey(h, base, s, resource, scopes, n, key))
    && (forall i :: 0 <= i < n ==> HoldsScope(h, s, scopes[i]))
  }

  lemma KeysOfScope(h: Hashes, earlier: nat, s: State, s': State, resource: nat, ss: ScopeSpans, key: nat)
    requires SpansPlaced(h, earlier, s, s', resource, ss.scope, ss.spans, |ss.spans|)
    ensures key in s'.byScope <==> key in s.byScope || HasKey(h, ss, key)
  {
    if HasKey(h, ss, key) {
      var x :| x in ss.spans && ScopeKey(h, x.trace, ss.scope) == key;
      var i :| 0 <= i < |ss.spans| && ss.spans[i] == x;
      assert KeyAmong(h, ss.scope, ss.spans, |ss.spans|, key);
    }
    if KeyAmong(h, ss.scope, ss.spans, |ss.spans|, key) {
      var i :| 0 <= i < |ss.spans| && ScopeKey(h, ss.spans[i].trace, ss.scope) == key;
      assert ss.spans[i] in ss.spans;
    }
  }

  lemma NextKey(h: Hashes, base: State, before: State, after: State, resource: nat, scopes: seq<ScopeSpans>, n: nat, key: nat)
    requires 0 < n <= |scopes| && GroupOfKey(h, base, before, resource, scopes, n - 1, key) && |base.groups| <= |before.groups|
    requires SpansPlaced(h, |base.groups|, before, after, resource, scopes[n - 1].scope, scopes[n - 1].spans, |scopes[n - 1].spans|)
    ensures GroupOfKey(h, base, after, resource, scopes, n, key)
  {
    KeysOfScope(h, |base.groups|, before, after, resource, scopes[n - 1], key);
  }

  lemma NextHolds(h: Hashes, earlier: nat, before: State, after: State, resource: nat, scopes: seq<ScopeSpans>, n: nat, i: nat)
    requires i < n <= |scopes| && (i < n - 1 ==> HoldsScope(h, before, scopes[i]))
    requires SpansPlaced(h, earlier, before, after, resource, scopes[n - 1].scope, scopes[n - 1].spans, |scopes[n - 1].spans|)
    ensures HoldsScope(h, after, scopes[i])
  {
    forall x | x in scopes[i].spans ensures Holds(after, ScopeKey(h, x.trace, scopes[i].scope), x) {
      if i < n - 1 {
        StillHolds(earlier, before, after, resource, scopes[n - 1].scope, ScopeKey(h, x.trace, scopes[i].scope), x);
      } else {
        var k :| 0 <= k < |scopes[i].spans| && scopes[i].spans[k] == x;
      }
    }
  }

  lemma NextScopePlaced(h: Hashes, base: State, before: State, after: State, resource: nat, scopes: seq<ScopeSpans>, n: nat)
    requires 0 < n <= |scopes| && ScopesPlaced(h, base, before, resource, scopes, n - 1)
    requires SpansPlaced(h, |base.groups|, before, after, resource, scopes[n - 1].scope, scopes[n - 1].spans, |scopes[n - 1].spans|)
    ensures ScopesPlaced(h, base, after, resource, scopes, n)
  {
    forall key ensures GroupOfKey(h, base, after, resource, scopes, n, key) {
      assert GroupOfKey(h, base, before, resource, scopes, n - 1, key);
      NextKey(h, base, before, after, resource, scopes, n, key);
    }
    forall i | 0 <= i < n ensures HoldsScope(h, after, scopes[i]) {
      NextHolds(h, |base.groups|, before, after, resource, scopes, n, i);
    }
  }

  lemma PlacedApart(h: Hashes, base: State, s: State, resource: nat, scopes: seq<ScopeSpans>, n: nat)
    requires n <= |scopes| && ScopesPlaced(h, base, s, resource, scopes, n)
    ensures Apart(|base.groups|, s)
  {
    forall k | k in s.byScope ensures |base.groups| <= s.byScope[k] {
      assert GroupOfKey(h, base, s, resource, scopes, n, k);
    }
  }

  /** One more scope of a batch, from the state before to the state after. */
  lemma ScopePlaced(h: Hashes, base: State, before: State, after: State, resource: nat, scopes: seq<ScopeSpans>, n: nat)
    requires Shape(before) && 0 < n <= |scopes| && ScopesPlaced(h, base, before, resource, scopes, n - 1)
    requires after == Spans(h, before, resource, scopes[n - 1].scope, scopes[n - 1].spans, |scopes[n - 1].spans|)
    ensures ScopesPlaced(h, base, after, resource, scopes, n)
  {
    PlacedApart(h, base, before, resource, scopes, n - 1);
    SpansArePlaced(h, |base.groups|, before, resource, scopes[n - 1].scope, scopes[n - 1].spans, |scopes[n - 1].spans|);
    NextScopePlaced(h, base, before, after, resource, scopes, n);
  }

  lemma {:induction false} ScopesArePlaced(h: Hashes, base: State, resource: nat, scopes: seq<ScopeSpans>, n: nat)
    requires n <= |scopes| && Shape(base) && base.byScope == map[]
    ensures ScopesPlaced(h, base, Scopes(h, base, resource, scopes, n), resource, scopes, n)
  {
    if n > 0 {
      ScopesArePlaced(h, base, resource, scopes, n - 1);
      ScopePlaced(h, base, Scopes(h, base, resource, scopes, n - 1), Scopes(h, base, resource, scopes, n), resource, scopes, n);
    }
  }

  // ------------------------------------------------------------------ the request

  ghost predicate BatchNext(h: Hashes, bs: seq<Batch>, ss: seq<State>, m: nat)
    requires m < |bs| && |ss| == |bs| + 1
  {
    Shape(ss[m]) && ss[m + 1] == Scopes(h, ss[m].(byScope := map[]), bs[m].resource, bs[m].scopes, |bs[m].scopes|)
  }

  /** The states before and after each batch. */
  ghost predicate Through(h: Hashes, bs: seq<Batch>, ss: seq<State>) {
    && |ss| == |bs| + 1 && ss[0] == Empty
    && forall m {:trigger BatchNext(h, bs, ss, m)} :: 0 <= m < |bs| ==> BatchNext(h, bs, ss, m)
  }

  lemma {:induction false} ThroughEnds(h: Hashes, bs: seq<Batch>, ss: seq<State>, n: nat)
    requires Through(h, bs, ss) && n <= |bs|
    ensures ss[n] == Batches(h, bs, n)
  {
    if n > 0 {
      ThroughEnds(h, bs, ss, n - 1);
      assert BatchNext(h, bs, ss, n - 1);
    }
  }

  lemma StatesOf(h: Hashes, bs: seq<Batch>) returns (ss: seq<State>)
    ensures Through(h, bs, ss)
  {
    ss := seq(|bs| + 1, m requires 0 <= m <= |bs| => Batches(h, bs, m));
    forall m | 0 <= m < |bs| ensures BatchNext(h, bs, ss, m) {
      BatchesLink(h, bs, ss, m);
    }
  }

  lemma BatchesLink(h: Hashes, bs: seq<Batch>, ss: seq<State>, m: nat)
    requires m < |bs| && |ss| == |bs| + 1 && ss[m] == Batches(h, bs, m) && ss[m + 1] == Batches(h, bs, m + 1)
    ensures BatchNext(h, bs, ss, m)
  {
  }

  lemma BatchPlaced(h: Hashes, bs: seq<Batch>, ss: seq<State>, m: nat)
    requires Through(h, bs, ss) && m < |bs|
    ensures ScopesPlaced(h, ss[m].(byScope := map[]), ss[m + 1], bs[m].resource, bs[m].scopes, |bs[m].scopes|)
  {
    assert BatchNext(h, bs, ss, m);
    ScopesArePlaced(h, ss[m].(byScope := map[]), bs[m].resource, bs[m].scopes, |bs[m].scopes|);
  }

  /** Later batches leave the groups of earlier ones as they are. */
  lemma {:induction false} GroupsStay(h: Hashes, bs: seq<Batch>, ss: seq<State>, m: nat, n: nat)
    requires Through(h, bs, ss) && m <= n <= |bs|
    ensures ss[m].groups <= ss[n].groups
    decreases n
  {
    if m < n {
      GroupsStay(h, bs, ss, m, n - 1);
      BatchPlaced(h, bs, ss, n - 1);
    }
  }

  /** A span ends in its batch's group for its key, which has the batch's resource and the scope the key came under first. */
  lemma {:induction false} SpanIsInItsGroup(h: Hashes, bs: seq<Batch>, ss: seq<State>, m: nat, i: nat, x: Span)
    requires Through(h, bs, ss) && m < |bs| && i < |bs[m].scopes| && x in bs[m].scopes[i].spans
    ensures var key := ScopeKey(h, x.trace, bs[m].scopes[i].scope);
            var groups := ss[|bs|].groups;
            && key in ss[m + 1].byScope
            && var g := ss[m + 1].byScope[key];
               && g < |groups| && x in groups[g].spans && groups[g].resource == bs[m].resource
               && Some(groups[g].scope) == FirstScope(h, bs[m].scopes, |bs[m].scopes|, key)
  {
    var key := ScopeKey(h, x.trace, bs[m].scopes[i].scope);
    var s := ss[m + 1];
    BatchPlaced(h, bs, ss, m);
    GroupsStay(h, bs, ss, m + 1, |bs|);
    assert HoldsScope(h, s, bs[m].scopes[i]);
    assert Holds(s, key, x);
    assert GroupOfKey(h, ss[m].(byScope := map[]), s, bs[m].resource, bs[m].scopes, |bs[m].scopes|, key);
  }

  /** In the result the span's group, which its batch gathered under its key, has the scope it came in with. */
  ghost predicate UnderOwnScope(h: Hashes, bs: seq<Batch>, ss: seq<State>, m: nat, i: nat, x: Span)
    requires |ss| == |bs| + 1 && m < |bs| && i < |bs[m].scopes|
  {
    var key := ScopeKey(h, x.trace, bs[m].scopes[i].scope);
    && key in ss[m + 1].byScope && ss[m + 1].byScope[key] < |ss[|bs|].groups|
    && ss[|bs|].groups[ss[m + 1].byScope[key]].scope == bs[m].scopes[i].scope
  }

  /** A span comes out under its own scope exactly if that is the first scope of its key in the batch. */
  lemma {:induction false} OwnScopeExactly(h: Hashes, bs: seq<Batch>, ss: seq<State>, m: nat, i: nat, x: Span)
    requires Through(h, bs, ss) && m < |bs| && i < |bs[m].scopes| && x in bs[m].scopes[i].spans
    ensures var scope := bs[m].scopes[i].scope;
            UnderOwnScope(h, bs, ss, m, i, x) <==> FirstScope(h, bs[m].scopes, |bs[m].scopes|, ScopeKey(h, x.trace, scope)) == Some(scope)
    ensures ss[|bs|] == Batches(h, bs, |bs|)
  {
    SpanIsInItsGroup(h, bs, ss, m, i, x);
    ThroughEnds(h, bs, ss, |bs|);
  }

  /** An incremental hash sees only the name and version run together, so these scopes have one key. */
  lemma RunTogether(h: Hashes, id: TraceId, a: Scope, b: Scope)
    requires forall k, x, y :: h.add(h.add(k, x), y) == h.add(k, x + y)
    requires a.Scope? && b.Scope? && a.name + a.version == b.name + b.version
    ensures ScopeKey(h, id, a) == ScopeKey(h, id, b)
  {
    assert h.add(h.add(h.trace(id), a.name), a.version) == h.add(h.trace(id), a.name + a.version);
  }

  /** For instance: two scopes that differ in an attribute only, and the second's span comes out under the first. */
  lemma AttributesAreMerged(h: Hashes, resource: nat, x: Span, y: Span, name: string, version: string, a: nat, b: nat, ss: seq<State>)
    requires x.trace == y.trace && a != b
    requires Through(h, [Batch(resource, [ScopeSpans(Scope(name, version, a), [x]), ScopeSpans(Scope(name, version, b), [y])])], ss)
    ensures var bs := [Batch(resource, [ScopeSpans(Scope(name, version, a), [x]), ScopeSpans(Scope(name, version, b), [y])])];
            UnderOwnScope(h, bs, ss, 0, 0, x) && !UnderOwnScope(h, bs, ss, 0, 1, y)
  {
    var scopes := [ScopeSpans(Scope(name, version, a), [x]), ScopeSpans(Scope(name, version, b), [y])];
    var bs := [Batch(resource, scopes)];
    var key := ScopeKey(h, x.trace, Scope(name, version, a));
    assert x in scopes[0].spans && y in scopes[1].spans;
    assert HasKey(h, scopes[0], key);
    assert FirstScope(h, scopes, 1, key) == Some(Scope(name, version, a));
    assert FirstScope(h, scopes, 2, key) == Some(Scope(name, version, a));
    OwnScopeExactly(h, bs, ss, 0, 0, x);
    OwnScopeExactly(h, bs, ss, 0, 1, y);
  }
}
