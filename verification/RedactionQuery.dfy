/**
 The query subset a redaction accepts, and what its members mean. Evaluation follows the TraceQL
 engine: types are compared before values, a missing attribute is nil, and the engine may skip the
 right operand or exchange the two operands of an expression as it learns which is cheaper.
 */
module RedactionQuery {

  datatype Scope = Resource | Span | Event | Link | Instrumentation | Unscoped

  datatype Attribute = Attribute(scope: Scope, parent: bool, name: string)

  datatype Static =
    | Nil | Int(i: int) | Float(r: real) | Str(s: string) | Bool(b: bool) | Duration(i: int) | Status(i: int) | Kind(i: int)
    | IntArray(ints: seq<int>) | FloatArray(reals: seq<real>) | StrArray(strs: seq<string>) | BoolArray(bools: seq<bool>)

  /** `Other` stands for every operator the subset excludes besides the ones named. */
  datatype Op = And | Or | Equal | NotEqual | Other

  datatype Expr =
    | Attr(a: Attribute)
    | Literal(v: Static)
    | Binary(op: Op, lhs: Expr, rhs: Expr)
    | Not(e: Expr)

  // ---------------------------------------------------------------- validation

  datatype Error = NotBinary | OperatorNotAllowed | NotAComparison | NotScoped | ParentScoped

  datatype Verdict = Accepted | Rejected(error: Error)

  /** validateRedactionComparison. */
  function ValidateComparison(lhs: Expr, rhs: Expr): Verdict {
    if (lhs.Attr? && rhs.Literal?) || (rhs.Attr? && lhs.Literal?)
    then
      var a := if lhs.Attr? then lhs.a else rhs.a;
      if a.scope != Resource && a.scope != Span then Rejected(NotScoped)
      else if a.parent then Rejected(ParentScoped)
      else Accepted
    else Rejected(NotAComparison)
  }

  /** validateRedactionExpr. */
  function Validate(e: Expr): Verdict {
    if !e.Binary? then Rejected(NotBinary)
    else
      match e.op
      case And => if Validate(e.lhs).Rejected? then Validate(e.lhs) else Validate(e.rhs)
      case Or => if Validate(e.lhs).Rejected? then Validate(e.lhs) else Validate(e.rhs)
      case Equal => ValidateComparison(e.lhs, e.rhs)
      case _ => Rejected(OperatorNotAllowed)
  }

  /** What a query asks for, below all its conjunctions and disjunctions. */
  function Leaves(e: Expr): set<Expr> {
    if e.Binary? && (e.op == And || e.op == Or) then Leaves(e.lhs) + Leaves(e.rhs) else {e}
  }

  /** An equality between a literal and a resource or span attribute of the span itself, either way round. */
  predicate IsOwnEquality(e: Expr) {
    && e.Binary? && e.op == Equal
    && ((e.lhs.Attr? && e.rhs.Literal? && IsOwn(e.lhs.a)) || (e.lhs.Literal? && e.rhs.Attr? && IsOwn(e.rhs.a)))
  }

  predicate IsOwn(a: Attribute) {
    !a.parent && (a.scope == Resource || a.scope == Span)
  }

  /** Accepted are exactly the queries that combine such equalities, and nothing else, with && and ||. */
  lemma {:induction false} AcceptedExactly(e: Expr)
    ensures Validate(e) == Accepted <==> forall x :: x in Leaves(e) ==> IsOwnEquality(x)
  {
    if e.Binary? && (e.op == And || e.op == Or) {
      AcceptedExactly(e.lhs);
      AcceptedExactly(e.rhs);
    } else {
      assert e in Leaves(e);
    }
  }

  /** The grammar has no array literals. */
  predicate ScalarLiterals(e: Expr) {
    match e
    case Literal(v) => !IsArray(v)
    case Binary(op, l, r) => ScalarLiterals(l) && ScalarLiterals(r)
    case Not(x) => ScalarLiterals(x)
    case Attr(a) => true
  }

  // ---------------------------------------------------------------- evaluation

  predicate IsArray(v: Static) {
    v.IntArray? || v.FloatArray? || v.StrArray? || v.BoolArray?
  }

  /** A value of an array's element type, or the value itself. */
  function Sample(v: Static): Static {
    match v
    case IntArray(_) => Int(0)
    case FloatArray(_) => Float(0.0)
    case StrArray(_) => Str("")
    case BoolArray(_) => Bool(false)
    case _ => v
  }

  predicate Numeric(v: Static) { v.Int? || v.Float? || v.Duration? }

  predicate SameType(v: Static, w: Static) {
    || (v.Nil? && w.Nil?) || (v.Int? && w.Int?) || (v.Float? && w.Float?) || (v.Str? && w.Str?) || (v.Bool? && w.Bool?)
    || (v.Duration? && w.Duration?) || (v.Status? && w.Status?) || (v.Kind? && w.Kind?)
    || (v.IntArray? && w.IntArray?) || (v.FloatArray? && w.FloatArray?) || (v.StrArray? && w.StrArray?) || (v.BoolArray? && w.BoolArray?)
  }

  predicate ScalarMatch(v: Static, w: Static) {
    SameType(v, w) || (Numeric(v) && Numeric(w)) || v.Nil? || w.Nil?
  }

  /** isMatchingArrayElement. */
  predicate MatchingElement(v: Static, w: Static) {
    (IsArray(v) || IsArray(w)) && ScalarMatch(Sample(v), Sample(w))
  }

  /** isMatchingOperand. */
  predicate MatchingOperand(v: Static, w: Static) {
    ScalarMatch(v, w) || MatchingElement(v, w)
  }

  /** binaryTypeValid for the four operators modelled. */
  predicate OpValid(op: Op, v: Static) {
    match op
    case Equal => true
    case NotEqual => true
    case And => v.Bool? || v.BoolArray?
    case Or => v.Bool? || v.BoolArray?
    case Other => false
  }

  function AsReal(v: Static): real
    requires Numeric(v)
  {
    if v.Float? then v.r else v.i as real
  }

  /** Static.Equals, on operands whose types match: nil equals nothing. */
  predicate Equals(v: Static, w: Static) {
    if v.Nil? || w.Nil? then false
    else if Numeric(v) && Numeric(w) then (if v.Float? || w.Float? then AsReal(v) == AsReal(w) else v.i == w.i)
    else v == w
  }

  predicate ScalarHolds(op: Op, v: Static, w: Static)
    requires op == Equal || op == NotEqual
  {
    && ScalarMatch(v, w)
    && (if op == Equal then Equals(v, w) else !v.Nil? && !w.Nil? && !Equals(v, w))
  }

  function Elements(v: Static): seq<Static>
    requires IsArray(v)
  {
    match v
    case IntArray(xs) => seq(|xs|, i requires 0 <= i < |xs| => Int(xs[i]))
    case FloatArray(xs) => seq(|xs|, i requires 0 <= i < |xs| => Float(xs[i]))
    case StrArray(xs) => seq(|xs|, i requires 0 <= i < |xs| => Str(xs[i]))
    case BoolArray(xs) => seq(|xs|, i requires 0 <= i < |xs| => Bool(xs[i]))
  }

  datatype Value = Ok(v: Static) | Failed

  /** BinaryOperation.execute once both operands have values. */
  function Combine(op: Op, v: Static, w: Static): Value {
    if !MatchingOperand(v, w) || !OpValid(op, v) || !OpValid(op, w) then Ok(Bool(false))
    else if v.Bool? && w.Bool? && (op == And || op == Or) then Ok(Bool(if op == And then v.b && w.b else v.b || w.b))
    else if MatchingElement(v, w) then
      if (IsArray(v) && IsArray(w)) || op == And || op == Or then Failed
      else
        var scalar := if IsArray(v) then w else v;
        var all := Elements(if IsArray(v) then v else w);
        if op == NotEqual then Ok(Bool(forall x :: x in all ==> ScalarHolds(op, scalar, x)))
        else Ok(Bool(exists x :: x in all && ScalarHolds(op, scalar, x)))
    else if op == Equal || op == NotEqual then Ok(Bool(ScalarHolds(op, v, w)))
    else Failed
  }

  type Attributes = map<string, Static>

  /** A span with its resource; `elsewhere` is what parents, events, links and the rest would answer. */
  datatype SpanData = SpanData(resource: Attributes, span: Attributes, elsewhere: map<Attribute, Static>)

  /** AttributeFor, nil when there is none. */
  function Lookup(s: SpanData, a: Attribute): Static {
    if a.scope == Resource && !a.parent then (if a.name in s.resource then s.resource[a.name] else Nil)
    else if a.scope == Span && !a.parent then (if a.name in s.span then s.span[a.name] else Nil)
    else if a in s.elsewhere then s.elsewhere[a]
    else Nil
  }

  /** `lazy` says, for each operator node, whether the engine has stopped sampling there and may skip the right operand. */
  function Exec(e: Expr, s: SpanData, lazy: Expr -> bool): Value {
    match e
    case Attr(a) => Ok(Lookup(s, a))
    case Literal(v) => Ok(v)
    case Not(x) =>
      var v := Exec(x, s, lazy);
      if v.Ok? && v.v.Bool? then Ok(Bool(!v.v.b)) else Failed
    case Binary(op, l, r) =>
      var v := Exec(l, s, lazy);
      if v.Failed? then Failed
      else if lazy(e) && v.v.Bool? && op == And && !v.v.b then Ok(Bool(false))
      else if lazy(e) && v.v.Bool? && op == Or && v.v.b then Ok(Bool(true))
      else
        var w := Exec(r, s, lazy);
        if w.Failed? then Failed else Combine(op, v.v, w.v)
  }

  predicate Matches(e: Expr, s: SpanData, lazy: Expr -> bool) {
    Exec(e, s, lazy) == Ok(Bool(true))
  }

  // ---------------------------------------------------- the meaning of the subset

  /** One equality an accepted query asks for. */
  datatype Comparison = Comparison(a: Attribute, v: Static)

  predicate Holds(c: Comparison, s: SpanData) {
    Combine(Equal, Lookup(s, c.a), c.v) == Ok(Bool(true))
  }

  /** An accepted query as alternatives, each a list of comparisons that must all hold. */
  function Clauses(e: Expr): seq<seq<Comparison>>
    requires Validate(e) == Accepted
  {
    if e.op == And then Cross(Clauses(e.lhs), Clauses(e.rhs))
    else if e.op == Or then Clauses(e.lhs) + Clauses(e.rhs)
    else [[if e.lhs.Attr? then Comparison(e.lhs.a, e.rhs.v) else Comparison(e.rhs.a, e.lhs.v)]]
  }

  function Cross(xs: seq<seq<Comparison>>, ys: seq<seq<Comparison>>): seq<seq<Comparison>> {
    if |xs| == 0 then [] else Prefixed(xs[0], ys) + Cross(xs[1..], ys)
  }

  function Prefixed(x: seq<Comparison>, ys: seq<seq<Comparison>>): (r: seq<seq<Comparison>>)
    ensures |r| == |ys|
    ensures forall i :: 0 <= i < |ys| ==> r[i] == x + ys[i]
  {
    seq(|ys|, i requires 0 <= i < |ys| => x + ys[i])
  }

  predicate ClauseHolds(clause: seq<Comparison>, s: SpanData) {
    forall c :: c in clause ==> Holds(c, s)
  }

  predicate SomeHolds(cs: seq<seq<Comparison>>, s: SpanData) {
    exists i :: 0 <= i < |cs| && ClauseHolds(cs[i], s)
  }

  lemma SomeHoldsConcat(xs: seq<seq<Comparison>>, ys: seq<seq<Comparison>>, s: SpanData)
    ensures SomeHolds(xs + ys, s) <==> SomeHolds(xs, s) || SomeHolds(ys, s)
  {
    if SomeHolds(xs, s) {
      var i :| 0 <= i < |xs| && ClauseHolds(xs[i], s);
      assert (xs + ys)[i] == xs[i];
    }
    if SomeHolds(ys, s) {
      var i :| 0 <= i < |ys| && ClauseHolds(ys[i], s);
      assert (xs + ys)[|xs| + i] == ys[i];
    }
  }

  lemma SomeHoldsPrefixed(x: seq<Comparison>, ys: seq<seq<Comparison>>, s: SpanData)
    ensures SomeHolds(Prefixed(x, ys), s) <==> ClauseHolds(x, s) && SomeHolds(ys, s)
  {
    forall i | 0 <= i < |ys| ensures ClauseHolds(Prefixed(x, ys)[i], s) <==> ClauseHolds(x, s) && ClauseHolds(ys[i], s) {
      assert forall c :: c in x + ys[i] <==> c in x || c in ys[i];
    }
    if ClauseHolds(x, s) && SomeHolds(ys, s) {
      var i :| 0 <= i < |ys| && ClauseHolds(ys[i], s);
      assert ClauseHolds(Prefixed(x, ys)[i], s);
    }
  }

  lemma {:induction false} SomeHoldsCross(xs: seq<seq<Comparison>>, ys: seq<seq<Comparison>>, s: SpanData)
    ensures SomeHolds(Cross(xs, ys), s) <==> SomeHolds(xs, s) && SomeHolds(ys, s)
  {
    if |xs| > 0 {
      SomeHoldsPrefixed(xs[0], ys, s);
      SomeHoldsCross(xs[1..], ys, s);
      SomeHoldsConcat(Prefixed(xs[0], ys), Cross(xs[1..], ys), s);
      SomeHoldsConcat([xs[0]], xs[1..], s);
      assert xs == [xs[0]] + xs[1..];
      assert SomeHolds([xs[0]], s) <==> ClauseHolds(xs[0], s) by {
        assert [xs[0]][0] == xs[0];
      }
    }
  }

  lemma ScalarSymmetric(v: Static, w: Static)
    ensures ScalarMatch(v, w) == ScalarMatch(w, v) && Equals(v, w) == Equals(w, v)
  {
  }

  /** Which side the attribute is on does not matter. */
  lemma CombineSymmetric(v: Static, w: Static)
    requires !IsArray(w)
    ensures Combine(Equal, v, w) == Combine(Equal, w, v)
  {
    ScalarSymmetric(v, w);
    ScalarSymmetric(Sample(v), Sample(w));
  }

  /**
   An accepted query never fails and always answers a boolean, and it matches a span exactly when all
   the comparisons of one of its clauses hold, wherever the engine skips operands.
   */
  lemma {:induction false} MeaningIsClauses(e: Expr, s: SpanData, lazy: Expr -> bool)
    requires Validate(e) == Accepted && ScalarLiterals(e)
    ensures Exec(e, s, lazy) == Ok(Bool(SomeHolds(Clauses(e), s)))
  {
    if e.op == And {
      MeaningIsClauses(e.lhs, s, lazy);
      MeaningIsClauses(e.rhs, s, lazy);
      SomeHoldsCross(Clauses(e.lhs), Clauses(e.rhs), s);
    } else if e.op == Or {
      MeaningIsClauses(e.lhs, s, lazy);
      MeaningIsClauses(e.rhs, s, lazy);
      SomeHoldsConcat(Clauses(e.lhs), Clauses(e.rhs), s);
    } else {
      LeafMeaning(e, s, lazy);
    }
  }

  lemma LeafMeaning(e: Expr, s: SpanData, lazy: Expr -> bool)
    requires Validate(e) == Accepted && ScalarLiterals(e) && e.op == Equal
    ensures Exec(e, s, lazy) == Ok(Bool(SomeHolds(Clauses(e), s)))
  {
    var c := Clauses(e)[0][0];
    assert Clauses(e) == [[c]];
    assert SomeHolds([[c]], s) <==> Holds(c, s) by {
      assert ClauseHolds([[c]][0], s) <==> Holds(c, s);
    }
    CombineSymmetric(Lookup(s, c.a), c.v);
    EqualIsBoolean(Lookup(s, c.a), c.v);
  }

  lemma EqualIsBoolean(v: Static, w: Static)
    requires !IsArray(w)
    ensures Combine(Equal, v, w).Ok? && Combine(Equal, v, w).v.Bool?
  {
  }

  // -------------------------------------------------------- what follows from it

  lemma {:induction false} ClausesNonempty(e: Expr, i: nat)
    requires Validate(e) == Accepted && i < |Clauses(e)|
    ensures |Clauses(e)[i]| > 0
  {
    if e.op == And {
      forall k | 0 <= k < |Clauses(e.lhs)| ensures |Clauses(e.lhs)[k]| > 0 { ClausesNonempty(e.lhs, k); }
      CrossNonempty(Clauses(e.lhs), Clauses(e.rhs), i);
    } else if e.op == Or {
      if i < |Clauses(e.lhs)| { ClausesNonempty(e.lhs, i); } else { ClausesNonempty(e.rhs, i - |Clauses(e.lhs)|); }
    }
  }

  lemma {:induction false} CrossNonempty(xs: seq<seq<Comparison>>, ys: seq<seq<Comparison>>, i: nat)
    requires i < |Cross(xs, ys)| && forall k :: 0 <= k < |xs| ==> |xs[k]| > 0
    ensures |Cross(xs, ys)[i]| > 0
  {
    if i >= |ys| { CrossNonempty(xs[1..], ys, i - |ys|); }
  }

  /** The attributes a query names. */
  function Named(e: Expr): set<Attribute> {
    match e
    case Attr(a) => {a}
    case Literal(v) => {}
    case Binary(op, l, r) => Named(l) + Named(r)
    case Not(x) => Named(x)
  }

  /** All comparisons of all clauses are on named attributes, and those are the span's own. */
  lemma {:induction false} ClausesNamed(e: Expr, i: nat, c: Comparison)
    requires Validate(e) == Accepted && i < |Clauses(e)| && c in Clauses(e)[i]
    ensures c.a in Named(e) && !c.a.parent && (c.a.scope == Resource || c.a.scope == Span)
  {
    if e.op == And {
      var (x, y) := CrossSplit(Clauses(e.lhs), Clauses(e.rhs), i);
      if c in Clauses(e.lhs)[x] { ClausesNamed(e.lhs, x, c); } else { ClausesNamed(e.rhs, y, c); }
    } else if e.op == Or {
      if i < |Clauses(e.lhs)| { ClausesNamed(e.lhs, i, c); } else { ClausesNamed(e.rhs, i - |Clauses(e.lhs)|, c); }
    }
  }

  /** Which two clauses a clause of the cross product joins. */
  function CrossSplit(xs: seq<seq<Comparison>>, ys: seq<seq<Comparison>>, i: nat): (p: (nat, nat))
    requires i < |Cross(xs, ys)|
    ensures p.0 < |xs| && p.1 < |ys| && Cross(xs, ys)[i] == xs[p.0] + ys[p.1]
  {
    if i < |ys| then (0, i)
    else
      var p := CrossSplit(xs[1..], ys, i - |ys|);
      (p.0 + 1, p.1)
  }

  /** s' carries everything s does, with the same values, and possibly more. */
  predicate Extends(s: SpanData, s': SpanData) {
    && (forall k :: k in s.resource ==> k in s'.resource && s'.resource[k] == s.resource[k])
    && (forall k :: k in s.span ==> k in s'.span && s'.span[k] == s.span[k])
  }

  lemma NilNeverEqual(w: Static)
    requires !IsArray(w)
    ensures Combine(Equal, Nil, w) == Ok(Bool(false))
  {
  }

  lemma {:induction false} ClausesScalar(e: Expr, i: nat, c: Comparison)
    requires Validate(e) == Accepted && ScalarLiterals(e) && i < |Clauses(e)| && c in Clauses(e)[i]
    ensures !IsArray(c.v)
  {
    if e.op == And {
      var (x, y) := CrossSplit(Clauses(e.lhs), Clauses(e.rhs), i);
      if c in Clauses(e.lhs)[x] { ClausesScalar(e.lhs, x, c); } else { ClausesScalar(e.rhs, y, c); }
    } else if e.op == Or {
      if i < |Clauses(e.lhs)| { ClausesScalar(e.lhs, i, c); } else { ClausesScalar(e.rhs, i - |Clauses(e.lhs)|, c); }
    }
  }

  /** A comparison that holds does so on an attribute the span has. */
  lemma HoldsIsPresent(c: Comparison, s: SpanData)
    requires Holds(c, s) && !IsArray(c.v)
    ensures Lookup(s, c.a) != Nil
  {
    if Lookup(s, c.a) == Nil { NilNeverEqual(c.v); }
  }

  /** Adding attributes to a span never makes an accepted query stop matching it. */
  lemma AddingAttributesKeepsMatch(e: Expr, s: SpanData, s': SpanData, lazy: Expr -> bool, lazy': Expr -> bool)
    requires Validate(e) == Accepted && ScalarLiterals(e) && Extends(s, s') && Matches(e, s, lazy)
    ensures Matches(e, s', lazy')
  {
    MeaningIsClauses(e, s, lazy);
    MeaningIsClauses(e, s', lazy');
    var i :| 0 <= i < |Clauses(e)| && ClauseHolds(Clauses(e)[i], s);
    forall c | c in Clauses(e)[i] ensures Holds(c, s') {
      ClausesNamed(e, i, c);
      ClausesScalar(e, i, c);
      HoldsIsPresent(c, s);
    }
    assert ClauseHolds(Clauses(e)[i], s');
  }

  /** A span that has none of the attributes a query names is never matched. */
  lemma NoNamedAttributeNoMatch(e: Expr, s: SpanData, lazy: Expr -> bool)
    requires Validate(e) == Accepted && ScalarLiterals(e)
    requires forall a :: a in Named(e) ==> Lookup(s, a) == Nil
    ensures !Matches(e, s, lazy)
  {
    MeaningIsClauses(e, s, lazy);
    forall i | 0 <= i < |Clauses(e)| ensures !ClauseHolds(Clauses(e)[i], s) {
      ClausesNonempty(e, i);
      var c := Clauses(e)[i][0];
      ClausesNamed(e, i, c);
      ClausesScalar(e, i, c);
      if Holds(c, s) { HoldsIsPresent(c, s); }
    }
  }

  /** Only the span's own values of the named attributes matter, whatever order and shortcuts evaluation takes. */
  lemma OnlyOwnNamedAttributesMatter(e: Expr, s: SpanData, s': SpanData, lazy: Expr -> bool, lazy': Expr -> bool)
    requires Validate(e) == Accepted && ScalarLiterals(e)
    requires forall a :: a in Named(e) && !a.parent && (a.scope == Resource || a.scope == Span) ==> Lookup(s, a) == Lookup(s', a)
    ensures Exec(e, s, lazy) == Exec(e, s', lazy')
  {
    MeaningIsClauses(e, s, lazy);
    MeaningIsClauses(e, s', lazy');
    forall i | 0 <= i < |Clauses(e)| ensures ClauseHolds(Clauses(e)[i], s) <==> ClauseHolds(Clauses(e)[i], s') {
      forall c | c in Clauses(e)[i] ensures Holds(c, s) <==> Holds(c, s') {
        ClausesNamed(e, i, c);
      }
    }
    assert SomeHolds(Clauses(e), s) <==> SomeHolds(Clauses(e), s');
  }

  /** e' is e with the operands of some && and || nodes exchanged, as the branch predictor does. */
  predicate Swapped(e: Expr, e': Expr) {
    if e.Binary? && e'.Binary? && e.op == e'.op && (e.op == And || e.op == Or)
    then (Swapped(e.lhs, e'.lhs) && Swapped(e.rhs, e'.rhs)) || (Swapped(e.lhs, e'.rhs) && Swapped(e.rhs, e'.lhs))
    else e == e'
  }

  /** Exchanging operands changes neither acceptance nor meaning. */
  lemma {:induction false} SwappingIsHarmless(e: Expr, e': Expr, s: SpanData, lazy: Expr -> bool, lazy': Expr -> bool)
    requires Validate(e) == Accepted && ScalarLiterals(e) && Swapped(e, e')
    ensures Validate(e') == Accepted && ScalarLiterals(e') && Exec(e, s, lazy) == Exec(e', s, lazy')
    decreases e
  {
    if e.op == And || e.op == Or {
      MeaningIsClauses(e.lhs, s, lazy);
      MeaningIsClauses(e.rhs, s, lazy);
      if Swapped(e.lhs, e'.lhs) && Swapped(e.rhs, e'.rhs) {
        SwappingIsHarmless(e.lhs, e'.lhs, s, lazy, lazy');
        SwappingIsHarmless(e.rhs, e'.rhs, s, lazy, lazy');
      } else {
        SwappingIsHarmless(e.lhs, e'.rhs, s, lazy, lazy');
        SwappingIsHarmless(e.rhs, e'.lhs, s, lazy, lazy');
      }
    } else {
      MeaningIsClauses(e, s, lazy);
      MeaningIsClauses(e, s, lazy');
    }
  }

  // ------------------------------------------------------- why the rest is refused

  const Own := Attribute(Resource, false, "a")

  /** Negation un-matches a span that gains an attribute. */
  lemma NegationIsNotMonotone(lazy: Expr -> bool)
    ensures var e := Not(Binary(Equal, Attr(Own), Literal(Str("x"))));
            var s := SpanData(map[], map[], map[]);
            var s' := SpanData(map["a" := Str("x")], map[], map[]);
            Validate(e).Rejected? && Extends(s, s') && Matches(e, s, lazy) && !Matches(e, s', lazy)
  {
    NilNeverEqual(Str("x"));
  }

  /** A parent-scoped attribute answers for another span. */
  lemma ParentScopeIsNotLocal(lazy: Expr -> bool)
    ensures var a := Attribute(Resource, true, "a");
            var e := Binary(Equal, Attr(a), Literal(Str("x")));
            var s := SpanData(map[], map[], map[]);
            var s' := s.(elsewhere := map[a := Str("x")]);
            Validate(e) == Rejected(ParentScoped) && !Matches(e, s, lazy) && Matches(e, s', lazy)
  {
    NilNeverEqual(Str("x"));
  }
}
