/** Terms, predicates, rules and checks as message trees, both ways (converters_v2.go). The kinds of
    operators are the same enumeration on both sides. */
module Messages {
  import opened Wrappers
  import opened Types
  import opened Expressions

  type NTerm = Term<nat>

  datatype PTerm =
    | PVariable(variable: nat)
    | PInteger(integer: int64)
    | PString(symbol: nat)
    | PDate(date: uint64)
    | PBytes(bytes: seq<bv8>)
    | PBool(value: bool)
    | PSet(elems: seq<PTerm>)
    | PMissing

  datatype PPredicate = PPredicate(name: nat, terms: seq<PTerm>)

  datatype POp = PValue(term: PTerm) | PUnary(u: UnaryOp) | PBinary(b: BinaryOp) | PNoOp

  datatype PScope = PScopeType(authority: bool) | PPublicKey(index: uint64) | PNoScope

  datatype PRule = PRule(head: PPredicate, body: seq<PPredicate>, expressions: seq<seq<POp>>, scopes: seq<PScope>)

  /** No kind stands for the commonest one. */
  datatype PCheck = PCheck(queries: seq<PRule>, kind: Option<CheckKind>)

  // ---- Reading ----

  /** Converts every element; None if one of them cannot be converted. */
  function MapAll<A, B>(f: A -> Option<B>, xs: seq<A>): (r: Option<seq<B>>)
    ensures r.Some? ==> |r.value| == |xs|
    decreases |xs|
  {
    if xs == [] then Some([])
    else
      match (MapAll(f, xs[..|xs| - 1]), f(xs[|xs| - 1]))
      case (Some(ys), Some(y)) => Some(ys + [y])
      case _ => None
  }

  function DecodeScalar(p: PTerm): Option<NTerm>
    requires !p.PSet?
  {
    match p
    case PVariable(v) => Some(Variable(v))
    case PInteger(i) => Some(Integer(i))
    case PString(s) => Some(Str(s))
    case PDate(d) => Some(Date(d))
    case PBytes(b) => Some(Bytes(b))
    case PBool(b) => Some(Bool(b))
    case PMissing => None
  }

  /** The kind of content of a message. */
  function ContentOf(p: PTerm): nat {
    match p
    case PVariable(_) => 0
    case PInteger(_) => 1
    case PString(_) => 2
    case PDate(_) => 3
    case PBytes(_) => 4
    case PBool(_) => 5
    case PSet(_) => 6
    case PMissing => 7
  }

  /** Elements of a set are all of one kind, and no variables, sets or blanks. */
  predicate Elements(ps: seq<PTerm>) {
    && (forall p :: p in ps ==> !p.PVariable? && !p.PSet? && !p.PMissing?)
    && (forall p :: p in ps ==> ContentOf(p) == ContentOf(ps[0]))
  }

  /** protoIDToTokenIDV2. */
  function DecodeTerm(p: PTerm): Option<NTerm> {
    if p.PSet? then
      if Elements(p.elems) then
        Some(Set(set e | e in p.elems && !e.PSet? && DecodeScalar(e).Some? :: DecodeScalar(e).value))
      else None
    else DecodeScalar(p)
  }

  function DecodePredicate(p: PPredicate): Option<Predicate<nat>> {
    match MapAll(DecodeTerm, p.terms)
    case None => None
    case Some(ts) => Some(Predicate(p.name, ts))
  }

  function DecodeOp(p: POp): Option<Op<nat>> {
    match p
    case PValue(t) => (match DecodeTerm(t) case None => None case Some(x) => Some(Value(x)))
    case PUnary(u) => Some(Unary(u))
    case PBinary(b) => Some(Binary(b))
    case PNoOp => None
  }

  function DecodeExpression(ops: seq<POp>): Option<Expression<nat>> { MapAll(DecodeOp, ops) }

  function DecodeScope(p: PScope): Option<Scope> {
    match p
    case PScopeType(authority) => Some(if authority then AuthorityScope else PreviousScope)
    case PPublicKey(i) => Some(PublicKeyScope(i))
    case PNoScope => None
  }

  /** protoRuleToTokenRuleV2. */
  function DecodeRule(p: PRule): Option<Rule<nat>> {
    match (DecodePredicate(p.head), MapAll(DecodePredicate, p.body), MapAll(DecodeExpression, p.expressions),
           MapAll(DecodeScope, p.scopes))
    case (Some(head), Some(body), Some(exprs), Some(scopes)) => Some(Rule(head, body, exprs, scopes))
    case _ => None
  }

  function DecodeCheck(p: PCheck): Option<Check<nat>> {
    match MapAll(DecodeRule, p.queries)
    case None => None
    case Some(queries) => Some(Check(queries, if p.kind.None? then CheckOne else p.kind.value))
  }

  // ---- Writing ----

  /** Sets can only be written when their elements are all of one type, and no variables or sets. */
  predicate EncodableTerm<S(==)>(x: Term<S>) {
    x.Set? ==>
      && (forall e :: e in x.elems ==> !e.Variable? && !e.Set?)
      && (forall e, f :: e in x.elems && f in x.elems ==> TypeOf(e) == TypeOf(f))
  }

  predicate EncodableTerms<S(==)>(xs: seq<Term<S>>) { forall i :: 0 <= i < |xs| ==> EncodableTerm(xs[i]) }

  predicate EncodablePredicates<S(==)>(ps: seq<Predicate<S>>) {
    forall i :: 0 <= i < |ps| ==> EncodableTerms(ps[i].terms)
  }

  predicate EncodableOp<S(==)>(op: Op<S>) { op.Value? ==> EncodableTerm(op.term) }

  predicate EncodableExpression<S(==)>(e: Expression<S>) { forall i :: 0 <= i < |e| ==> EncodableOp(e[i]) }

  predicate EncodableExpressions<S(==)>(es: seq<Expression<S>>) {
    forall i :: 0 <= i < |es| ==> EncodableExpression(es[i])
  }

  predicate EncodableRule<S(==)>(r: Rule<S>) {
    EncodableTerms(r.head.terms) && EncodablePredicates(r.body) && EncodableExpressions(r.expressions)
  }

  predicate EncodableRules<S(==)>(rs: seq<Rule<S>>) { forall i :: 0 <= i < |rs| ==> EncodableRule(rs[i]) }

  function EncodeScalar(x: NTerm): PTerm
    requires !x.Set?
  {
    match x
    case Variable(v) => PVariable(v)
    case Integer(i) => PInteger(i)
    case Str(s) => PString(s)
    case Date(d) => PDate(d)
    case Bytes(b) => PBytes(b)
    case Bool(b) => PBool(b)
  }

  predicate Written(kind: nat, e: NTerm, ps: seq<PTerm>) {
    TypeOf(e) == kind && !e.Set? && !e.Variable? && EncodeScalar(e) in ps
  }

  predicate Read(kind: nat, p: PTerm, es: set<NTerm>) {
    !p.PSet? && ContentOf(p) == kind && DecodeScalar(p).Some? && DecodeScalar(p).value in es
  }

  /** The list holds exactly the elements, all of one kind. */
  ghost predicate Transcript(kind: nat, es: set<NTerm>, ps: seq<PTerm>) {
    && (forall e :: e in es ==> Written(kind, e, ps))
    && (forall p :: p in ps ==> Read(kind, p, es))
  }

  lemma OneMoreElement(kind: nat, es: set<NTerm>, ps: seq<PTerm>, e: NTerm)
    requires Transcript(kind, es, ps) && TypeOf(e) == kind && !e.Set? && !e.Variable?
    ensures Transcript(kind, es + {e}, ps + [EncodeScalar(e)])
  {
  }

  lemma TranscriptElements(kind: nat, es: set<NTerm>, ps: seq<PTerm>)
    requires Transcript(kind, es, ps)
    ensures Elements(ps)
  {
    forall p | p in ps
      ensures ContentOf(p) == kind && !p.PVariable? && !p.PSet? && !p.PMissing?
    {
      assert Read(kind, p, es);
      assert Written(kind, DecodeScalar(p).value, ps);
    }
    hide ContentOf, Read, Written;
    if ps != [] {
      assert ps[0] in ps;
    }
  }

  lemma WrittenSet(x: NTerm, kind: nat, ps: seq<PTerm>)
    requires x.Set? && Transcript(kind, x.elems, ps)
    ensures DecodeTerm(PSet(ps)) == Some(x) && EncodableTerm(x)
  {
    forall e | e in x.elems
      ensures TypeOf(e) == kind && !e.Set? && !e.Variable?
    {
      assert Written(kind, e, ps);
    }
    TranscriptElements(kind, x.elems, ps);
    hide TypeOf, ContentOf, Elements;
    var read := set e | e in ps && !e.PSet? && DecodeScalar(e).Some? :: DecodeScalar(e).value;
    forall e | e in x.elems
      ensures e in read
    {
      assert Written(kind, e, ps) && DecodeScalar(EncodeScalar(e)) == Some(e);
    }
    assert read == x.elems;
  }

  /** tokenIDToProtoIDV2: None when the term cannot be written. Reading what is written gives the
      term back, in whatever order the elements of a set are written. */
  method EncodeTerm(x: NTerm) returns (r: Option<PTerm>)
    ensures r.Some? <==> EncodableTerm(x)
    ensures r.Some? ==> DecodeTerm(r.value) == Some(x)
  {
    if !x.Set? {
      return Some(EncodeScalar(x));
    }
    if x.elems == {} {
      WrittenSet(x, 0, []);
      return Some(PSet([]));
    }
    var first :| first in x.elems;
    if first.Variable? || first.Set? {
      return None;
    }
    var ps: seq<PTerm>, todo := [], x.elems;
    hide DecodeTerm, Written, Read, Elements;
    assert x.elems - todo == {};
    while todo != {}
      invariant todo <= x.elems && Transcript(TypeOf(first), x.elems - todo, ps)
      decreases todo
    {
      var e :| e in todo;
      if TypeOf(e) != TypeOf(first) {
        assert !EncodableTerm(x);
        return None;
      }
      OneMoreElement(TypeOf(first), x.elems - todo, ps, e);
      ps := ps + [EncodeScalar(e)];
      todo := todo - {e};
      assert x.elems - todo == x.elems - (todo + {e}) + {e};
    }
    assert x.elems - todo == x.elems;
    WrittenSet(x, TypeOf(first), ps);
    r := Some(PSet(ps));
  }

  lemma MapOneMore<A, B>(f: A -> Option<B>, xs: seq<A>, x: A, ys: seq<B>, y: B)
    requires MapAll(f, xs) == Some(ys) && f(x) == Some(y)
    ensures MapAll(f, xs + [x]) == Some(ys + [y])
  {
    var all := xs + [x];
    assert all[..|all| - 1] == xs;
  }

  method EncodeTerms(xs: seq<NTerm>) returns (r: Option<seq<PTerm>>)
    ensures r.Some? <==> EncodableTerms(xs)
    ensures r.Some? ==> MapAll(DecodeTerm, r.value) == Some(xs)
  {
    hide EncodableTerm, DecodeTerm;
    var ps: seq<PTerm> := [];
    for i := 0 to |xs|
      invariant MapAll(DecodeTerm, ps) == Some(xs[..i])
      invariant forall k :: 0 <= k < i ==> EncodableTerm(xs[k])
    {
      var p := EncodeTerm(xs[i]);
      if p.None? {
        return None;
      }
      MapOneMore(DecodeTerm, ps, p.value, xs[..i], xs[i]);
      assert xs[..i + 1] == xs[..i] + [xs[i]];
      ps := ps + [p.value];
    }
    assert xs[..|xs|] == xs;
    r := Some(ps);
  }

  method EncodePredicate(p: Predicate<nat>) returns (r: Option<PPredicate>)
    ensures r.Some? <==> EncodableTerms(p.terms)
    ensures r.Some? ==> DecodePredicate(r.value) == Some(p)
  {
    hide EncodableTerms, DecodeTerm;
    var ts := EncodeTerms(p.terms);
    if ts.None? {
      return None;
    }
    r := Some(PPredicate(p.name, ts.value));
  }

  method EncodePredicates(xs: seq<Predicate<nat>>) returns (r: Option<seq<PPredicate>>)
    ensures r.Some? <==> EncodablePredicates(xs)
    ensures r.Some? ==> MapAll(DecodePredicate, r.value) == Some(xs)
  {
    hide EncodableTerms, DecodePredicate;
    var ps: seq<PPredicate> := [];
    for i := 0 to |xs|
      invariant MapAll(DecodePredicate, ps) == Some(xs[..i])
      invariant forall k :: 0 <= k < i ==> EncodableTerms(xs[k].terms)
    {
      var p := EncodePredicate(xs[i]);
      if p.None? {
        return None;
      }
      MapOneMore(DecodePredicate, ps, p.value, xs[..i], xs[i]);
      assert xs[..i + 1] == xs[..i] + [xs[i]];
      ps := ps + [p.value];
    }
    assert xs[..|xs|] == xs;
    r := Some(ps);
  }

  method EncodeOp(op: Op<nat>) returns (r: Option<POp>)
    ensures r.Some? <==> EncodableOp(op)
    ensures r.Some? ==> DecodeOp(r.value) == Some(op)
  {
    hide EncodableTerm, DecodeTerm;
    match op
    case Value(x) =>
      var t := EncodeTerm(x);
      r := if t.None? then None else Some(PValue(t.value));
    case Unary(u) => r := Some(PUnary(u));
    case Binary(b) => r := Some(PBinary(b));
  }

  method EncodeExpression(xs: Expression<nat>) returns (r: Option<seq<POp>>)
    ensures r.Some? <==> EncodableExpression(xs)
    ensures r.Some? ==> DecodeExpression(r.value) == Some(xs)
  {
    hide EncodableOp, DecodeOp;
    var ps: seq<POp> := [];
    for i := 0 to |xs|
      invariant MapAll(DecodeOp, ps) == Some(xs[..i])
      invariant forall k :: 0 <= k < i ==> EncodableOp(xs[k])
    {
      var p := EncodeOp(xs[i]);
      if p.None? {
        return None;
      }
      MapOneMore(DecodeOp, ps, p.value, xs[..i], xs[i]);
      assert xs[..i + 1] == xs[..i] + [xs[i]];
      ps := ps + [p.value];
    }
    assert xs[..|xs|] == xs;
    r := Some(ps);
  }

  method EncodeExpressions(xs: seq<Expression<nat>>) returns (r: Option<seq<seq<POp>>>)
    ensures r.Some? <==> EncodableExpressions(xs)
    ensures r.Some? ==> MapAll(DecodeExpression, r.value) == Some(xs)
  {
    hide EncodableExpression, DecodeExpression;
    var ps: seq<seq<POp>> := [];
    for i := 0 to |xs|
      invariant MapAll(DecodeExpression, ps) == Some(xs[..i])
      invariant forall k :: 0 <= k < i ==> EncodableExpression(xs[k])
    {
      var p := EncodeExpression(xs[i]);
      if p.None? {
        return None;
      }
      MapOneMore(DecodeExpression, ps, p.value, xs[..i], xs[i]);
      assert xs[..i + 1] == xs[..i] + [xs[i]];
      ps := ps + [p.value];
    }
    assert xs[..|xs|] == xs;
    r := Some(ps);
  }

  function EncodeScope(s: Scope): PScope {
    match s
    case AuthorityScope => PScopeType(true)
    case PreviousScope => PScopeType(false)
    case PublicKeyScope(i) => PPublicKey(i)
  }

  method EncodeScopes(xs: seq<Scope>) returns (ps: seq<PScope>)
    ensures MapAll(DecodeScope, ps) == Some(xs)
  {
    ps := [];
    for i := 0 to |xs|
      invariant MapAll(DecodeScope, ps) == Some(xs[..i])
    {
      MapOneMore(DecodeScope, ps, EncodeScope(xs[i]), xs[..i], xs[i]);
      assert xs[..i + 1] == xs[..i] + [xs[i]];
      ps := ps + [EncodeScope(xs[i])];
    }
    assert xs[..|xs|] == xs;
  }

  /** tokenRuleToProtoRuleV2: the body, the expressions, then the head. */
  method EncodeRule(x: Rule<nat>) returns (r: Option<PRule>)
    ensures r.Some? <==> EncodableRule(x)
    ensures r.Some? ==> DecodeRule(r.value) == Some(x)
  {
    hide EncodableTerms, EncodablePredicates, EncodableExpressions, DecodePredicate, DecodeExpression, DecodeScope,
         MapAll;
    var body := EncodePredicates(x.body);
    if body.None? {
      return None;
    }
    var exprs := EncodeExpressions(x.expressions);
    if exprs.None? {
      return None;
    }
    var head := EncodePredicate(x.head);
    if head.None? {
      return None;
    }
    var scopes := EncodeScopes(x.scopes);
    r := Some(PRule(head.value, body.value, exprs.value, scopes));
  }

  function EncodeKind(kind: CheckKind): Option<CheckKind> {
    match kind
    case CheckAll => Some(CheckAll)
    case CheckReject => Some(CheckReject)
    case CheckOne => None
  }

  /** tokenCheckToProtoCheckV2. */
  method EncodeCheck(c: Check<nat>) returns (r: Option<PCheck>)
    ensures r.Some? <==> EncodableRules(c.queries)
    ensures r.Some? ==> DecodeCheck(r.value) == Some(c)
  {
    hide EncodableRule, DecodeRule;
    var ps: seq<PRule> := [];
    for i := 0 to |c.queries|
      invariant MapAll(DecodeRule, ps) == Some(c.queries[..i])
      invariant forall k :: 0 <= k < i ==> EncodableRule(c.queries[k])
    {
      var p := EncodeRule(c.queries[i]);
      if p.None? {
        return None;
      }
      MapOneMore(DecodeRule, ps, p.value, c.queries[..i], c.queries[i]);
      assert c.queries[..i + 1] == c.queries[..i] + [c.queries[i]];
      ps := ps + [p.value];
    }
    assert c.queries[..|c.queries|] == c.queries;
    r := Some(PCheck(ps, EncodeKind(c.kind)));
  }

  // ---- The forms on the wire ----

  /** What each scalar, scope and kind of check is read from; a kind that is missing is One. */
  lemma Forms(n: nat, key: uint64, queries: seq<Rule<nat>>, ps: seq<PRule>)
    ensures DecodeTerm(PVariable(n)) == Some(Variable(n)) && DecodeTerm(PString(n)) == Some(Str(n))
    ensures DecodeTerm(PMissing) == None && DecodeScope(PNoScope) == None && DecodeOp(PNoOp) == None
    ensures DecodeScope(PScopeType(true)) == Some(AuthorityScope)
    ensures DecodeScope(PScopeType(false)) == Some(PreviousScope)
    ensures DecodeScope(PPublicKey(key)) == Some(PublicKeyScope(key))
    ensures MapAll(DecodeRule, ps) == Some(queries) ==>
              && DecodeCheck(PCheck(ps, None)) == Some(Check(queries, CheckOne))
              && forall kind :: DecodeCheck(PCheck(ps, Some(kind))) == Some(Check(queries, kind))
  {
  }

  /** A written set is read as the set of its elements, if they are scalars of one kind and no variables. */
  lemma SetForm(ps: seq<PTerm>)
    ensures DecodeTerm(PSet(ps)).Some? <==> Elements(ps)
    ensures Elements(ps) ==> forall x :: x in DecodeTerm(PSet(ps)).value.elems <==>
              exists i :: 0 <= i < |ps| && !ps[i].PSet? && DecodeScalar(ps[i]) == Some(x)
  {
    hide Elements, DecodeScalar;
  }
}
