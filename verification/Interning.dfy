/** Terms, predicates and rules whose symbols are table ids: what they stand for (fromDatalog* of
    types.go), and how they are made from named ones (convert and Convert of types.go). */
module Interning {
  import opened Types
  import opened Symbols
  import opened Expressions
  import opened Messages

  type NTerm = Term<nat>
  type STerm = Term<string>

  function ResolveTerm(t: Table, x: NTerm): STerm {
    match x
    case Variable(v) => Variable(StrOf(t, v))
    case Integer(i) => Integer(i)
    case Str(s) => Str(StrOf(t, s))
    case Date(d) => Date(d)
    case Bytes(b) => Bytes(b)
    case Bool(b) => Bool(b)
    case Set(es) => Set(set e | e in es :: ResolveTerm(t, e))
  }

  function ResolveTerms(t: Table, xs: seq<NTerm>): (r: seq<STerm>)
    ensures |r| == |xs| && forall i :: 0 <= i < |xs| ==> r[i] == ResolveTerm(t, xs[i])
  {
    seq(|xs|, i requires 0 <= i < |xs| => ResolveTerm(t, xs[i]))
  }

  function ResolvePredicate(t: Table, p: Predicate<nat>): Predicate<string> {
    Predicate(StrOf(t, p.name), ResolveTerms(t, p.terms))
  }

  function ResolvePredicates(t: Table, ps: seq<Predicate<nat>>): (r: seq<Predicate<string>>)
    ensures |r| == |ps| && forall i :: 0 <= i < |ps| ==> r[i] == ResolvePredicate(t, ps[i])
  {
    seq(|ps|, i requires 0 <= i < |ps| => ResolvePredicate(t, ps[i]))
  }

  function ResolveOp(t: Table, op: Op<nat>): Op<string> {
    match op
    case Value(x) => Value(ResolveTerm(t, x))
    case Unary(u) => Unary(u)
    case Binary(b) => Binary(b)
  }

  function ResolveExpression(t: Table, e: Expression<nat>): (r: Expression<string>)
    ensures |r| == |e| && forall i :: 0 <= i < |e| ==> r[i] == ResolveOp(t, e[i])
  {
    seq(|e|, i requires 0 <= i < |e| => ResolveOp(t, e[i]))
  }

  function ResolveExpressions(t: Table, es: seq<Expression<nat>>): (r: seq<Expression<string>>)
    ensures |r| == |es| && forall i :: 0 <= i < |es| ==> r[i] == ResolveExpression(t, es[i])
  {
    seq(|es|, i requires 0 <= i < |es| => ResolveExpression(t, es[i]))
  }

  function ResolveRule(t: Table, r: Rule<nat>): Rule<string> {
    Rule(ResolvePredicate(t, r.head), ResolvePredicates(t, r.body), ResolveExpressions(t, r.expressions), r.scopes)
  }

  function ResolveRules(t: Table, rs: seq<Rule<nat>>): (r: seq<Rule<string>>)
    ensures |r| == |rs| && forall i :: 0 <= i < |rs| ==> r[i] == ResolveRule(t, rs[i])
  {
    seq(|rs|, i requires 0 <= i < |rs| => ResolveRule(t, rs[i]))
  }

  function ResolveCheck(t: Table, c: Check<nat>): Check<string> { Check(ResolveRules(t, c.queries), c.kind) }

  // ---- Ids that stand for something ----

  predicate DefinedTerm(t: Table, x: NTerm) {
    match x
    case Variable(v) => Defined(t, v)
    case Str(s) => Defined(t, s)
    case Set(es) => forall e :: e in es ==> DefinedTerm(t, e)
    case _ => true
  }

  predicate DefinedTerms(t: Table, xs: seq<NTerm>) {
    forall i :: 0 <= i < |xs| ==> DefinedTerm(t, xs[i])
  }

  predicate DefinedPredicate(t: Table, p: Predicate<nat>) {
    Defined(t, p.name) && DefinedTerms(t, p.terms)
  }

  predicate DefinedPredicates(t: Table, ps: seq<Predicate<nat>>) {
    forall i :: 0 <= i < |ps| ==> DefinedPredicate(t, ps[i])
  }

  predicate DefinedOp(t: Table, op: Op<nat>) { op.Value? ==> DefinedTerm(t, op.term) }

  predicate DefinedExpression(t: Table, e: Expression<nat>) {
    forall i :: 0 <= i < |e| ==> DefinedOp(t, e[i])
  }

  predicate DefinedExpressions(t: Table, es: seq<Expression<nat>>) {
    forall i :: 0 <= i < |es| ==> DefinedExpression(t, es[i])
  }

  predicate DefinedRule(t: Table, r: Rule<nat>) {
    DefinedPredicate(t, r.head) && DefinedPredicates(t, r.body) && DefinedExpressions(t, r.expressions)
  }

  predicate DefinedRules(t: Table, rs: seq<Rule<nat>>) {
    forall i :: 0 <= i < |rs| ==> DefinedRule(t, rs[i])
  }

  // ---- Meaning is stable while the table grows ----

  lemma IdGrows(t: Table, t': Table, id: nat)
    requires t <= t' && Defined(t, id)
    ensures Defined(t', id) && StrOf(t', id) == StrOf(t, id)
  {
    GrowthKeepsMeaning(t, t'[|t|..], id);
    assert t' == t + t'[|t|..];
  }

  lemma {:induction false} TermGrows(t: Table, t': Table, x: NTerm)
    requires t <= t' && DefinedTerm(t, x)
    ensures DefinedTerm(t', x) && ResolveTerm(t', x) == ResolveTerm(t, x)
    decreases x
  {
    hide StrOf, Defined;
    match x
    case Variable(v) => IdGrows(t, t', v);
    case Str(s) => IdGrows(t, t', s);
    case Set(es) =>
      forall e | e in es
        ensures DefinedTerm(t', e) && ResolveTerm(t', e) == ResolveTerm(t, e)
      {
        TermGrows(t, t', e);
      }
    case _ =>
  }

  lemma TermsGrow(t: Table, t': Table, xs: seq<NTerm>)
    requires t <= t' && DefinedTerms(t, xs)
    ensures DefinedTerms(t', xs) && ResolveTerms(t', xs) == ResolveTerms(t, xs)
  {
    hide StrOf, Defined, ResolveTerm, DefinedTerm;
    forall i | 0 <= i < |xs|
      ensures DefinedTerm(t', xs[i]) && ResolveTerm(t', xs[i]) == ResolveTerm(t, xs[i])
    {
      TermGrows(t, t', xs[i]);
    }
  }

  lemma PredicateGrows(t: Table, t': Table, p: Predicate<nat>)
    requires t <= t' && DefinedPredicate(t, p)
    ensures DefinedPredicate(t', p) && ResolvePredicate(t', p) == ResolvePredicate(t, p)
  {
    hide StrOf, Defined, DefinedTerms, ResolveTerms;
    IdGrows(t, t', p.name);
    TermsGrow(t, t', p.terms);
  }

  lemma PredicatesGrow(t: Table, t': Table, ps: seq<Predicate<nat>>)
    requires t <= t' && DefinedPredicates(t, ps)
    ensures DefinedPredicates(t', ps) && ResolvePredicates(t', ps) == ResolvePredicates(t, ps)
  {
    hide DefinedPredicate, ResolvePredicate;
    forall i | 0 <= i < |ps|
      ensures DefinedPredicate(t', ps[i]) && ResolvePredicate(t', ps[i]) == ResolvePredicate(t, ps[i])
    {
      PredicateGrows(t, t', ps[i]);
    }
  }

  lemma ExpressionGrows(t: Table, t': Table, e: Expression<nat>)
    requires t <= t' && DefinedExpression(t, e)
    ensures DefinedExpression(t', e) && ResolveExpression(t', e) == ResolveExpression(t, e)
  {
    hide ResolveTerm, DefinedTerm;
    forall i | 0 <= i < |e|
      ensures DefinedOp(t', e[i]) && ResolveOp(t', e[i]) == ResolveOp(t, e[i])
    {
      if e[i].Value? {
        assert DefinedOp(t, e[i]);
        TermGrows(t, t', e[i].term);
      }
    }
  }

  lemma ExpressionsGrow(t: Table, t': Table, es: seq<Expression<nat>>)
    requires t <= t' && DefinedExpressions(t, es)
    ensures DefinedExpressions(t', es) && ResolveExpressions(t', es) == ResolveExpressions(t, es)
  {
    hide DefinedExpression, ResolveExpression;
    forall i | 0 <= i < |es|
      ensures DefinedExpression(t', es[i]) && ResolveExpression(t', es[i]) == ResolveExpression(t, es[i])
    {
      ExpressionGrows(t, t', es[i]);
    }
  }

  lemma RuleGrows(t: Table, t': Table, r: Rule<nat>)
    requires t <= t' && DefinedRule(t, r)
    ensures DefinedRule(t', r) && ResolveRule(t', r) == ResolveRule(t, r)
  {
    hide DefinedPredicate, DefinedPredicates, DefinedExpressions, ResolvePredicate, ResolvePredicates,
         ResolveExpressions;
    PredicateGrows(t, t', r.head);
    PredicatesGrow(t, t', r.body);
    ExpressionsGrow(t, t', r.expressions);
  }

  lemma RulesGrow(t: Table, t': Table, rs: seq<Rule<nat>>)
    requires t <= t' && DefinedRules(t, rs)
    ensures DefinedRules(t', rs) && ResolveRules(t', rs) == ResolveRules(t, rs)
  {
    hide DefinedRule, ResolveRule;
    forall i | 0 <= i < |rs|
      ensures DefinedRule(t', rs[i]) && ResolveRule(t', rs[i]) == ResolveRule(t, rs[i])
    {
      RuleGrows(t, t', rs[i]);
    }
  }

  // ---- In a table without duplicates, resolving loses nothing ----

  lemma IdsResolveApart(t: Table, a: nat, b: nat)
    requires NoDup(t) && Defined(t, a) && Defined(t, b)
    ensures StrOf(t, a) == StrOf(t, b) <==> a == b
  {
    StrSym(t, a);
    StrSym(t, b);
  }

  lemma {:induction false} TermsResolveApart(t: Table, x: NTerm, y: NTerm)
    requires NoDup(t) && DefinedTerm(t, x) && DefinedTerm(t, y)
    ensures ResolveTerm(t, x) == ResolveTerm(t, y) <==> x == y
    decreases x
  {
    hide StrOf, Defined, NoDup;
    if ResolveTerm(t, x) == ResolveTerm(t, y) {
      match x
      case Variable(v) => IdsResolveApart(t, v, y.v);
      case Str(s) => IdsResolveApart(t, s, y.s);
      case Set(es) =>
        forall e, f | e in es && f in y.elems
          ensures ResolveTerm(t, e) == ResolveTerm(t, f) <==> e == f
        {
          TermsResolveApart(t, e, f);
        }
        assert ResolveSet(t, es) == ResolveTerm(t, x).elems && ResolveSet(t, y.elems) == ResolveTerm(t, y).elems;
        SameImages(t, es, y.elems);
      case _ =>
    }
  }

  function ResolveSet(t: Table, es: set<NTerm>): set<STerm> { set e | e in es :: ResolveTerm(t, e) }

  lemma SameImages(t: Table, es: set<NTerm>, fs: set<NTerm>)
    requires forall e, f :: e in es && f in fs ==> (ResolveTerm(t, e) == ResolveTerm(t, f) <==> e == f)
    requires ResolveSet(t, es) == ResolveSet(t, fs)
    ensures es == fs
  {
    hide ResolveTerm;
    forall e | e in es
      ensures e in fs
    {
      assert ResolveTerm(t, e) in ResolveSet(t, fs);
    }
    forall f | f in fs
      ensures f in es
    {
      assert ResolveTerm(t, f) in ResolveSet(t, es);
    }
  }

  // ---- Converting ----

  const VARIABLES := 0x1_0000_0000

  /** Variables keep only 32 bits of an id: no id is cut off as long as the table fits. */
  predicate TableFits(t: Table) { OFFSET + |t| <= VARIABLES }

  // ---- Variables, at any depth ----

  ghost function VarsIn<S>(x: Term<S>): set<S> {
    match x
    case Variable(v) => {v}
    case Set(es) => set e, v | e in es && v in VarsIn(e) :: v
    case _ => {}
  }

  ghost function VarsInTerms<S>(xs: seq<Term<S>>): set<S> { set x, v | x in xs && v in VarsIn(x) :: v }

  ghost function VarsInPredicates<S>(ps: seq<Predicate<S>>): set<S> {
    set p, v | p in ps && v in VarsInTerms(p.terms) :: v
  }

  ghost function VarsInOp<S>(op: Op<S>): set<S> { if op.Value? then VarsIn(op.term) else {} }

  ghost function VarsInExpression<S>(e: Expression<S>): set<S> { set op, v | op in e && v in VarsInOp(op) :: v }

  ghost function VarsInExpressions<S>(es: seq<Expression<S>>): set<S> {
    set e, v | e in es && v in VarsInExpression(e) :: v
  }

  ghost function VarsInRule<S>(r: Rule<S>): set<S> {
    VarsInTerms(r.head.terms) + VarsInPredicates(r.body) + VarsInExpressions(r.expressions)
  }

  ghost function VarsInRules<S>(rs: seq<Rule<S>>): set<S> { set r, v | r in rs && v in VarsInRule(r) :: v }

  /** The table gives none of the names an id that a variable would cut off. */
  predicate NamesFit(t: Table, names: set<string>) {
    forall i :: VARIABLES - OFFSET <= i < |t| ==> t[i] !in names
  }

  lemma FitBefore(t: Table, t': Table, names: set<string>, some: set<string>)
    requires t <= t' && some <= names
    ensures NamesFit(t', names) ==> NamesFit(t, some) && NamesFit(t', some)
    ensures TableFits(t) ==> NamesFit(t, names)
  {
  }

  /** What variables of 32 bits can resolve to. */
  predicate Small(ids: set<nat>) { forall v :: v in ids ==> v < VARIABLES }

  /** Every name is what one of the ids stands for. */
  ghost predicate NamedIn(t: Table, names: set<string>, ids: set<nat>) {
    forall s :: s in names ==> exists v :: v in ids && StrOf(t, v) == s
  }

  predicate AllDefined(t: Table, ids: set<nat>) { forall v :: v in ids ==> Defined(t, v) }

  /** No name looks like the one that an undefined id is given. */
  predicate PlainNames(names: set<string>) { forall s :: s in names ==> !("<invalid symbol " <= s) }

  lemma SmallFits(t: Table, names: set<string>, ids: set<nat>)
    requires NoDup(t) && Small(ids) && NamedIn(t, names, ids) && (AllDefined(t, ids) || PlainNames(names))
    ensures NamesFit(t, names)
  {
    forall i, v | VARIABLES - OFFSET <= i < |t| && v in ids && (Defined(t, v) || PlainNames(names))
      ensures StrOf(t, v) != t[i] || t[i] !in names
    {
      if Defined(t, v) {
        SmallApart(t, v, i);
      } else {
        assert "<invalid symbol " <= StrOf(t, v);
      }
    }
    hide StrOf, Defined, NoDup, PlainNames;
  }

  lemma SmallApart(t: Table, v: nat, i: nat)
    requires NoDup(t) && v < VARIABLES && Defined(t, v) && VARIABLES - OFFSET <= i < |t|
    ensures StrOf(t, v) != t[i]
  {
    hide DefaultSymbols;
    if v < OFFSET {
      assert t[i] in t && StrOf(t, v) in DefaultSymbols();
    }
  }

  // The names of the variables of what ids resolve to.

  lemma {:induction false} TermNames(t: Table, y: NTerm)
    ensures NamedIn(t, VarsIn(ResolveTerm(t, y)), VarsIn(y))
    ensures DefinedTerm(t, y) ==> AllDefined(t, VarsIn(y))
  {
    hide StrOf, Defined;
    if y.Set? {
      forall e | e in y.elems
        ensures NamedIn(t, VarsIn(ResolveTerm(t, e)), VarsIn(e))
        ensures DefinedTerm(t, e) ==> AllDefined(t, VarsIn(e))
      {
        TermNames(t, e);
      }
    }
  }

  lemma TermsNames(t: Table, ys: seq<NTerm>)
    ensures NamedIn(t, VarsInTerms(ResolveTerms(t, ys)), VarsInTerms(ys))
    ensures DefinedTerms(t, ys) ==> AllDefined(t, VarsInTerms(ys))
  {
    forall i | 0 <= i < |ys|
      ensures NamedIn(t, VarsIn(ResolveTerms(t, ys)[i]), VarsIn(ys[i]))
      ensures DefinedTerm(t, ys[i]) ==> AllDefined(t, VarsIn(ys[i]))
    {
      TermNames(t, ys[i]);
    }
    hide StrOf, Defined, ResolveTerm, DefinedTerm, VarsIn;
  }

  lemma PredicatesNames(t: Table, qs: seq<Predicate<nat>>)
    ensures NamedIn(t, VarsInPredicates(ResolvePredicates(t, qs)), VarsInPredicates(qs))
    ensures DefinedPredicates(t, qs) ==> AllDefined(t, VarsInPredicates(qs))
  {
    forall i | 0 <= i < |qs|
      ensures NamedIn(t, VarsInTerms(ResolvePredicates(t, qs)[i].terms), VarsInTerms(qs[i].terms))
      ensures DefinedPredicate(t, qs[i]) ==> AllDefined(t, VarsInTerms(qs[i].terms))
    {
      TermsNames(t, qs[i].terms);
    }
    hide StrOf, Defined, ResolvePredicate, DefinedPredicate, VarsInTerms;
  }

  lemma ExpressionNames(t: Table, e: Expression<nat>)
    ensures NamedIn(t, VarsInExpression(ResolveExpression(t, e)), VarsInExpression(e))
    ensures DefinedExpression(t, e) ==> AllDefined(t, VarsInExpression(e))
  {
    forall i | 0 <= i < |e|
      ensures NamedIn(t, VarsInOp(ResolveExpression(t, e)[i]), VarsInOp(e[i]))
      ensures DefinedOp(t, e[i]) ==> AllDefined(t, VarsInOp(e[i]))
    {
      if e[i].Value? {
        TermNames(t, e[i].term);
      }
    }
    hide StrOf, Defined, ResolveOp, DefinedOp, VarsInOp;
  }

  lemma ExpressionsNames(t: Table, es: seq<Expression<nat>>)
    ensures NamedIn(t, VarsInExpressions(ResolveExpressions(t, es)), VarsInExpressions(es))
    ensures DefinedExpressions(t, es) ==> AllDefined(t, VarsInExpressions(es))
  {
    forall i | 0 <= i < |es|
      ensures NamedIn(t, VarsInExpression(ResolveExpressions(t, es)[i]), VarsInExpression(es[i]))
      ensures DefinedExpression(t, es[i]) ==> AllDefined(t, VarsInExpression(es[i]))
    {
      ExpressionNames(t, es[i]);
    }
    hide StrOf, Defined, ResolveExpression, DefinedExpression, VarsInExpression;
  }

  lemma RuleNames(t: Table, q: Rule<nat>)
    ensures NamedIn(t, VarsInRule(ResolveRule(t, q)), VarsInRule(q))
    ensures DefinedRule(t, q) ==> AllDefined(t, VarsInRule(q))
  {
    TermsNames(t, q.head.terms);
    PredicatesNames(t, q.body);
    ExpressionsNames(t, q.expressions);
    hide StrOf, Defined, ResolvePredicates, ResolveExpressions, ResolveTerms, VarsInTerms, VarsInPredicates,
         VarsInExpressions;
  }

  lemma RulesNames(t: Table, qs: seq<Rule<nat>>)
    ensures NamedIn(t, VarsInRules(ResolveRules(t, qs)), VarsInRules(qs))
    ensures DefinedRules(t, qs) ==> AllDefined(t, VarsInRules(qs))
  {
    forall i | 0 <= i < |qs|
      ensures NamedIn(t, VarsInRule(ResolveRules(t, qs)[i]), VarsInRule(qs[i]))
      ensures DefinedRule(t, qs[i]) ==> AllDefined(t, VarsInRule(qs[i]))
    {
      RuleNames(t, qs[i]);
    }
    hide StrOf, Defined, ResolveRule, DefinedRule, VarsInRule;
  }

  /** A table only grows, and stays without duplicates. */
  ghost predicate Grows(t: Table, t': Table) { t <= t' && (NoDup(t) ==> NoDup(t')) }

  lemma InternGrows(t: Table, s: string)
    ensures Grows(t, Interned(t, s))
  {
    if NoDup(t) {
      InternKeepsNoDup(t, s);
    }
  }

  method ConvertSymbol(s: string, table: SymbolTable) returns (id: nat)
    modifies table
    ensures Grows(old(table.entries), table.entries)
    ensures Defined(table.entries, id) && StrOf(table.entries, id) == s
    ensures id < OFFSET + |table.entries|
  {
    InternGrows(table.entries, s);
    id := table.Insert(s);
  }

  ghost function Kinds<S>(es: set<Term<S>>): set<nat> { set e | e in es :: TypeOf(e) }

  /** Whether a set can be written depends on the kinds of its elements only. */
  lemma KindsDecide<S>(es: set<Term<S>>)
    ensures EncodableTerm(Set(es)) <==>
              0 !in Kinds(es) && 6 !in Kinds(es) && forall k, l :: k in Kinds(es) && l in Kinds(es) ==> k == l
  {
    assert forall e :: e in es ==> TypeOf(e) in Kinds(es);
    forall e | e in es
      ensures (e.Variable? <==> TypeOf(e) == 0) && (e.Set? <==> TypeOf(e) == 6)
    {
    }
    hide TypeOf;
  }

  lemma NoKinds()
    ensures Kinds<string>({}) == {} && Kinds<nat>({}) == {}
  {
  }

  lemma OneMoreKind<S>(es: set<Term<S>>, e: Term<S>)
    ensures Kinds(es + {e}) == Kinds(es) + {TypeOf(e)}
  {
    hide TypeOf;
  }

  method ConvertTerm(x: STerm, table: SymbolTable) returns (y: NTerm)
    modifies table
    ensures Grows(old(table.entries), table.entries)
    ensures Small(VarsIn(y)) && TypeOf(y) == TypeOf(x) && (EncodableTerm(y) <==> EncodableTerm(x))
    ensures NamesFit(table.entries, VarsIn(x)) ==> DefinedTerm(table.entries, y) && ResolveTerm(table.entries, y) == x
    ensures NoDup(table.entries) && ResolveTerm(table.entries, y) == x
            && (DefinedTerm(table.entries, y) || PlainNames(VarsIn(x))) ==>
              NamesFit(table.entries, VarsIn(x))
    decreases x, 1
  {
    hide StrOf, Defined, NoDup, DefaultSymbols;
    match x
    case Variable(v) =>
      var id := ConvertSymbol(v, table);
      FitId(table.entries, id);
      y := Variable(id % VARIABLES);
      ghost var names := {StrOf(table.entries, y.v)};
      if NoDup(table.entries) && (Defined(table.entries, y.v) || PlainNames(names)) {
        SmallFits(table.entries, names, {y.v});
      }
    case Integer(i) => y := Integer(i);
    case Str(s) =>
      var id := ConvertSymbol(s, table);
      y := Str(id);
    case Date(d) => y := Date(d);
    case Bytes(b) => y := Bytes(b);
    case Bool(b) => y := Bool(b);
    case Set(es) =>
      var converted := ConvertSet(es, table);
      KindsDecide(es);
      KindsDecide(converted);
      y := Set(converted);
      TermNames(table.entries, y);
      ghost var names := VarsIn(ResolveTerm(table.entries, y));
      if NoDup(table.entries) && (DefinedTerm(table.entries, y) || PlainNames(names)) {
        SmallFits(table.entries, names, VarsIn(y));
      }
  }

  /** The elements of a set, in any order. */
  method ConvertSet(es: set<STerm>, table: SymbolTable) returns (converted: set<NTerm>)
    modifies table
    ensures Grows(old(table.entries), table.entries)
    ensures Kinds(converted) == Kinds(es) && forall e :: e in converted ==> Small(VarsIn(e))
    ensures NamesFit(table.entries, VarsIn(Set(es))) ==>
              && (forall e :: e in converted ==> DefinedTerm(table.entries, e))
              && ResolveSet(table.entries, converted) == es
    decreases Set(es), 0
  {
    hide StrOf, Defined, NoDup, DefaultSymbols, EncodableTerm, TypeOf, Kinds, DefinedTerm, ResolveTerm;
    ghost var names := VarsIn(Set(es));
    var todo := es;
    converted := {};
    NoKinds();
    assert es - todo == {};
    while todo != {}
      invariant todo <= es && Grows(old(table.entries), table.entries)
      invariant Kinds(converted) == Kinds(es - todo) && forall e :: e in converted ==> Small(VarsIn(e))
      invariant NamesFit(table.entries, names) ==>
                  && (forall e :: e in converted ==> DefinedTerm(table.entries, e))
                  && ResolveSet(table.entries, converted) == es - todo
      decreases todo
    {
      var e :| e in todo;
      ghost var before := table.entries;
      var f := ConvertTerm(e, table);
      assert VarsIn(e) <= names;
      FitBefore(before, table.entries, names, VarsIn(e));
      FitBefore(before, table.entries, names, names);
      if NamesFit(table.entries, names) {
        AddImage(before, table.entries, converted, f);
      }
      OneMoreKind(converted, f);
      OneMoreKind(es - todo, e);
      assert es - (todo - {e}) == es - todo + {e};
      converted := converted + {f};
      todo := todo - {e};
    }
    assert es - todo == es;
  }

  lemma FitId(t: Table, id: nat)
    requires Defined(t, id)
    ensures NamesFit(t, {StrOf(t, id)}) ==> id < VARIABLES
  {
    hide DefaultSymbols;
    assert id >= OFFSET ==> StrOf(t, id) == t[id - OFFSET];
    if id >= VARIABLES {
      assert t[id - OFFSET] in {StrOf(t, id)};
    }
  }

  lemma AddImage(t: Table, t': Table, es: set<NTerm>, f: NTerm)
    requires t <= t' && DefinedTerm(t', f) && forall e :: e in es ==> DefinedTerm(t, e)
    ensures (forall e :: e in es + {f} ==> DefinedTerm(t', e))
    ensures ResolveSet(t', es + {f}) == ResolveSet(t, es) + {ResolveTerm(t', f)}
  {
    hide ResolveTerm, DefinedTerm;
    forall e | e in es
      ensures DefinedTerm(t', e) && ResolveTerm(t', e) == ResolveTerm(t, e)
    {
      TermGrows(t, t', e);
    }
  }

  method ConvertTerms(xs: seq<STerm>, table: SymbolTable) returns (ys: seq<NTerm>)
    modifies table
    ensures Grows(old(table.entries), table.entries)
    ensures Small(VarsInTerms(ys)) && (EncodableTerms(ys) <==> EncodableTerms(xs))
    ensures NamesFit(table.entries, VarsInTerms(xs)) ==>
              DefinedTerms(table.entries, ys) && ResolveTerms(table.entries, ys) == xs
  {
    hide ResolveTerm, DefinedTerm, NoDup, EncodableTerm;
    ys := [];
    for i := 0 to |xs|
      invariant Grows(old(table.entries), table.entries)
      invariant Small(VarsInTerms(ys)) && |ys| == i
      invariant forall k :: 0 <= k < i ==> (EncodableTerm(ys[k]) <==> EncodableTerm(xs[k]))
      invariant NamesFit(table.entries, VarsInTerms(xs)) ==>
                  DefinedTerms(table.entries, ys) && ResolveTerms(table.entries, ys) == xs[..i]
    {
      ghost var before := table.entries;
      var y := ConvertTerm(xs[i], table);
      assert VarsIn(xs[i]) <= VarsInTerms(xs);
      FitBefore(before, table.entries, VarsInTerms(xs), VarsIn(xs[i]));
      FitBefore(before, table.entries, VarsInTerms(xs), VarsInTerms(xs));
      if NamesFit(table.entries, VarsInTerms(xs)) {
        TermsGrow(before, table.entries, ys);
      }
      assert VarsInTerms(ys + [y]) <= VarsInTerms(ys) + VarsIn(y);
      ys := ys + [y];
    }
  }

  /** Predicate.convert: the name is interned after the terms. */
  method ConvertPredicate(p: Predicate<string>, table: SymbolTable) returns (q: Predicate<nat>)
    modifies table
    ensures Grows(old(table.entries), table.entries)
    ensures Small(VarsInTerms(q.terms)) && (EncodableTerms(q.terms) <==> EncodableTerms(p.terms))
    ensures NamesFit(table.entries, VarsInTerms(p.terms)) ==>
              DefinedPredicate(table.entries, q) && ResolvePredicate(table.entries, q) == p
    ensures NoDup(table.entries) && ResolvePredicate(table.entries, q) == p
            && (DefinedPredicate(table.entries, q) || PlainNames(VarsInTerms(p.terms))) ==>
              NamesFit(table.entries, VarsInTerms(p.terms))
  {
    hide ResolveTerms, DefinedTerms, NoDup, StrOf, Defined;
    var ts := ConvertTerms(p.terms, table);
    ghost var before := table.entries;
    var name := ConvertSymbol(p.name, table);
    FitBefore(before, table.entries, VarsInTerms(p.terms), VarsInTerms(p.terms));
    if NamesFit(table.entries, VarsInTerms(p.terms)) {
      TermsGrow(before, table.entries, ts);
    }
    q := Predicate(name, ts);
    TermsNames(table.entries, ts);
    ghost var names := VarsInTerms(ResolveTerms(table.entries, ts));
    if NoDup(table.entries) && (DefinedTerms(table.entries, ts) || PlainNames(names)) {
      SmallFits(table.entries, names, VarsInTerms(ts));
    }
  }

  method ConvertPredicates(ps: seq<Predicate<string>>, table: SymbolTable) returns (qs: seq<Predicate<nat>>)
    modifies table
    ensures Grows(old(table.entries), table.entries)
    ensures Small(VarsInPredicates(qs)) && (EncodablePredicates(qs) <==> EncodablePredicates(ps))
    ensures NamesFit(table.entries, VarsInPredicates(ps)) ==>
              DefinedPredicates(table.entries, qs) && ResolvePredicates(table.entries, qs) == ps
  {
    hide ResolvePredicate, DefinedPredicate, NoDup, EncodableTerms;
    qs := [];
    for i := 0 to |ps|
      invariant Grows(old(table.entries), table.entries)
      invariant Small(VarsInPredicates(qs)) && |qs| == i
      invariant forall k :: 0 <= k < i ==> (EncodableTerms(qs[k].terms) <==> EncodableTerms(ps[k].terms))
      invariant NamesFit(table.entries, VarsInPredicates(ps)) ==>
                  DefinedPredicates(table.entries, qs) && ResolvePredicates(table.entries, qs) == ps[..i]
    {
      ghost var before := table.entries;
      var q := ConvertPredicate(ps[i], table);
      assert VarsInTerms(ps[i].terms) <= VarsInPredicates(ps);
      FitBefore(before, table.entries, VarsInPredicates(ps), VarsInTerms(ps[i].terms));
      FitBefore(before, table.entries, VarsInPredicates(ps), VarsInPredicates(ps));
      if NamesFit(table.entries, VarsInPredicates(ps)) {
        PredicatesGrow(before, table.entries, qs);
      }
      assert VarsInPredicates(qs + [q]) <= VarsInPredicates(qs) + VarsInTerms(q.terms);
      qs := qs + [q];
    }
  }

  method ConvertOp(op: Op<string>, table: SymbolTable) returns (o: Op<nat>)
    modifies table
    ensures Grows(old(table.entries), table.entries)
    ensures Small(VarsInOp(o)) && (EncodableOp(o) <==> EncodableOp(op))
    ensures NamesFit(table.entries, VarsInOp(op)) ==> DefinedOp(table.entries, o) && ResolveOp(table.entries, o) == op
  {
    hide ResolveTerm, DefinedTerm, NoDup, EncodableTerm;
    match op
    case Value(x) =>
      var y := ConvertTerm(x, table);
      o := Value(y);
    case Unary(u) => o := Unary(u);
    case Binary(b) => o := Binary(b);
  }

  method ConvertExpression(e: Expression<string>, table: SymbolTable) returns (r: Expression<nat>)
    modifies table
    ensures Grows(old(table.entries), table.entries)
    ensures Small(VarsInExpression(r)) && (EncodableExpression(r) <==> EncodableExpression(e))
    ensures NamesFit(table.entries, VarsInExpression(e)) ==>
              DefinedExpression(table.entries, r) && ResolveExpression(table.entries, r) == e
  {
    hide ResolveOp, DefinedOp, NoDup, EncodableOp;
    r := [];
    for i := 0 to |e|
      invariant Grows(old(table.entries), table.entries)
      invariant Small(VarsInExpression(r)) && |r| == i
      invariant forall k :: 0 <= k < i ==> (EncodableOp(r[k]) <==> EncodableOp(e[k]))
      invariant NamesFit(table.entries, VarsInExpression(e)) ==>
                  DefinedExpression(table.entries, r) && ResolveExpression(table.entries, r) == e[..i]
    {
      ghost var before := table.entries;
      var op := ConvertOp(e[i], table);
      assert VarsInOp(e[i]) <= VarsInExpression(e);
      FitBefore(before, table.entries, VarsInExpression(e), VarsInOp(e[i]));
      FitBefore(before, table.entries, VarsInExpression(e), VarsInExpression(e));
      if NamesFit(table.entries, VarsInExpression(e)) {
        ExpressionGrows(before, table.entries, r);
      }
      assert VarsInExpression(r + [op]) <= VarsInExpression(r) + VarsInOp(op);
      r := r + [op];
    }
  }

  method ConvertExpressions(es: seq<Expression<string>>, table: SymbolTable) returns (rs: seq<Expression<nat>>)
    modifies table
    ensures Grows(old(table.entries), table.entries)
    ensures Small(VarsInExpressions(rs)) && (EncodableExpressions(rs) <==> EncodableExpressions(es))
    ensures NamesFit(table.entries, VarsInExpressions(es)) ==>
              DefinedExpressions(table.entries, rs) && ResolveExpressions(table.entries, rs) == es
  {
    hide ResolveExpression, DefinedExpression, NoDup, EncodableExpression;
    rs := [];
    for i := 0 to |es|
      invariant Grows(old(table.entries), table.entries)
      invariant Small(VarsInExpressions(rs)) && |rs| == i
      invariant forall k :: 0 <= k < i ==> (EncodableExpression(rs[k]) <==> EncodableExpression(es[k]))
      invariant NamesFit(table.entries, VarsInExpressions(es)) ==>
                  DefinedExpressions(table.entries, rs) && ResolveExpressions(table.entries, rs) == es[..i]
    {
      ghost var before := table.entries;
      var r := ConvertExpression(es[i], table);
      assert VarsInExpression(es[i]) <= VarsInExpressions(es);
      FitBefore(before, table.entries, VarsInExpressions(es), VarsInExpression(es[i]));
      FitBefore(before, table.entries, VarsInExpressions(es), VarsInExpressions(es));
      if NamesFit(table.entries, VarsInExpressions(es)) {
        ExpressionsGrow(before, table.entries, rs);
      }
      assert VarsInExpressions(rs + [r]) <= VarsInExpressions(rs) + VarsInExpression(r);
      rs := rs + [r];
    }
  }

  /** Rule.Convert: the body, the expressions, then the head. What the rule is made from resolves
      from the result, although ids are issued while the table is still growing. */
  method ConvertRule(r: Rule<string>, table: SymbolTable) returns (q: Rule<nat>)
    modifies table
    ensures Grows(old(table.entries), table.entries)
    ensures Small(VarsInRule(q)) && (EncodableRule(q) <==> EncodableRule(r)) && q.scopes == r.scopes
    ensures NamesFit(table.entries, VarsInRule(r)) ==>
            DefinedRule(table.entries, q) && ResolveRule(table.entries, q) == r
    ensures NoDup(table.entries) && ResolveRule(table.entries, q) == r
            && (DefinedRule(table.entries, q) || PlainNames(VarsInRule(r))) ==>
              NamesFit(table.entries, VarsInRule(r))
  {
    hide DefinedPredicate, DefinedPredicates, DefinedExpressions, ResolvePredicate, ResolvePredicates,
         ResolveExpressions, NoDup, EncodableTerms, EncodablePredicates, EncodableExpressions;
    var body := ConvertPredicates(r.body, table);
    ghost var t1 := table.entries;
    var exprs := ConvertExpressions(r.expressions, table);
    ghost var t2 := table.entries;
    var head := ConvertPredicate(r.head, table);
    FitBefore(t1, table.entries, VarsInRule(r), VarsInPredicates(r.body));
    FitBefore(t2, table.entries, VarsInRule(r), VarsInExpressions(r.expressions));
    FitBefore(t2, table.entries, VarsInRule(r), VarsInTerms(r.head.terms));
    if NamesFit(table.entries, VarsInRule(r)) {
      PredicatesGrow(t1, table.entries, body);
      ExpressionsGrow(t2, table.entries, exprs);
    }
    q := Rule(head, body, exprs, r.scopes);
    RuleNames(table.entries, q);
    ghost var names := VarsInRule(ResolveRule(table.entries, q));
    if NoDup(table.entries) && (DefinedRule(table.entries, q) || PlainNames(names)) {
      SmallFits(table.entries, names, VarsInRule(q));
    }
  }

  /** What is written of a rule besides its symbols. */
  predicate WrittenAlike(q: Rule<nat>, r: Rule<string>) {
    (EncodableRule(q) <==> EncodableRule(r)) && q.scopes == r.scopes
  }

  lemma AlikeRule(q: Rule<nat>, r: Rule<string>)
    requires (EncodableRule(q) <==> EncodableRule(r)) && q.scopes == r.scopes
    ensures WrittenAlike(q, r)
  {
  }

  lemma AlikeRules(qs: seq<Rule<nat>>, rs: seq<Rule<string>>)
    requires |qs| == |rs| && forall k :: 0 <= k < |qs| ==> WrittenAlike(qs[k], rs[k])
    ensures EncodableRules(qs) <==> EncodableRules(rs)
    ensures forall i :: 0 <= i < |qs| ==> qs[i].scopes == rs[i].scopes
  {
    hide EncodableRule;
  }

  method ConvertRules(rs: seq<Rule<string>>, table: SymbolTable) returns (qs: seq<Rule<nat>>)
    modifies table
    ensures Grows(old(table.entries), table.entries)
    ensures Small(VarsInRules(qs)) && (EncodableRules(qs) <==> EncodableRules(rs))
    ensures |qs| == |rs| && forall i :: 0 <= i < |qs| ==> qs[i].scopes == rs[i].scopes
    ensures NamesFit(table.entries, VarsInRules(rs)) ==>
              DefinedRules(table.entries, qs) && ResolveRules(table.entries, qs) == rs
  {
    hide ResolveRule, DefinedRule, NoDup, WrittenAlike, EncodableRule, EncodableRules, VarsInRule;
    qs := [];
    for i := 0 to |rs|
      invariant Grows(old(table.entries), table.entries)
      invariant Small(VarsInRules(qs)) && |qs| == i
      invariant forall k :: 0 <= k < i ==> WrittenAlike(qs[k], rs[k])
      invariant NamesFit(table.entries, VarsInRules(rs)) ==>
                  DefinedRules(table.entries, qs) && ResolveRules(table.entries, qs) == rs[..i]
    {
      ghost var before := table.entries;
      var q := ConvertRule(rs[i], table);
      AlikeRule(q, rs[i]);
      assert VarsInRule(rs[i]) <= VarsInRules(rs);
      FitBefore(before, table.entries, VarsInRules(rs), VarsInRule(rs[i]));
      FitBefore(before, table.entries, VarsInRules(rs), VarsInRules(rs));
      if NamesFit(table.entries, VarsInRules(rs)) {
        RulesGrow(before, table.entries, qs);
      }
      assert VarsInRules(qs + [q]) <= VarsInRules(qs) + VarsInRule(q);
      qs := qs + [q];
    }
    AlikeRules(qs, rs);
  }

  /** Check.Convert. */
  method ConvertCheck(c: Check<string>, table: SymbolTable) returns (q: Check<nat>)
    modifies table
    ensures Grows(old(table.entries), table.entries)
    ensures Small(VarsInRules(q.queries)) && (EncodableRules(q.queries) <==> EncodableRules(c.queries)) &&
            q.kind == c.kind
    ensures |q.queries| == |c.queries| && forall i :: 0 <= i < |q.queries| ==>
            q.queries[i].scopes == c.queries[i].scopes
    ensures NamesFit(table.entries, VarsInRules(c.queries)) ==>
              DefinedRules(table.entries, q.queries) && ResolveCheck(table.entries, q) == c
    ensures NoDup(table.entries) && ResolveCheck(table.entries, q) == c
            && (DefinedRules(table.entries, q.queries) || PlainNames(VarsInRules(c.queries))) ==>
              NamesFit(table.entries, VarsInRules(c.queries))
  {
    hide ResolveRules, DefinedRules, NoDup;
    var queries := ConvertRules(c.queries, table);
    q := Check(queries, c.kind);
    RulesNames(table.entries, queries);
    ghost var names := VarsInRules(ResolveRules(table.entries, queries));
    if NoDup(table.entries) && (DefinedRules(table.entries, queries) || PlainNames(names)) {
      SmallFits(table.entries, names, VarsInRules(queries));
    }
  }
}
