/** The engine gives the same answers on table ids as on the symbols they stand for, so that moving
    facts and rules from the tables of a token to the authorizer's (authorizer.go) keeps their meaning. */
module Reinterning {
  import opened Wrappers
  import opened Types
  import opened Symbols
  import opened Interning
  import opened Matching
  import opened Datalog
  import opened StackMachine
  import opened Expressions
  import opened Checks

  // ---- Matching and unification ----

  lemma MatchCommutes(t: Table, p: Predicate<nat>, q: Predicate<nat>)
    requires NoDup(t) && DefinedPredicate(t, p) && DefinedPredicate(t, q)
    ensures Match(p, q) <==> Match(ResolvePredicate(t, p), ResolvePredicate(t, q))
  {
    hide NoDup, StrOf, Defined;
    IdsResolveApart(t, p.name, q.name);
    if |p.terms| == |q.terms| {
      forall i | 0 <= i < |p.terms|
        ensures ResolveTerm(t, p.terms[i]) == ResolveTerm(t, q.terms[i]) <==> p.terms[i] == q.terms[i]
        ensures ResolveTerm(t, p.terms[i]).Variable? <==> p.terms[i].Variable?
      {
        TermsResolveApart(t, p.terms[i], q.terms[i]);
      }
    }
  }

  function Names(t: Table, ids: set<nat>): set<string> { set v | v in ids :: StrOf(t, v) }

  /** n binds the symbols that the ids bound by m stand for, to what their terms stand for. */
  ghost predicate Mirrors(t: Table, m: Bindings<nat>, n: Bindings<string>) {
    && (forall v :: v in m ==> Defined(t, v) && DefinedTerm(t, m[v]))
    && n.Keys == Names(t, m.Keys)
    && (forall v :: v in m ==> StrOf(t, v) in n && n[StrOf(t, v)] == ResolveTerm(t, m[v]))
  }

  /** Both fail, or both succeed with bindings that mirror each other. */
  ghost predicate Alike(t: Table, m: Option<Bindings<nat>>, n: Option<Bindings<string>>) {
    if m.None? then n.None? else n.Some? && Mirrors(t, m.value, n.value)
  }

  lemma BoundAlike(t: Table, m: Bindings<nat>, n: Bindings<string>, v: nat)
    requires NoDup(t) && Mirrors(t, m, n) && Defined(t, v)
    ensures v in m <==> StrOf(t, v) in n
  {
    hide NoDup, StrOf, Defined;
    if StrOf(t, v) in n {
      assert StrOf(t, v) in n.Keys;
      var u :| u in m.Keys && StrOf(t, u) == StrOf(t, v);
      IdsResolveApart(t, u, v);
    }
  }

  lemma BindTermCommutes(t: Table, m: Bindings<nat>, n: Bindings<string>, pt: NTerm, ft: NTerm)
    requires NoDup(t) && Mirrors(t, m, n) && DefinedTerm(t, pt) && DefinedTerm(t, ft)
    ensures Alike(t, BindTerm(m, pt, ft), BindTerm(n, ResolveTerm(t, pt), ResolveTerm(t, ft)))
  {
    if pt.Variable? {
      BoundAlike(t, m, n, pt.v);
      if pt.v in m {
        TermsResolveApart(t, m[pt.v], ft);
      } else {
        BindNew(t, m, n, pt.v, ft);
      }
    }
    hide NoDup, StrOf, Defined;
  }

  lemma OneMoreName(t: Table, ids: set<nat>, v: nat)
    ensures Names(t, ids + {v}) == Names(t, ids) + {StrOf(t, v)}
  {
    hide StrOf;
  }

  lemma BindNew(t: Table, m: Bindings<nat>, n: Bindings<string>, v: nat, ft: NTerm)
    requires NoDup(t) && Mirrors(t, m, n) && Defined(t, v) && DefinedTerm(t, ft) && v !in m
    ensures Mirrors(t, m[v := ft], n[StrOf(t, v) := ResolveTerm(t, ft)])
  {
    hide StrOf, Defined, DefinedTerm, ResolveTerm, NoDup;
    var m', n' := m[v := ft], n[StrOf(t, v) := ResolveTerm(t, ft)];
    forall u | u in m
      ensures StrOf(t, u) != StrOf(t, v)
    {
      IdsResolveApart(t, u, v);
    }
    assert m'.Keys == m.Keys + {v};
    OneMoreName(t, m.Keys, v);
    hide Names;
  }

  lemma {:induction false} BindTermsCommutes(t: Table, m: Bindings<nat>, n: Bindings<string>, pts: seq<NTerm>,
                                             fts: seq<NTerm>, k: nat)
    requires k <= |pts| <= |fts|
    requires NoDup(t) && Mirrors(t, m, n) && DefinedTerms(t, pts) && DefinedTerms(t, fts)
    ensures Alike(t, BindTerms(m, pts, fts, k), BindTerms(n, ResolveTerms(t, pts), ResolveTerms(t, fts), k))
    decreases k
  {
    hide NoDup, DefinedTerm, ResolveTerm, Mirrors, BindTerm;
    if k > 0 {
      BindTermsCommutes(t, m, n, pts, fts, k - 1);
      var b := BindTerms(m, pts, fts, k - 1);
      if b.Some? {
        var c := BindTerms(n, ResolveTerms(t, pts), ResolveTerms(t, fts), k - 1);
        BindTermCommutes(t, b.value, c.value, pts[k - 1], fts[k - 1]);
      }
    }
  }

  lemma {:induction false} BindFirstCommutes(t: Table, preds: seq<Predicate<nat>>, facts: seq<Fact<nat>>, k: nat)
    requires k <= |preds| == |facts|
    requires forall i :: 0 <= i < k ==> |preds[i].terms| == |facts[i].terms|
    requires NoDup(t) && DefinedPredicates(t, preds) && DefinedPredicates(t, facts)
    ensures Alike(t, BindFirst(preds, facts, k), BindFirst(ResolvePredicates(t, preds), ResolvePredicates(t, facts), k))
    decreases k
  {
    hide NoDup, DefinedTerms, ResolveTerms, BindTerms, StrOf, Defined;
    if k > 0 {
      BindFirstCommutes(t, preds, facts, k - 1);
      var b := BindFirst(preds, facts, k - 1);
      if b.Some? {
        var c := BindFirst(ResolvePredicates(t, preds), ResolvePredicates(t, facts), k - 1);
        assert DefinedPredicate(t, preds[k - 1]) && DefinedPredicate(t, facts[k - 1]);
        BindTermsCommutes(t, b.value, c.value, preds[k - 1].terms, facts[k - 1].terms, |preds[k - 1].terms|);
      }
    }
  }

  /** Unification on ids finds bindings exactly when it does on the symbols, and the same ones. */
  lemma UnifyCommutes(t: Table, preds: seq<Predicate<nat>>, facts: seq<Fact<nat>>)
    requires |preds| == |facts|
    requires NoDup(t) && DefinedPredicates(t, preds) && DefinedPredicates(t, facts)
    ensures Alike(t, Unify(preds, facts), Unify(ResolvePredicates(t, preds), ResolvePredicates(t, facts)))
  {
    hide NoDup, DefinedPredicate, ResolvePredicate, Match, BindFirst, Mirrors;
    var sp, sf := ResolvePredicates(t, preds), ResolvePredicates(t, facts);
    forall i | 0 <= i < |preds|
      ensures Match(facts[i], preds[i]) <==> Match(sf[i], sp[i])
    {
      MatchCommutes(t, facts[i], preds[i]);
    }
    if AllMatch(preds, facts) {
      MatchedLengths(preds, facts);
      BindFirstCommutes(t, preds, facts, |preds|);
    }
  }

  lemma MatchedLengths<S>(preds: seq<Predicate<S>>, facts: seq<Fact<S>>)
    requires |preds| == |facts| && AllMatch(preds, facts)
    ensures forall i :: 0 <= i < |preds| ==> |preds[i].terms| == |facts[i].terms|
  {
    forall i | 0 <= i < |preds|
      ensures |preds[i].terms| == |facts[i].terms|
    {
      assert Match(facts[i], preds[i]);
    }
  }

  // ---- Head instantiation ----

  lemma HeadVariables(t: Table, m: Bindings<nat>, n: Bindings<string>, ts: seq<NTerm>)
    requires NoDup(t) && Mirrors(t, m, n) && DefinedTerms(t, ts)
    ensures var us := ResolveTerms(t, ts);
            forall i :: 0 <= i < |ts| ==>
              && (us[i].Variable? <==> ts[i].Variable?)
              && (ts[i].Variable? ==> (ts[i].v in m <==> us[i].v in n))
              && (ts[i].Variable? && ts[i].v in m ==>
                    DefinedTerm(t, m[ts[i].v]) && n[us[i].v] == ResolveTerm(t, m[ts[i].v]))
  {
    hide NoDup, StrOf, Defined, Names;
    forall i | 0 <= i < |ts| && ts[i].Variable?
      ensures var u := ResolveTerm(t, ts[i]);
              && u == Variable(StrOf(t, ts[i].v)) && (ts[i].v in m <==> u.v in n)
              && (ts[i].v in m ==> DefinedTerm(t, m[ts[i].v]) && n[u.v] == ResolveTerm(t, m[ts[i].v]))
    {
      BoundAlike(t, m, n, ts[i].v);
    }
  }

  lemma InstantiateCommutes(t: Table, m: Bindings<nat>, n: Bindings<string>, head: Predicate<nat>)
    requires NoDup(t) && Mirrors(t, m, n) && DefinedPredicate(t, head)
    ensures var f, g := Instantiate(m, head), Instantiate(n, ResolvePredicate(t, head));
            if f.None? then g.None? else DefinedPredicate(t, f.value) && g == Some(ResolvePredicate(t, f.value))
  {
    var ts := head.terms;
    var us := ResolveTerms(t, ts);
    HeadVariables(t, m, n, ts);
    hide NoDup, StrOf, Defined, Mirrors, ResolveTerm, DefinedTerm;
    var f, g := SubstTerms(m, ts), SubstTerms(n, us);
    if f.Some? {
      forall i | 0 <= i < |ts|
        ensures DefinedTerm(t, f.value[i]) && g.value[i] == ResolveTerm(t, f.value[i])
      {
        assert DefinedTerm(t, ts[i]);
      }
      assert g.value == ResolveTerms(t, f.value);
    }
  }

  // ---- Expressions ----

  function IdOf(t: Table, s: string): nat {
    match Sym(t, s) case Some(id) => id case None => OFFSET + |t|
  }

  lemma IdOfMeans(t: Table, s: string)
    ensures Sym(Interned(t, s), s) == Some(IdOf(t, s))
    ensures Defined(Interned(t, s), IdOf(t, s)) && StrOf(Interned(t, s), IdOf(t, s)) == s
  {
    hide DefaultSymbols;
    SymStr(t, s);
    SymStr(Interned(t, s), s);
    if Sym(t, s).None? {
      FirstPosition(t + [s], s, |t|);
    }
  }

  function TextIn(t: Table): nat -> string { (id: nat) => StrOf(t, id) }

  /** A binary operator on ids: adding two strings interns the result. */
  function BinaryIds(regexp: Regexp, t: Table, b: BinaryOp, l: NTerm, r: NTerm): (Table, Option<NTerm>) {
    if b.Add? && l.Str? then
      if r.Str? then
        var s := StrOf(t, l.s) + StrOf(t, r.s);
        (Interned(t, s), Some(Str(IdOf(t, s))))
      else (t, None)
    else (t, BinaryOver(TextIn(t), regexp, b, l, r))
  }

  /** One operation of Expression.Evaluate, on ids. */
  function StepIds(regexp: Regexp, t: Table, op: Op<nat>, m: Bindings<nat>,
                   stack: seq<NTerm>): (Table, Result<seq<NTerm>, MachineError>) {
    var n := |stack|;
    match op
    case Value(x) =>
      if x.Variable? && x.v !in m then (t, Err(BadValue))
      else (t, Push(stack, if x.Variable? then m[x.v] else x))
    case Unary(u) =>
      if n < 1 then (t, Err(Underflow))
      else
        (match UnaryOver(TextIn(t), u, stack[n - 1])
         case None => (t, Err(BadOperand))
         case Some(v) => (t, Push(stack[..n - 1], v)))
    case Binary(b) =>
      if n < 2 then (t, Err(Underflow))
      else
        var (t', v) := BinaryIds(regexp, t, b, stack[n - 2], stack[n - 1]);
        (t', match v case None => Err(BadOperand) case Some(x) => Push(stack[..n - 2], x))
  }

  function ExecIds(regexp: Regexp, t: Table, code: Expression<nat>, m: Bindings<nat>,
                   stack: seq<NTerm>): (Table, Result<seq<NTerm>, MachineError>)
    decreases |code|
  {
    if code == [] then (t, Ok(stack))
    else
      var (t', r) := StepIds(regexp, t, code[0], m, stack);
      match r
      case Err(e) => (t', Err(e))
      case Ok(next) => ExecIds(regexp, t', code[1..], m, next)
  }

  /** Expression.Evaluate on ids: the table may grow. */
  function RunIds(regexp: Regexp, t: Table, code: Expression<nat>,
                  m: Bindings<nat>): (Table, Result<NTerm, MachineError>) {
    var (t', r) := ExecIds(regexp, t, code, m, []);
    match r
    case Err(e) => (t', Err(e))
    case Ok(stack) => (t', if |stack| == 1 then Ok(stack[0]) else Err(NotOneValue))
  }

  lemma SetCount(t: Table, es: set<NTerm>)
    requires NoDup(t) && forall e :: e in es ==> DefinedTerm(t, e)
    ensures |ResolveSet(t, es)| == |es|
    decreases es
  {
    hide NoDup, ResolveTerm, DefinedTerm;
    if es != {} {
      var e :| e in es;
      SetCount(t, es - {e});
      forall f | f in es
        ensures ResolveTerm(t, f) == ResolveTerm(t, e) <==> f == e
      {
        TermsResolveApart(t, f, e);
      }
      assert ResolveSet(t, es) == ResolveSet(t, es - {e}) + {ResolveTerm(t, e)};
    } else {
      assert ResolveSet(t, es) == {};
    }
  }

  lemma UnaryCommutes(t: Table, u: UnaryOp, v: NTerm)
    requires NoDup(t) && DefinedTerm(t, v)
    ensures var r := UnaryOver(TextIn(t), u, v);
            && (r.Some? ==> DefinedTerm(t, r.value))
            && EvalUnary(u, ResolveTerm(t, v)) == if r.None? then None else Some(ResolveTerm(t, r.value))
  {
    if u.Length? && v.Set? {
      SetCount(t, v.elems);
      assert ResolveTerm(t, v).elems == ResolveSet(t, v.elems);
    }
    hide NoDup, StrOf, Defined;
  }

  /** Membership, inclusion, union and intersection of sets of defined terms. */
  lemma SetsCommute(t: Table, es: set<NTerm>, fs: set<NTerm>, e: NTerm)
    requires NoDup(t) && DefinedTerm(t, e)
    requires forall x :: x in es + fs ==> DefinedTerm(t, x)
    ensures e in es <==> ResolveTerm(t, e) in ResolveSet(t, es)
    ensures es <= fs <==> ResolveSet(t, es) <= ResolveSet(t, fs)
    ensures ResolveSet(t, es + fs) == ResolveSet(t, es) + ResolveSet(t, fs)
    ensures ResolveSet(t, es * fs) == ResolveSet(t, es) * ResolveSet(t, fs)
  {
    hide NoDup, ResolveTerm, DefinedTerm;
    forall x, y | x in es + fs + {e} && y in es + fs + {e}
      ensures ResolveTerm(t, x) == ResolveTerm(t, y) <==> x == y
    {
      TermsResolveApart(t, x, y);
    }
    SetsApart(t, es, fs, e);
  }

  lemma SetsApart(t: Table, es: set<NTerm>, fs: set<NTerm>, e: NTerm)
    requires forall x, y :: x in es + fs + {e} && y in es + fs + {e} ==>
             (ResolveTerm(t, x) == ResolveTerm(t, y) <==> x == y)
    ensures e in es <==> ResolveTerm(t, e) in ResolveSet(t, es)
    ensures es <= fs <==> ResolveSet(t, es) <= ResolveSet(t, fs)
    ensures ResolveSet(t, es + fs) == ResolveSet(t, es) + ResolveSet(t, fs)
    ensures ResolveSet(t, es * fs) == ResolveSet(t, es) * ResolveSet(t, fs)
  {
    hide ResolveTerm;
    if ResolveSet(t, es) <= ResolveSet(t, fs) {
      forall x | x in es
        ensures x in fs
      {
        assert ResolveTerm(t, x) in ResolveSet(t, es);
      }
    }
    forall s | s in ResolveSet(t, es) * ResolveSet(t, fs)
      ensures s in ResolveSet(t, es * fs)
    {
      var x :| x in es && s == ResolveTerm(t, x);
      var y :| y in fs && s == ResolveTerm(t, y);
      assert x in es * fs;
    }
  }

  lemma ContainsCommutes(t: Table, l: NTerm, r: NTerm)
    requires NoDup(t) && DefinedTerm(t, l) && DefinedTerm(t, r)
    ensures EvalContains(TextIn(t), l, r).Some? ==> EvalContains(TextIn(t), l, r).value.Bool?
    ensures EvalContains(Itself, ResolveTerm(t, l), ResolveTerm(t, r))
            == match EvalContains(TextIn(t), l, r) case None => None case Some(v) => Some(Bool(v.b))
  {
    if l.Set? {
      SetContainsCommutes(t, l, r);
    }
    hide NoDup, StrOf, Defined, HasSubstring, DefinedTerm;
  }

  lemma SetContainsCommutes(t: Table, l: NTerm, r: NTerm)
    requires NoDup(t) && DefinedTerm(t, l) && DefinedTerm(t, r) && l.Set?
    ensures ResolveTerm(t, l).Set?
    ensures r in l.elems <==> ResolveTerm(t, r) in ResolveTerm(t, l).elems
    ensures r.Set? ==>
              && ResolveTerm(t, r).Set?
              && (r.elems <= l.elems <==> ResolveTerm(t, r).elems <= ResolveTerm(t, l).elems)
  {
    SetResolves(t, l.elems);
    SetsCommute(t, l.elems, {}, r);
    if r.Set? {
      SetResolves(t, r.elems);
      SetsCommute(t, r.elems, l.elems, l);
    }
    hide NoDup, StrOf, Defined, ResolveSet;
  }

  /** A binary operator on ids gives what it gives on the symbols, in a table that only grows. */
  lemma BinaryCommutes(regexp: Regexp, t: Table, b: BinaryOp, l: NTerm, r: NTerm)
    requires NoDup(t) && DefinedTerm(t, l) && DefinedTerm(t, r)
    ensures var (t', v) := BinaryIds(regexp, t, b, l, r);
            && Grows(t, t') && (v.Some? ==> DefinedTerm(t', v.value))
            && EvalBinary(regexp, b, ResolveTerm(t, l), ResolveTerm(t, r))
               == if v.None? then None else Some(ResolveTerm(t', v.value))
  {
    if b.Add? && l.Str? {
      if r.Str? {
        var s := StrOf(t, l.s) + StrOf(t, r.s);
        IdOfMeans(t, s);
        InternGrows(t, s);
      }
    } else {
      OverCommutes(regexp, t, b, l, r);
      assert Grows(t, t);
    }
    hide NoDup, StrOf, Defined, BinaryOver, IdOf, Interned, Sym;
  }

  /** v is what the operator gives on ids, and w on the symbols. */
  ghost predicate SameValues(t: Table, v: Option<NTerm>, w: Option<STerm>) {
    if v.None? then w.None? else DefinedTerm(t, v.value) && w == Some(ResolveTerm(t, v.value))
  }

  lemma OverCommutes(regexp: Regexp, t: Table, b: BinaryOp, l: NTerm, r: NTerm)
    requires NoDup(t) && DefinedTerm(t, l) && DefinedTerm(t, r) && !(b.Add? && l.Str?)
    ensures SameValues(t, BinaryOver(TextIn(t), regexp, b, l, r),
                       BinaryOver(Itself, regexp, b, ResolveTerm(t, l), ResolveTerm(t, r)))
  {
    hide BinaryOver, NoDup, StrOf, Defined;
    if b.Equal? {
      EqualCommutes(regexp, t, l, r);
    } else if b.Contains? {
      ContainsStepCommutes(regexp, t, l, r);
    } else if b.Intersection? || b.Union? {
      SetOpCommutes(regexp, t, b, l, r);
    } else {
      ScalarsCommute(regexp, t, b, l, r);
    }
  }

  lemma EqualCommutes(regexp: Regexp, t: Table, l: NTerm, r: NTerm)
    requires NoDup(t) && DefinedTerm(t, l) && DefinedTerm(t, r)
    ensures SameValues(t, BinaryOver(TextIn(t), regexp, Equal, l, r),
                       BinaryOver(Itself, regexp, Equal, ResolveTerm(t, l), ResolveTerm(t, r)))
  {
    TermsResolveApart(t, l, r);
    assert TypeOf(ResolveTerm(t, l)) == TypeOf(l) && TypeOf(ResolveTerm(t, r)) == TypeOf(r);
    hide NoDup, StrOf, Defined, TypeOf;
  }

  lemma ContainsStepCommutes(regexp: Regexp, t: Table, l: NTerm, r: NTerm)
    requires NoDup(t) && DefinedTerm(t, l) && DefinedTerm(t, r)
    ensures SameValues(t, BinaryOver(TextIn(t), regexp, Contains, l, r),
                       BinaryOver(Itself, regexp, Contains, ResolveTerm(t, l), ResolveTerm(t, r)))
  {
    ContainsCommutes(t, l, r);
    hide EvalContains, NoDup, StrOf, Defined;
  }

  lemma SetOpCommutes(regexp: Regexp, t: Table, b: BinaryOp, l: NTerm, r: NTerm)
    requires NoDup(t) && DefinedTerm(t, l) && DefinedTerm(t, r) && (b.Intersection? || b.Union?)
    ensures SameValues(t, BinaryOver(TextIn(t), regexp, b, l, r),
                       BinaryOver(Itself, regexp, b, ResolveTerm(t, l), ResolveTerm(t, r)))
  {
    assert (ResolveTerm(t, l).Set? <==> l.Set?) && (ResolveTerm(t, r).Set? <==> r.Set?);
    hide NoDup, StrOf, Defined, DefinedTerm, ResolveTerm;
    if l.Set? && r.Set? {
      SetResultsCommute(t, l, r);
    }
  }

  lemma ScalarsCommute(regexp: Regexp, t: Table, b: BinaryOp, l: NTerm, r: NTerm)
    requires !b.Equal? && !b.Contains? && !b.Intersection? && !b.Union? && !(b.Add? && l.Str?)
    ensures var v := BinaryOver(TextIn(t), regexp, b, l, r);
            && (v.Some? ==> v.value.Bool? || v.value.Integer?)
            && BinaryOver(Itself, regexp, b, ResolveTerm(t, l), ResolveTerm(t, r))
               == if v.None? then None else Some(ResolveTerm(t, v.value))
  {
    if b.LessThan? || b.LessOrEqual? || b.GreaterThan? || b.GreaterOrEqual? {
      OrderCommutes(t, b, l, r);
    } else if b.Prefix? || b.Suffix? || b.Regex? {
      TextsCommute(regexp, t, b, l, r);
    } else if b.Add? || b.Sub? || b.Mul? || b.Div? {
      IntegersCommute(t, b, l, r);
    }
    hide EvalOrder, EvalTexts, EvalIntegers, StrOf;
  }

  lemma OrderCommutes(t: Table, b: BinaryOp, l: NTerm, r: NTerm)
    requires b.LessThan? || b.LessOrEqual? || b.GreaterThan? || b.GreaterOrEqual?
    ensures var v := EvalOrder(b, l, r);
            && (v.Some? ==> v.value.Bool?)
            && EvalOrder(b, ResolveTerm(t, l), ResolveTerm(t, r)) == if v.None? then None else Some(Bool(v.value.b))
  {
    hide StrOf;
  }

  lemma TextsCommute(regexp: Regexp, t: Table, b: BinaryOp, l: NTerm, r: NTerm)
    requires b.Prefix? || b.Suffix? || b.Regex?
    ensures var v := EvalTexts(TextIn(t), regexp, b, l, r);
            && (v.Some? ==> v.value.Bool?)
            && EvalTexts(Itself, regexp, b, ResolveTerm(t, l), ResolveTerm(t, r)) ==
               if v.None? then None else Some(Bool(v.value.b))
  {
    hide StrOf;
  }

  lemma IntegersCommute(t: Table, b: BinaryOp, l: NTerm, r: NTerm)
    requires b.Add? || b.Sub? || b.Mul? || b.Div?
    ensures var v := EvalIntegers(b, l, r);
            && (v.Some? ==> v.value.Integer?)
            && EvalIntegers(b, ResolveTerm(t, l), ResolveTerm(t, r)) ==
               if v.None? then None else Some(Integer(v.value.i))
  {
    hide StrOf, Divide;
  }

  lemma SetResolves(t: Table, es: set<NTerm>)
    ensures ResolveTerm(t, Set(es)) == Set(ResolveSet(t, es))
  {
    hide StrOf;
  }

  lemma SetResultsCommute(t: Table, l: NTerm, r: NTerm)
    requires NoDup(t) && DefinedTerm(t, l) && DefinedTerm(t, r) && l.Set? && r.Set?
    ensures DefinedTerm(t, Set(l.elems * r.elems)) && DefinedTerm(t, Set(l.elems + r.elems))
    ensures ResolveTerm(t, Set(l.elems * r.elems)) == Set(ResolveTerm(t, l).elems * ResolveTerm(t, r).elems)
    ensures ResolveTerm(t, Set(l.elems + r.elems)) == Set(ResolveTerm(t, l).elems + ResolveTerm(t, r).elems)
  {
    hide NoDup, StrOf, Defined;
    SetsCommute(t, l.elems, r.elems, l);
    SetResolves(t, l.elems);
    SetResolves(t, r.elems);
    SetResolves(t, l.elems * r.elems);
    SetResolves(t, l.elems + r.elems);
    hide ResolveTerm, ResolveSet;
  }

  lemma MirrorsGrow(t: Table, t': Table, m: Bindings<nat>, n: Bindings<string>)
    requires t <= t' && Mirrors(t, m, n)
    ensures Mirrors(t', m, n)
  {
    hide StrOf, Defined, DefinedTerm, ResolveTerm;
    forall v | v in m
      ensures Defined(t', v) && StrOf(t', v) == StrOf(t, v)
      ensures DefinedTerm(t', m[v]) && ResolveTerm(t', m[v]) == ResolveTerm(t, m[v])
    {
      IdGrows(t, t', v);
      TermGrows(t, t', m[v]);
    }
    assert Names(t', m.Keys) == Names(t, m.Keys);
  }

  /** The same error, or stacks that stand for the same values. */
  ghost predicate SameStacks(t: Table, r: Result<seq<NTerm>, MachineError>, s: Result<seq<STerm>, MachineError>) {
    if r.Err? then s.Err? && s.error == r.error
    else s.Ok? && DefinedTerms(t, r.value) && s.value == ResolveTerms(t, r.value)
  }

  /** A result is pushed alike on both stacks, once k values are popped. */
  lemma PushCommutes(t: Table, t': Table, stack: seq<NTerm>, k: nat, v: NTerm)
    requires t <= t' && DefinedTerms(t, stack) && k <= |stack| && DefinedTerm(t', v)
    ensures SameStacks(t', Push(stack[..k], v), Push(ResolveTerms(t, stack)[..k], ResolveTerm(t', v)))
  {
    hide ResolveTerm, DefinedTerm;
    TermsGrow(t, t', stack);
    var after := stack[..k] + [v];
    assert DefinedTerms(t', after);
    assert ResolveTerms(t', after) == ResolveTerms(t, stack)[..k] + [ResolveTerm(t', v)];
  }

  /** The first values of a stack, resolved. */
  lemma ResolvedPrefix(t: Table, stack: seq<NTerm>)
    ensures stack[..|stack|] == stack && ResolveTerms(t, stack)[..|stack|] == ResolveTerms(t, stack)
  {
  }

  lemma ValueCommutes(regexp: Regexp, t: Table, x: NTerm, m: Bindings<nat>, n: Bindings<string>, stack: seq<NTerm>)
    requires NoDup(t) && Mirrors(t, m, n) && DefinedTerm(t, x) && DefinedTerms(t, stack)
    ensures var (t', r) := StepIds(regexp, t, Value(x), m, stack);
            t' == t && SameStacks(t, r, Step(EvalAlgebra(regexp, n), Value(ResolveTerm(t, x)), ResolveTerms(t, stack)))
  {
    ResolvedPrefix(t, stack);
    if x.Variable? {
      BoundAlike(t, m, n, x.v);
    }
    hide NoDup, StrOf, Defined, ResolveTerms, DefinedTerms, Push, Names;
    if !x.Variable? {
      PushCommutes(t, t, stack, |stack|, x);
    } else if x.v in m {
      PushCommutes(t, t, stack, |stack|, m[x.v]);
    }
  }

  lemma UnaryStepCommutes(regexp: Regexp, t: Table, u: UnaryOp, m: Bindings<nat>, n: Bindings<string>,
                          stack: seq<NTerm>)
    requires NoDup(t) && DefinedTerms(t, stack)
    ensures var (t', r) := StepIds(regexp, t, Unary(u), m, stack);
            t' == t && SameStacks(t, r, Step(EvalAlgebra(regexp, n), Unary(u), ResolveTerms(t, stack)))
  {
    var k := |stack|;
    hide NoDup, StrOf, Defined, ResolveTerm, DefinedTerm, EvalUnary, UnaryOver, Push;
    if k >= 1 {
      UnaryCommutes(t, u, stack[k - 1]);
      var v := UnaryOver(TextIn(t), u, stack[k - 1]);
      if v.Some? {
        PushCommutes(t, t, stack, k - 1, v.value);
      }
    }
  }

  lemma BinaryStepCommutes(regexp: Regexp, t: Table, b: BinaryOp, m: Bindings<nat>, n: Bindings<string>,
                           stack: seq<NTerm>)
    requires NoDup(t) && DefinedTerms(t, stack)
    ensures var (t', r) := StepIds(regexp, t, Binary(b), m, stack);
            Grows(t, t') && SameStacks(t', r, Step(EvalAlgebra(regexp, n), Binary(b), ResolveTerms(t, stack)))
  {
    var k := |stack|;
    hide NoDup, StrOf, Defined, ResolveTerm, DefinedTerm, EvalBinary, BinaryIds, Push;
    if k >= 2 {
      BinaryCommutes(regexp, t, b, stack[k - 2], stack[k - 1]);
      var (t', v) := BinaryIds(regexp, t, b, stack[k - 2], stack[k - 1]);
      if v.Some? {
        PushCommutes(t, t', stack, k - 2, v.value);
      }
    }
  }

  /** One operation does the same on ids as on symbols. */
  lemma StepCommutes(regexp: Regexp, t: Table, op: Op<nat>, m: Bindings<nat>, n: Bindings<string>, stack: seq<NTerm>)
    requires NoDup(t) && Mirrors(t, m, n) && DefinedOp(t, op) && DefinedTerms(t, stack)
    ensures var (t', r) := StepIds(regexp, t, op, m, stack);
            && Grows(t, t')
            && SameStacks(t', r, Step(EvalAlgebra(regexp, n), ResolveOp(t, op), ResolveTerms(t, stack)))
  {
    hide StepIds, Step, EvalAlgebra, Mirrors, ResolveTerm, ResolveTerms, DefinedTerm, DefinedTerms, SameStacks, NoDup;
    match op
    case Value(x) => ValueCommutes(regexp, t, x, m, n, stack);
    case Unary(u) => UnaryStepCommutes(regexp, t, u, m, n, stack);
    case Binary(b) => BinaryStepCommutes(regexp, t, b, m, n, stack);
  }

  lemma {:induction false} ExecCommutes(regexp: Regexp, t: Table, code: Expression<nat>, m: Bindings<nat>,
                                        n: Bindings<string>, stack: seq<NTerm>)
    requires NoDup(t) && Mirrors(t, m, n) && DefinedExpression(t, code) && DefinedTerms(t, stack)
    ensures var (t', r) := ExecIds(regexp, t, code, m, stack);
            && Grows(t, t')
            && SameStacks(t', r, Exec(EvalAlgebra(regexp, n), ResolveExpression(t, code), ResolveTerms(t, stack)))
    decreases |code|
  {
    hide NoDup, StrOf, Defined, ResolveTerms, DefinedTerms, Mirrors, EvalAlgebra, StepIds, Step, ResolveOp, DefinedOp;
    if code != [] {
      var (t', r) := StepIds(regexp, t, code[0], m, stack);
      var scode := ResolveExpression(t, code);
      StepCommutes(regexp, t, code[0], m, n, stack);
      if r.Ok? {
        assert DefinedExpression(t, code[1..]);
        ExpressionGrows(t, t', code[1..]);
        MirrorsGrow(t, t', m, n);
        assert scode[1..] == ResolveExpression(t', code[1..]);
        ExecCommutes(regexp, t', code[1..], m, n, r.value);
      }
    }
  }

  /** Evaluating an expression on ids gives the value that evaluating it on the symbols gives, or the
      same error; the table only grows, and stays without duplicates. */
  lemma RunCommutes(regexp: Regexp, t: Table, code: Expression<nat>, m: Bindings<nat>, n: Bindings<string>)
    requires NoDup(t) && Mirrors(t, m, n) && DefinedExpression(t, code)
    ensures var (t', r) := RunIds(regexp, t, code, m);
            var s := Run(EvalAlgebra(regexp, n), ResolveExpression(t, code));
            && Grows(t, t')
            && if r.Err? then s == Err(r.error) else DefinedTerm(t', r.value) && s == Ok(ResolveTerm(t', r.value))
  {
    hide NoDup, Mirrors, EvalAlgebra, ResolveTerm, DefinedTerm, DefinedExpression, Step, StepIds;
    ExecCommutes(regexp, t, code, m, n, []);
    assert ResolveTerms(t, []) == [];
    var (t', r) := ExecIds(regexp, t, code, m, []);
    var s := Exec(EvalAlgebra(regexp, n), ResolveExpression(t, code), []);
    assert SameStacks(t', r, s);
    assert r.Err? ==> Run(EvalAlgebra(regexp, n), ResolveExpression(t, code)) == Err(s.error);
  }

  // ---- A rule on one tuple of facts ----

  function JudgeIds(regexp: Regexp, t: Table, exprs: seq<Expression<nat>>, m: Bindings<nat>): (Table, Verdict)
    decreases |exprs|
  {
    if exprs == [] then (t, Holds)
    else
      var (t', r) := RunIds(regexp, t, exprs[0], m);
      match r
      case Err(_) => (t', Broken)
      case Ok(v) => if v == Bool(true) then JudgeIds(regexp, t', exprs[1..], m) else (t', Fails)
  }

  lemma {:induction false} JudgeCommutes(regexp: Regexp, t: Table, exprs: seq<Expression<nat>>, m: Bindings<nat>,
                                         n: Bindings<string>)
    requires NoDup(t) && Mirrors(t, m, n) && DefinedExpressions(t, exprs)
    ensures var (t', v) := JudgeIds(regexp, t, exprs, m);
            Grows(t, t') && v == Judge(EvalOf(regexp), ResolveExpressions(t, exprs), n)
    decreases |exprs|
  {
    hide NoDup, Mirrors, EvalAlgebra, RunIds, Run, ResolveExpression, DefinedExpression, StrOf, Defined;
    if exprs != [] {
      var (t', r) := RunIds(regexp, t, exprs[0], m);
      var sexprs := ResolveExpressions(t, exprs);
      RunCommutes(regexp, t, exprs[0], m, n);
      if r.Ok? && r.value == Bool(true) {
        assert DefinedExpressions(t, exprs[1..]);
        ExpressionsGrow(t, t', exprs[1..]);
        MirrorsGrow(t, t', m, n);
        assert sexprs[1..] == ResolveExpressions(t', exprs[1..]);
        JudgeCommutes(regexp, t', exprs[1..], m, n);
      }
    }
  }

  /** The expressions of a `reject if`, on ids. */
  function JudgeNoneIds(regexp: Regexp, t: Table, exprs: seq<Expression<nat>>, m: Bindings<nat>): (Table, Verdict)
    decreases |exprs|
  {
    if exprs == [] then (t, Holds)
    else
      var (t', r) := RunIds(regexp, t, exprs[0], m);
      match r
      case Err(_) => (t', Broken)
      case Ok(v) => if v == Bool(true) then (t', Fails) else JudgeNoneIds(regexp, t', exprs[1..], m)
  }

  lemma {:induction false} JudgeNoneCommutes(regexp: Regexp, t: Table, exprs: seq<Expression<nat>>, m: Bindings<nat>,
                                             n: Bindings<string>)
    requires NoDup(t) && Mirrors(t, m, n) && DefinedExpressions(t, exprs)
    ensures var (t', v) := JudgeNoneIds(regexp, t, exprs, m);
            Grows(t, t') && v == JudgeNone(EvalOf(regexp), ResolveExpressions(t, exprs), n)
    decreases |exprs|
  {
    hide NoDup, Mirrors, EvalAlgebra, RunIds, Run, ResolveExpression, DefinedExpression, StrOf, Defined;
    if exprs != [] {
      var (t', r) := RunIds(regexp, t, exprs[0], m);
      var sexprs := ResolveExpressions(t, exprs);
      RunCommutes(regexp, t, exprs[0], m, n);
      if r.Ok? && r.value != Bool(true) {
        assert DefinedExpressions(t, exprs[1..]);
        ExpressionsGrow(t, t', exprs[1..]);
        MirrorsGrow(t, t', m, n);
        assert sexprs[1..] == ResolveExpressions(t', exprs[1..]);
        JudgeNoneCommutes(regexp, t', exprs[1..], m, n);
      }
    }
  }

  datatype FiringIds = SilentIds | ErrorIds | YieldsIds(fact: Fact<nat>)

  /** What a rule does with one tuple of facts, on ids. */
  function FireIds(regexp: Regexp, t: Table, rule: Rule<nat>, facts: seq<Fact<nat>>): (Table, FiringIds)
    requires |facts| == |rule.body|
  {
    match Unify(rule.body, facts)
    case None => (t, SilentIds)
    case Some(m) =>
      var (t', verdict) := JudgeIds(regexp, t, rule.expressions, m);
      match verdict
      case Fails => (t', SilentIds)
      case Broken => (t', ErrorIds)
      case Holds =>
        match Instantiate(m, rule.head)
        case None => (t', ErrorIds)
        case Some(f) => (t', YieldsIds(f))
  }

  /** A rule does on ids what it does on the symbols: it is silent, errs, or yields the same fact. */
  lemma FireCommutes(regexp: Regexp, t: Table, rule: Rule<nat>, block: BlockId, facts: seq<Fact<nat>>, fs: seq<DFact>)
    requires NoDup(t) && DefinedRule(t, rule) && DefinedPredicates(t, facts)
    requires |facts| == |rule.body| && FactsOf(fs) == ResolvePredicates(t, facts)
    ensures var (t', r) := FireIds(regexp, t, rule, facts);
            var s := Fire(EvalOf(regexp), ResolveRule(t, rule), block, fs);
            && Grows(t, t')
            && match r
               case SilentIds => s.Silent?
               case ErrorIds => s.Error?
               case YieldsIds(f) => s.Yields? && DefinedPredicate(t', f) && s.fact.fact == ResolvePredicate(t', f)
  {
    hide NoDup, Mirrors, JudgeIds, Judge, Unify, Instantiate, StrOf, Defined, EvalOf,
         DefinedPredicate, DefinedPredicates, DefinedExpressions, ResolvePredicate, ResolvePredicates,
         ResolveExpressions;
    UnifyCommutes(t, rule.body, facts);
    var m := Unify(rule.body, facts);
    if m.Some? {
      var n := Unify(ResolvePredicates(t, rule.body), FactsOf(fs)).value;
      JudgeCommutes(regexp, t, rule.expressions, m.value, n);
      InstantiateCommutes(t, m.value, n, rule.head);
      var f := Instantiate(m.value, rule.head);
      if f.Some? {
        PredicateGrows(t, JudgeIds(regexp, t, rule.expressions, m.value).0, f.value);
      }
    }
  }

  // ---- Moving from one table to another ----

  /** fromDatalogFact followed by convert: the fact keeps its meaning. */
  method MoveFact(f: Fact<nat>, blockSymbols: Table, table: SymbolTable) returns (g: Fact<nat>)
    modifies table
    ensures Grows(old(table.entries), table.entries)
    ensures NamesFit(table.entries, VarsInTerms(ResolvePredicate(blockSymbols, f).terms)) ==>
              && DefinedPredicate(table.entries, g)
              && ResolvePredicate(table.entries, g) == ResolvePredicate(blockSymbols, f)
    ensures NoDup(table.entries) && ResolvePredicate(table.entries, g) == ResolvePredicate(blockSymbols, f)
            && (DefinedPredicate(table.entries, g)
                || PlainNames(VarsInTerms(ResolvePredicate(blockSymbols, f).terms))) ==>
              NamesFit(table.entries, VarsInTerms(ResolvePredicate(blockSymbols, f).terms))
  {
    hide NoDup, ResolvePredicate, DefinedPredicate;
    g := ConvertPredicate(ResolvePredicate(blockSymbols, f), table);
  }

  /** fromDatalogRule followed by Convert. */
  method MoveRule(r: Rule<nat>, blockSymbols: Table, table: SymbolTable) returns (q: Rule<nat>)
    modifies table
    ensures Grows(old(table.entries), table.entries)
    ensures NamesFit(table.entries, VarsInRule(ResolveRule(blockSymbols, r))) ==>
              DefinedRule(table.entries, q) && ResolveRule(table.entries, q) == ResolveRule(blockSymbols, r)
    ensures NoDup(table.entries) && ResolveRule(table.entries, q) == ResolveRule(blockSymbols, r)
            && (DefinedRule(table.entries, q) || PlainNames(VarsInRule(ResolveRule(blockSymbols, r)))) ==>
              NamesFit(table.entries, VarsInRule(ResolveRule(blockSymbols, r)))
  {
    hide NoDup, ResolveRule, DefinedRule;
    q := ConvertRule(ResolveRule(blockSymbols, r), table);
  }

  /** fromDatalogCheck followed by Convert: the queries keep their meaning, and the check its kind. */
  method MoveCheck(c: Check<nat>, blockSymbols: Table, table: SymbolTable) returns (q: Check<nat>)
    modifies table
    ensures Grows(old(table.entries), table.entries)
    ensures NamesFit(table.entries, VarsInRules(ResolveCheck(blockSymbols, c).queries)) ==>
              && DefinedRules(table.entries, q.queries)
              && ResolveCheck(table.entries, q) == ResolveCheck(blockSymbols, c)
    ensures NoDup(table.entries) && ResolveCheck(table.entries, q) == ResolveCheck(blockSymbols, c)
            && (DefinedRules(table.entries, q.queries)
                || PlainNames(VarsInRules(ResolveCheck(blockSymbols, c).queries))) ==>
              NamesFit(table.entries, VarsInRules(ResolveCheck(blockSymbols, c).queries))
  {
    hide NoDup, ResolveRules, DefinedRules;
    q := ConvertCheck(ResolveCheck(blockSymbols, c), table);
  }

  /** What a rule does with facts is the same in two tables in which they stand for the same:
      re-interning a token into the authorizer's table changes nothing. */
  lemma FiringMoves(regexp: Regexp, t: Table, u: Table, rule: Rule<nat>, rule': Rule<nat>, facts: seq<Fact<nat>>,
                    facts': seq<Fact<nat>>)
    requires NoDup(t) && DefinedRule(t, rule) && DefinedPredicates(t, facts) && |facts| == |rule.body|
    requires NoDup(u) && DefinedRule(u, rule') && DefinedPredicates(u, facts')
    requires ResolveRule(t, rule) == ResolveRule(u, rule') &&
             ResolvePredicates(t, facts) == ResolvePredicates(u, facts')
    ensures |facts'| == |rule'.body|
    ensures var (t', r), (u', s) := FireIds(regexp, t, rule, facts), FireIds(regexp, u, rule', facts');
            && (r.SilentIds? <==> s.SilentIds?) && (r.ErrorIds? <==> s.ErrorIds?)
            && (r.YieldsIds? ==> ResolvePredicate(t', r.fact) == ResolvePredicate(u', s.fact))
  {
    hide NoDup, FireIds, Fire, DefinedRule, DefinedPredicates, ResolvePredicate;
    var fs := seq(|facts|, i requires 0 <= i < |facts| => OriginFact({}, ResolvePredicates(t, facts)[i]));
    assert FactsOf(fs) == ResolvePredicates(t, facts);
    assert |ResolveRule(t, rule).body| == |rule.body| && |ResolveRule(u, rule').body| == |rule'.body|;
    FireCommutes(regexp, t, rule, 0, facts, fs);
    FireCommutes(regexp, u, rule', 0, facts', fs);
  }
}
