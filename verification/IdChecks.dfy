/** Checks on table ids (datalog/datalog.go, datalog/evaluator.go): with the symbol table growing from expression to
    expression, a check can come to exactly the verdicts it can come to on the symbols. */
module IdChecks {
  import opened Wrappers
  import opened Types
  import opened Symbols
  import opened Interning
  import opened Matching
  import opened Odometer
  import opened Datalog
  import opened Evaluation
  import opened Expressions
  import opened Scopes
  import opened Checks
  import opened Reinterning
  import opened IdWorlds

  // ---- The expressions of a query, over its matches ----

  /** The verify functions on ids, over the bindings of the matches in their order. */
  function KindOfIds(regexp: Regexp, t: Table, kind: CheckKind, exprs: seq<Expression<nat>>, ms: seq<Bindings<nat>>,
                     found: bool): (Table, Option<bool>)
    decreases |ms|
  {
    if ms == [] then (t, Some(if kind == CheckOne then false else if kind == CheckAll then found else true))
    else
      var (t', v) :=
        if kind == CheckReject then JudgeNoneIds(regexp, t, exprs, ms[0]) else JudgeIds(regexp, t, exprs, ms[0]);
      match v
      case Broken => (t', None)
      case Holds => if kind == CheckOne then (t', Some(true)) else KindOfIds(regexp, t', kind, exprs, ms[1..], true)
      case Fails => if kind == CheckOne then KindOfIds(regexp, t', kind, exprs, ms[1..], found) else (t', Some(false))
  }

  function KindFrom(kind: CheckKind, eval: Eval, exprs: seq<Expression<string>>, ns: seq<Bindings<string>>,
                    found: bool): Option<bool>
  {
    if kind == CheckAll then AllOf(eval, exprs, ns, found) else KindOf(kind, eval, exprs, ns)
  }

  ghost predicate AllMirror(t: Table, ms: seq<Bindings<nat>>, ns: seq<Bindings<string>>) {
    |ms| == |ns| && forall i :: 0 <= i < |ms| ==> Mirrors(t, ms[i], ns[i])
  }

  lemma AllMirrorGrow(t: Table, t': Table, ms: seq<Bindings<nat>>, ns: seq<Bindings<string>>)
    requires t <= t' && AllMirror(t, ms, ns)
    ensures AllMirror(t', ms, ns)
  {
    hide Mirrors;
    forall i | 0 <= i < |ms|
      ensures Mirrors(t', ms[i], ns[i])
    {
      MirrorsGrow(t, t', ms[i], ns[i]);
    }
  }

  /** A query of any kind of check comes to the same verdict on ids as on the symbols, over
      matches that mirror each other in the same order. */
  lemma {:induction false} KindCommutes(regexp: Regexp, t: Table, kind: CheckKind, exprs: seq<Expression<nat>>,
                                        ms: seq<Bindings<nat>>, ns: seq<Bindings<string>>, found: bool)
    requires NoDup(t) && AllMirror(t, ms, ns) && DefinedExpressions(t, exprs)
    ensures var (t', v) := KindOfIds(regexp, t, kind, exprs, ms, found);
            Grows(t, t') && v == KindFrom(kind, EvalOf(regexp), ResolveExpressions(t, exprs), ns, found)
    decreases |ms|
  {
    hide NoDup, Mirrors, EvalOf, JudgeIds, JudgeNoneIds, Judge, JudgeNone, DefinedExpressions, ResolveExpressions;
    if ms != [] {
      JudgeCommutes(regexp, t, exprs, ms[0], ns[0]);
      JudgeNoneCommutes(regexp, t, exprs, ms[0], ns[0]);
      var (t', v) :=
        if kind == CheckReject then JudgeNoneIds(regexp, t, exprs, ms[0]) else JudgeIds(regexp, t, exprs, ms[0]);
      AllMirrorGrow(t, t', ms[1..], ns[1..]);
      ExpressionsGrow(t, t', exprs);
      KindCommutes(regexp, t', kind, exprs, ms[1..], ns[1..], if kind == CheckOne then found else true);
    }
  }

  // ---- The matches of a query ----

  /** The facts at the positions of an index tuple. */
  function IdsAt(all: seq<IFact>, u: seq<nat>): (fs: seq<Fact<nat>>)
    requires IsTuple(u, |all|)
    ensures |fs| == |u| && forall i :: 0 <= i < |u| ==> fs[i] == all[u[i]].fact
  {
    seq(|u|, i requires 0 <= i < |u| => all[u[i]].fact)
  }

  /** The bindings under which an index tuple is a match, if it is one. */
  function MatchIds(preds: seq<Predicate<nat>>, all: seq<IFact>, u: seq<nat>): Option<Bindings<nat>>
    requires |u| == |preds| && IsTuple(u, |all|)
  {
    Unify(preds, IdsAt(all, u))
  }

  /** us are the index tuples of all the matches, in lexicographic order, and ms their bindings. */
  ghost predicate ListedIds(preds: seq<Predicate<nat>>, all: seq<IFact>, ms: seq<Bindings<nat>>, us: seq<seq<nat>>) {
    && |us| == |ms|
    && (forall i :: 0 <= i < |us| ==>
          |us[i]| == |preds| && IsTuple(us[i], |all|) && MatchIds(preds, all, us[i]) == Some(ms[i]))
    && (forall i, j :: 0 <= i < j < |us| ==> |us[i]| == |us[j]| && LexLess(us[i], us[j]))
    && (forall u :: |u| == |preds| && IsTuple(u, |all|) && u !in us ==> MatchIds(preds, all, u).None?)
  }

  /** all lists the set of facts. */
  ghost predicate ListsIds(all: seq<IFact>, facts: set<IFact>) {
    (forall f :: f in all <==> f in facts) && |all| == |facts|
  }

  /** An index tuple matches on ids exactly when it does on the symbols, with bindings that mirror each other. */
  lemma MatchAlike(t: Table, preds: seq<Predicate<nat>>, all: seq<IFact>, u: seq<nat>)
    requires NoDup(t) && DefinedPredicates(t, preds) && forall i :: 0 <= i < |all| ==> DefinedFact(t, all[i])
    requires |u| == |preds| && IsTuple(u, |all|)
    ensures Alike(t, MatchIds(preds, all, u), MatchAt(ResolvePredicates(t, preds), ResolveTuple(t, all), u))
  {
    hide NoDup, Mirrors, DefinedPredicate, ResolvePredicate, Unify;
    var fs := IdsAt(all, u);
    forall i | 0 <= i < |fs|
      ensures DefinedPredicate(t, fs[i])
    {
      assert DefinedFact(t, all[u[i]]);
    }
    UnifyCommutes(t, preds, fs);
    assert FactsOf(At(ResolveTuple(t, all), u)) == ResolvePredicates(t, fs);
  }

  /** The matches found on ids mirror those found on the symbols, in the same order. */
  lemma MatchesOnSymbols(t: Table, preds: seq<Predicate<nat>>, all: seq<IFact>, ms: seq<Bindings<nat>>,
                         us: seq<seq<nat>>) returns (ns: seq<Bindings<string>>)
    requires NoDup(t) && DefinedPredicates(t, preds) && forall i :: 0 <= i < |all| ==> DefinedFact(t, all[i])
    requires ListedIds(preds, all, ms, us)
    ensures AllMirror(t, ms, ns) && ListedBy(ResolvePredicates(t, preds), ResolveTuple(t, all), ns, us)
  {
    hide NoDup, Mirrors, DefinedPredicates, DefinedFact, ResolvePredicate, ResolveFact, MatchIds, MatchAt, LexLess;
    var sp, sf := ResolvePredicates(t, preds), ResolveTuple(t, all);
    forall u | |u| == |preds| && IsTuple(u, |all|)
      ensures Alike(t, MatchIds(preds, all, u), MatchAt(sp, sf, u))
    {
      MatchAlike(t, preds, all, u);
    }
    ns := seq(|us|, i requires 0 <= i < |us| => MatchAt(sp, sf, us[i]).value);
  }

  /** And the other way round. */
  lemma MatchesOnIds(t: Table, preds: seq<Predicate<nat>>, all: seq<IFact>, ns: seq<Bindings<string>>,
                     us: seq<seq<nat>>) returns (ms: seq<Bindings<nat>>)
    requires NoDup(t) && DefinedPredicates(t, preds) && forall i :: 0 <= i < |all| ==> DefinedFact(t, all[i])
    requires ListedBy(ResolvePredicates(t, preds), ResolveTuple(t, all), ns, us)
    ensures AllMirror(t, ms, ns) && ListedIds(preds, all, ms, us)
  {
    hide NoDup, Mirrors, DefinedPredicates, DefinedFact, ResolvePredicate, ResolveFact, MatchIds, MatchAt, LexLess;
    var sp, sf := ResolvePredicates(t, preds), ResolveTuple(t, all);
    forall u | |u| == |preds| && IsTuple(u, |all|)
      ensures Alike(t, MatchIds(preds, all, u), MatchAt(sp, sf, u))
    {
      MatchAlike(t, preds, all, u);
    }
    forall u | |u| == |preds| && IsTuple(u, |all|) && u !in us
      ensures MatchIds(preds, all, u).None?
    {
      assert IsTupleOf(sp, sf, u);
      assert NoMatch(sp, sf, u);
    }
    ms := seq(|us|, i requires 0 <= i < |us| => MatchIds(preds, all, us[i]).value);
  }

  // ---- A query ----

  /** A query over these facts can give r on ids, for some order of the facts, with t' the table afterwards. */
  ghost predicate CanQueryIds(regexp: Regexp, t: Table, kind: CheckKind, query: Rule<nat>, facts: set<IFact>,
                              t': Table, r: Option<bool>)
  {
    exists all, ms, us ::
      ListsIds(all, facts) && ListedIds(query.body, all, ms, us)
      && (t', r) == KindOfIds(regexp, t, kind, query.expressions, ms, false)
  }

  lemma ListingResolves(t: Table, all: seq<IFact>, facts: set<IFact>)
    requires NoDup(t) && DefinedFacts(t, facts) && ListsIds(all, facts)
    ensures Lists(ResolveTuple(t, all), ResolveFacts(t, facts))
    ensures forall i :: 0 <= i < |all| ==> DefinedFact(t, all[i])
  {
    FactsCount(t, facts);
    hide NoDup, ResolveFact, DefinedFact;
    var sf := ResolveTuple(t, all);
    forall g | g in ResolveFacts(t, facts)
      ensures g in sf
    {
      var f :| f in facts && ResolveFact(t, f) == g;
      var i :| 0 <= i < |all| && all[i] == f;
      assert sf[i] == g;
    }
    forall i | 0 <= i < |all|
      ensures all[i] in facts && sf[i] in ResolveFacts(t, facts)
    {
    }
  }

  /** Every listing of what the facts stand for comes from one of the facts. */
  lemma ListingOfResolved(t: Table, facts: set<IFact>, sf: seq<DFact>) returns (all: seq<IFact>)
    requires NoDup(t) && DefinedFacts(t, facts) && Lists(sf, ResolveFacts(t, facts))
    ensures ListsIds(all, facts) && ResolveTuple(t, all) == sf
  {
    FactsCount(t, facts);
    hide NoDup, ResolveFact, DefinedFact;
    all := [];
    while |all| < |sf|
      invariant |all| <= |sf| && forall i :: 0 <= i < |all| ==> all[i] in facts && ResolveFact(t, all[i]) == sf[i]
    {
      assert sf[|all|] in ResolveFacts(t, facts);
      var f :| f in facts && ResolveFact(t, f) == sf[|all|];
      all := all + [f];
    }
    forall f | f in facts
      ensures f in all
    {
      assert ResolveFact(t, f) in sf;
      var i :| 0 <= i < |sf| && sf[i] == ResolveFact(t, f);
      assert DefinedFact(t, f) && DefinedFact(t, all[i]);
      FactsResolveApart(t, f, all[i]);
    }
  }

  lemma QueryOnSymbols(regexp: Regexp, t: Table, kind: CheckKind, query: Rule<nat>, facts: set<IFact>, t': Table,
                       r: Option<bool>)
    requires NoDup(t) && DefinedRule(t, query) && DefinedFacts(t, facts)
    requires CanQueryIds(regexp, t, kind, query, facts, t', r)
    ensures Grows(t, t') && CanQuery(kind, EvalOf(regexp), ResolveRule(t, query), ResolveFacts(t, facts), r)
  {
    var all, ms, us :| ListsIds(all, facts) && ListedIds(query.body, all, ms, us)
                       && (t', r) == KindOfIds(regexp, t, kind, query.expressions, ms, false);
    ListingResolves(t, all, facts);
    hide NoDup, DefinedFact, DefinedPredicates, DefinedExpressions, ResolvePredicates, ResolveExpressions, EvalOf,
         ListedIds, ListedBy, AllMirror, KindOfIds, Lists, ListsIds, ResolveFacts, ResolveTuple;
    var ns := MatchesOnSymbols(t, query.body, all, ms, us);
    KindCommutes(regexp, t, kind, query.expressions, ms, ns, false);
    assert MatchList(ResolvePredicates(t, query.body), ResolveTuple(t, all), ns);
  }

  lemma QueryOnIds(regexp: Regexp, t: Table, kind: CheckKind, query: Rule<nat>, facts: set<IFact>, r: Option<bool>)
      returns (t': Table)
    requires NoDup(t) && DefinedRule(t, query) && DefinedFacts(t, facts)
    requires CanQuery(kind, EvalOf(regexp), ResolveRule(t, query), ResolveFacts(t, facts), r)
    ensures CanQueryIds(regexp, t, kind, query, facts, t', r)
  {
    var squery := ResolveRule(t, query);
    var sf, ns :| Lists(sf, ResolveFacts(t, facts)) && MatchList(squery.body, sf, ns)
                  && r == KindOf(kind, EvalOf(regexp), squery.expressions, ns);
    var us :| ListedBy(squery.body, sf, ns, us);
    hide NoDup, DefinedFacts, DefinedPredicates, DefinedExpressions, ResolvePredicates, ResolveExpressions, EvalOf,
         ListedBy, Lists, ResolveFacts, KindOf;
    t' := ListedOnIds(regexp, t, kind, query, facts, sf, ns, us);
  }

  lemma ListedOnIds(regexp: Regexp, t: Table, kind: CheckKind, query: Rule<nat>, facts: set<IFact>, sf: seq<DFact>,
                    ns: seq<Bindings<string>>, us: seq<seq<nat>>) returns (t': Table)
    requires NoDup(t) && DefinedRule(t, query) && DefinedFacts(t, facts)
    requires Lists(sf, ResolveFacts(t, facts)) && ListedBy(ResolvePredicates(t, query.body), sf, ns, us)
    ensures CanQueryIds(regexp, t, kind, query, facts, t',
                        KindOf(kind, EvalOf(regexp), ResolveExpressions(t, query.expressions), ns))
  {
    hide NoDup, DefinedFact, DefinedFacts, DefinedPredicates, DefinedExpressions, ResolvePredicates, ResolveExpressions,
         EvalOf, ListedIds, ListedBy, AllMirror, KindOfIds, Lists, ListsIds, ResolveFacts, ResolveTuple;
    var all := ListingOfResolved(t, facts, sf);
    ListingResolves(t, all, facts);
    var ms := MatchesOnIds(t, query.body, all, ns, us);
    KindCommutes(regexp, t, kind, query.expressions, ms, ns, false);
    t' := KindOfIds(regexp, t, kind, query.expressions, ms, false).0;
    assert ListsIds(all, facts) && ListedIds(query.body, all, ms, us);
  }

  /** A query on ids can come to exactly the verdicts it can come to on the symbols. */
  lemma QueryCommutes(regexp: Regexp, t: Table, kind: CheckKind, query: Rule<nat>, facts: set<IFact>, r: Option<bool>)
    requires NoDup(t) && DefinedRule(t, query) && DefinedFacts(t, facts)
    ensures (exists t' :: CanQueryIds(regexp, t, kind, query, facts, t', r))
            <==> CanQuery(kind, EvalOf(regexp), ResolveRule(t, query), ResolveFacts(t, facts), r)
  {
    hide NoDup, DefinedRule, DefinedFacts, ResolveRule, ResolveFacts, EvalOf, CanQuery, CanQueryIds;
    if t' :| CanQueryIds(regexp, t, kind, query, facts, t', r) {
      QueryOnSymbols(regexp, t, kind, query, facts, t', r);
    }
    if CanQuery(kind, EvalOf(regexp), ResolveRule(t, query), ResolveFacts(t, facts), r) {
      var t' := QueryOnIds(regexp, t, kind, query, facts, r);
    }
  }

  // ---- A whole check ----

  /** The facts a query of a check in this block sees. */
  function SeenIds(query: Rule<nat>, blockScopes: seq<Scope>, block: BlockId, registry: Registry,
                   facts: set<IFact>): set<IFact> {
    VisibleIds(facts, TrustedFromScopes(blockScopes, query.scopes, block, registry))
  }

  /** Check.Verify on ids: the remaining queries can give r, each with the table the one before left. */
  ghost predicate CanVerifyIds(regexp: Regexp, t: Table, kind: CheckKind, queries: seq<Rule<nat>>,
                               blockScopes: seq<Scope>, block: BlockId, registry: Registry, facts: set<IFact>,
                               passing: bool, r: Option<bool>)
    decreases |queries|
  {
    if queries == [] then r == Some(passing)
    else
      exists t', q ::
        && CanQueryIds(regexp, t, kind, queries[0], SeenIds(queries[0], blockScopes, block, registry, facts), t', q)
        && match q
           case None => r == None
           case Some(b) =>
             if kind == CheckOne && b then r == Some(true)
             else CanVerifyIds(regexp, t', kind, queries[1..], blockScopes, block, registry, facts,
                               if kind == CheckOne then passing else passing && b, r)
  }

  lemma {:induction false} CheckOnSymbols(regexp: Regexp, t: Table, kind: CheckKind, queries: seq<Rule<nat>>,
                                          blockScopes: seq<Scope>, block: BlockId, registry: Registry,
                                          facts: set<IFact>, passing: bool, r: Option<bool>)
    requires NoDup(t) && DefinedRules(t, queries) && DefinedFacts(t, facts)
    requires CanVerifyIds(regexp, t, kind, queries, blockScopes, block, registry, facts, passing, r)
    ensures CanVerifyFrom(kind, EvalOf(regexp), ResolveRules(t, queries), blockScopes, block, registry,
                          ResolveFacts(t, facts), passing, r)
    decreases |queries|
  {
    hide NoDup, DefinedRule, DefinedFacts, ResolveRule, ResolveFacts, EvalOf, CanQuery, CanQueryIds, SeenIds, Seen;
    if queries != [] {
      var squeries, sfacts, rest := ResolveRules(t, queries), ResolveFacts(t, facts), queries[1..];
      var visible := SeenIds(queries[0], blockScopes, block, registry, facts);
      SeenResolves(t, queries[0], blockScopes, block, registry, facts);
      assert DefinedRule(t, queries[0]) && DefinedRules(t, rest);
      assert squeries[1..] == ResolveRules(t, rest);
      var t', q :|
        && CanQueryIds(regexp, t, kind, queries[0], visible, t', q)
        && match q
           case None => r == None
           case Some(b) =>
             if kind == CheckOne && b then r == Some(true)
             else CanVerifyIds(regexp, t', kind, rest, blockScopes, block, registry, facts,
                               if kind == CheckOne then passing else passing && b, r);
      QueryOnSymbols(regexp, t, kind, queries[0], visible, t', q);
      if q.Some? && !(kind == CheckOne && q.value) {
        RulesGrow(t, t', rest);
        FactsGrow(t, t', facts);
        CheckOnSymbols(regexp, t', kind, rest, blockScopes, block, registry, facts,
                       if kind == CheckOne then passing else passing && q.value, r);
      }
      assert CanQuery(kind, EvalOf(regexp), squeries[0], Seen(squeries[0], blockScopes, block, registry, sfacts), q);
    }
  }

  lemma {:induction false} CheckOnIds(regexp: Regexp, t: Table, kind: CheckKind, queries: seq<Rule<nat>>,
                                      blockScopes: seq<Scope>, block: BlockId, registry: Registry,
                                      facts: set<IFact>, passing: bool, r: Option<bool>)
    requires NoDup(t) && DefinedRules(t, queries) && DefinedFacts(t, facts)
    requires CanVerifyFrom(kind, EvalOf(regexp), ResolveRules(t, queries), blockScopes, block, registry,
                           ResolveFacts(t, facts), passing, r)
    ensures CanVerifyIds(regexp, t, kind, queries, blockScopes, block, registry, facts, passing, r)
    decreases |queries|
  {
    hide NoDup, DefinedRule, DefinedFacts, ResolveRule, ResolveFacts, EvalOf, CanQuery, CanQueryIds, SeenIds, Seen;
    if queries != [] {
      var squeries, sfacts, rest := ResolveRules(t, queries), ResolveFacts(t, facts), queries[1..];
      var visible := SeenIds(queries[0], blockScopes, block, registry, facts);
      SeenResolves(t, queries[0], blockScopes, block, registry, facts);
      assert DefinedRule(t, queries[0]) && DefinedRules(t, rest);
      assert squeries[1..] == ResolveRules(t, rest);
      var q :|
        && CanQuery(kind, EvalOf(regexp), squeries[0], Seen(squeries[0], blockScopes, block, registry, sfacts), q)
        && match q
           case None => r == None
           case Some(b) =>
             if kind == CheckOne && b then r == Some(true)
             else CanVerifyFrom(kind, EvalOf(regexp), squeries[1..], blockScopes, block, registry, sfacts,
                                if kind == CheckOne then passing else passing && b, r);
      var t' := QueryOnIds(regexp, t, kind, queries[0], visible, q);
      QueryOnSymbols(regexp, t, kind, queries[0], visible, t', q);
      if q.Some? && !(kind == CheckOne && q.value) {
        RulesGrow(t, t', rest);
        FactsGrow(t, t', facts);
        CheckOnIds(regexp, t', kind, rest, blockScopes, block, registry, facts,
                   if kind == CheckOne then passing else passing && q.value, r);
      }
    }
  }

  /** A check on ids can come to exactly the verdicts it can come to on the symbols. */
  lemma CheckCommutes(regexp: Regexp, t: Table, kind: CheckKind, queries: seq<Rule<nat>>, blockScopes: seq<Scope>,
                      block: BlockId, registry: Registry, facts: set<IFact>, passing: bool, r: Option<bool>)
    requires NoDup(t) && DefinedRules(t, queries) && DefinedFacts(t, facts)
    ensures CanVerifyIds(regexp, t, kind, queries, blockScopes, block, registry, facts, passing, r)
            <==> CanVerifyFrom(kind, EvalOf(regexp), ResolveRules(t, queries), blockScopes, block, registry,
                               ResolveFacts(t, facts), passing, r)
  {
    hide NoDup, DefinedRules, DefinedFacts, ResolveRules, ResolveFacts, EvalOf, CanVerifyIds, CanVerifyFrom;
    if CanVerifyIds(regexp, t, kind, queries, blockScopes, block, registry, facts, passing, r) {
      CheckOnSymbols(regexp, t, kind, queries, blockScopes, block, registry, facts, passing, r);
    }
    if CanVerifyFrom(kind, EvalOf(regexp), ResolveRules(t, queries), blockScopes, block, registry,
                     ResolveFacts(t, facts), passing, r) {
      CheckOnIds(regexp, t, kind, queries, blockScopes, block, registry, facts, passing, r);
    }
  }

  lemma SeenResolves(t: Table, query: Rule<nat>, blockScopes: seq<Scope>, block: BlockId, registry: Registry,
                     facts: set<IFact>)
    requires DefinedFacts(t, facts)
    ensures var visible := SeenIds(query, blockScopes, block, registry, facts);
            && DefinedFacts(t, visible)
            && ResolveFacts(t, visible)
               == Seen(ResolveRule(t, query), blockScopes, block, registry, ResolveFacts(t, facts))
  {
    VisibleResolves(t, facts, TrustedFromScopes(blockScopes, query.scopes, block, registry));
    hide TrustedFromScopes, DefinedFact, ResolveFact;
  }
}
