/** Rules, rounds and whole runs on table ids (datalog/datalog.go, datalog/evaluator.go): with the symbol table
    growing on the way, they come to what the engine comes to on the symbols. */
module IdWorlds {
  import opened Wrappers
  import opened Types
  import opened Symbols
  import opened Interning
  import opened Matching
  import opened Datalog
  import opened Expressions
  import opened Iteration
  import opened Worlds
  import opened Reinterning

  type IFact = OriginFact<nat>

  datatype IRule = IRule(trusted: Origin, block: BlockId, rule: Rule<nat>)

  // ---- What facts and rules stand for ----

  function ResolveFact(t: Table, f: IFact): DFact { OriginFact(f.origin, ResolvePredicate(t, f.fact)) }

  function ResolveFacts(t: Table, fs: set<IFact>): set<DFact> { set f | f in fs :: ResolveFact(t, f) }

  function ResolveTuple(t: Table, fs: seq<IFact>): (r: seq<DFact>)
    ensures |r| == |fs| && forall i :: 0 <= i < |fs| ==> r[i] == ResolveFact(t, fs[i])
  {
    seq(|fs|, i requires 0 <= i < |fs| => ResolveFact(t, fs[i]))
  }

  function ResolveRuleIn(t: Table, r: IRule): TrustedRule { TrustedRule(r.trusted, r.block, ResolveRule(t, r.rule)) }

  function ResolveRuleSet(t: Table, rs: set<IRule>): set<TrustedRule> { set r | r in rs :: ResolveRuleIn(t, r) }

  predicate DefinedFact(t: Table, f: IFact) { DefinedPredicate(t, f.fact) }

  predicate DefinedFacts(t: Table, fs: set<IFact>) { forall f :: f in fs ==> DefinedFact(t, f) }

  predicate DefinedRuleSet(t: Table, rs: set<IRule>) { forall r :: r in rs ==> DefinedRule(t, r.rule) }

  lemma FactsGrow(t: Table, t': Table, fs: set<IFact>)
    requires t <= t' && DefinedFacts(t, fs)
    ensures DefinedFacts(t', fs) && ResolveFacts(t', fs) == ResolveFacts(t, fs)
  {
    hide DefinedPredicate, ResolvePredicate;
    forall f | f in fs
      ensures DefinedFact(t', f) && ResolveFact(t', f) == ResolveFact(t, f)
    {
      assert DefinedFact(t, f);
      PredicateGrows(t, t', f.fact);
    }
  }

  lemma RuleSetGrows(t: Table, t': Table, rs: set<IRule>)
    requires t <= t' && DefinedRuleSet(t, rs)
    ensures DefinedRuleSet(t', rs) && ResolveRuleSet(t', rs) == ResolveRuleSet(t, rs)
  {
    hide DefinedRule, ResolveRule;
    forall r | r in rs
      ensures DefinedRule(t', r.rule) && ResolveRuleIn(t', r) == ResolveRuleIn(t, r)
    {
      RuleGrows(t, t', r.rule);
    }
  }

  /** In a table without duplicates facts resolve apart, so that counting ids is counting facts. */
  lemma FactsResolveApart(t: Table, f: IFact, g: IFact)
    requires NoDup(t) && DefinedFact(t, f) && DefinedFact(t, g)
    ensures ResolveFact(t, f) == ResolveFact(t, g) <==> f == g
  {
    hide NoDup, StrOf, Defined, ResolveTerm, DefinedTerm;
    if ResolveFact(t, f) == ResolveFact(t, g) {
      IdsResolveApart(t, f.fact.name, g.fact.name);
      assert |f.fact.terms| == |g.fact.terms|;
      forall i | 0 <= i < |f.fact.terms|
        ensures f.fact.terms[i] == g.fact.terms[i]
      {
        assert ResolveTerms(t, f.fact.terms)[i] == ResolveTerms(t, g.fact.terms)[i];
        TermsResolveApart(t, f.fact.terms[i], g.fact.terms[i]);
      }
    }
  }

  lemma {:induction false} FactsCount(t: Table, fs: set<IFact>)
    requires NoDup(t) && DefinedFacts(t, fs)
    ensures |ResolveFacts(t, fs)| == |fs|
    decreases fs
  {
    hide NoDup, ResolveFact, DefinedFact;
    if fs != {} {
      var f :| f in fs;
      FactsCount(t, fs - {f});
      forall g | g in fs
        ensures ResolveFact(t, g) == ResolveFact(t, f) <==> g == f
      {
        FactsResolveApart(t, g, f);
      }
      assert ResolveFacts(t, fs) == ResolveFacts(t, fs - {f}) + {ResolveFact(t, f)};
    } else {
      assert ResolveFacts(t, fs) == {};
    }
  }

  // ---- The tuples of resolved facts are the resolved tuples ----

  lemma TupleResolves(t: Table, facts: set<IFact>, k: nat, fs: seq<IFact>)
    requires fs in Tuples(facts, k)
    ensures ResolveTuple(t, fs) in Tuples(ResolveFacts(t, facts), k)
  {
    hide ResolveFact;
    TuplesExact(facts, k, fs);
    TuplesExact(ResolveFacts(t, facts), k, ResolveTuple(t, fs));
    forall i | 0 <= i < |fs|
      ensures ResolveTuple(t, fs)[i] in ResolveFacts(t, facts)
    {
      assert fs[i] in facts;
    }
  }

  lemma {:induction false} TupleOfResolved(t: Table, facts: set<IFact>, k: nat, gs: seq<DFact>) returns (fs: seq<IFact>)
    requires gs in Tuples(ResolveFacts(t, facts), k)
    ensures fs in Tuples(facts, k) && ResolveTuple(t, fs) == gs
  {
    hide ResolveFact;
    TuplesExact(ResolveFacts(t, facts), k, gs);
    fs := [];
    while |fs| < k
      invariant |fs| <= k && forall i :: 0 <= i < |fs| ==> fs[i] in facts && ResolveFact(t, fs[i]) == gs[i]
    {
      assert gs[|fs|] in ResolveFacts(t, facts);
      var f :| f in facts && ResolveFact(t, f) == gs[|fs|];
      fs := fs + [f];
    }
    TuplesExact(facts, k, fs);
  }

  function FactsOfIds(fs: seq<IFact>): (r: seq<Fact<nat>>)
    ensures |r| == |fs| && forall i :: 0 <= i < |fs| ==> r[i] == fs[i].fact
  {
    seq(|fs|, i requires 0 <= i < |fs| => fs[i].fact)
  }

  function OriginsOfIds(fs: seq<IFact>): Origin { set f, b | f in fs && b in f.origin :: b }

  /** A tuple of facts and what it stands for. */
  lemma TupleParts(t: Table, facts: set<IFact>, k: nat, fs: seq<IFact>)
    requires fs in Tuples(facts, k) && DefinedFacts(t, facts)
    ensures |fs| == k && DefinedPredicates(t, FactsOfIds(fs))
    ensures FactsOf(ResolveTuple(t, fs)) == ResolvePredicates(t, FactsOfIds(fs))
    ensures OriginsOf(ResolveTuple(t, fs)) == OriginsOfIds(fs)
  {
    hide DefinedPredicate, ResolvePredicate;
    TuplesExact(facts, k, fs);
    forall i | 0 <= i < |fs|
      ensures DefinedPredicate(t, FactsOfIds(fs)[i])
    {
      assert fs[i] in facts;
      assert DefinedFact(t, fs[i]);
    }
    var gs := ResolveTuple(t, fs);
    forall b | b in OriginsOf(gs)
      ensures b in OriginsOfIds(fs)
    {
      var i :| 0 <= i < |gs| && b in gs[i].origin;
      assert fs[i] in fs;
    }
    forall b | b in OriginsOfIds(fs)
      ensures b in OriginsOf(gs)
    {
      var i :| 0 <= i < |fs| && b in fs[i].origin;
      assert gs[i] in gs;
    }
  }

  // ---- One rule ----

  /** The tuples done are settled: none errs, and the results are what they yield. */
  ghost predicate DoneIds(regexp: Regexp, rule: DRule, block: BlockId, done: set<seq<DFact>>, result: set<DFact>)
  {
    && (forall gs :: gs in done ==> |gs| == |rule.body| && !Fire(EvalOf(regexp), rule, block, gs).Error?)
    && (forall gs :: gs in done && Fire(EvalOf(regexp), rule, block, gs).Yields? ==>
          Fire(EvalOf(regexp), rule, block, gs).fact in result)
    && (forall f :: f in result ==>
          exists gs :: gs in done && Fire(EvalOf(regexp), rule, block, gs) == Yields(f))
  }

  lemma OneMoreDone(regexp: Regexp, rule: DRule, block: BlockId, done: set<seq<DFact>>, result: set<DFact>,
                    gs: seq<DFact>)
    requires DoneIds(regexp, rule, block, done, result)
    requires |gs| == |rule.body| && !Fire(EvalOf(regexp), rule, block, gs).Error?
    ensures var y := Fire(EvalOf(regexp), rule, block, gs);
            DoneIds(regexp, rule, block, done + {gs}, if y.Yields? then result + {y.fact} else result)
  {
    hide Fire, EvalOf;
    var y := Fire(EvalOf(regexp), rule, block, gs);
    var more := if y.Yields? then result + {y.fact} else result;
    forall f | f in more
      ensures exists hs :: hs in done + {gs} && Fire(EvalOf(regexp), rule, block, hs) == Yields(f)
    {
      if f in result {
        var hs :| hs in done && Fire(EvalOf(regexp), rule, block, hs) == Yields(f);
        assert hs in done + {gs};
      } else {
        assert gs in done + {gs};
      }
    }
  }

  lemma AllDone(regexp: Regexp, rule: DRule, block: BlockId, facts: set<DFact>, result: set<DFact>)
    requires DoneIds(regexp, rule, block, Tuples(facts, |rule.body|), result)
    ensures result == Derived(EvalOf(regexp), rule, block, facts) && !Errs(EvalOf(regexp), rule, block, facts)
  {
    hide Fire, EvalOf, Tuples;
  }

  /** getNewFacts on ids, tuple by tuple in any order: the facts the rule produces, or None on an error. Tuples
      that do not match do nothing, so that going through the matches alone comes to the same. */
  method ApplyIds(regexp: Regexp, t: Table, rule: Rule<nat>, block: BlockId, facts: set<IFact>)
      returns (t': Table, r: Option<set<IFact>>)
    requires NoDup(t) && DefinedRule(t, rule) && DefinedFacts(t, facts)
    ensures Grows(t, t')
    ensures r.None? <==> Errs(EvalOf(regexp), ResolveRule(t, rule), block, ResolveFacts(t, facts))
    ensures r.Some? ==>
              && DefinedFacts(t', r.value)
              && ResolveFacts(t', r.value) ==
                 Derived(EvalOf(regexp), ResolveRule(t, rule), block, ResolveFacts(t, facts))
  {
    hide NoDup, DefinedRule, ResolveRule, Fire, FireIds, EvalOf, DefinedFacts, ResolveFacts, Errs, Derived, DoneIds;
    ghost var srule, sfacts := ResolveRule(t, rule), ResolveFacts(t, facts);
    BodyLength(t, rule);
    t' := t;
    var result: set<IFact> := {};
    NoFacts(t);
    ghost var done: set<seq<DFact>> := {};
    NothingDone(regexp, srule, block);
    var todo := Tuples(facts, |rule.body|);
    while todo != {}
      invariant todo <= Tuples(facts, |rule.body|) && Grows(t, t')
      invariant DefinedFacts(t', result) && DoneIds(regexp, srule, block, done, ResolveFacts(t', result))
      invariant done <= Tuples(sfacts, |rule.body|)
      invariant forall fs :: fs in Tuples(facts, |rule.body|) && fs !in todo ==> ResolveTuple(t, fs) in done
      decreases todo
    {
      var fs :| fs in todo;
      ghost var gs := ResolveTuple(t, fs);
      ghost var before := t';
      TupleFires(regexp, t, t', rule, block, facts, fs);
      TupleResolves(t, facts, |rule.body|, fs);
      TuplesExact(facts, |rule.body|, fs);
      var next, y := FireTuple(regexp, t', rule, FactsOfIds(fs));
      t' := next;
      FactsGrow(before, t', result);
      match y {
        case ErrorIds =>
          ErrsAt(EvalOf(regexp), srule, block, sfacts, gs);
          return t', None;
        case SilentIds =>
          OneMoreDone(regexp, srule, block, done, ResolveFacts(t', result), gs);
        case YieldsIds(f) =>
          var fact := OriginFact({block} + OriginsOfIds(fs), f);
          OneMoreDone(regexp, srule, block, done, ResolveFacts(t', result), gs);
          OneMoreFact(t', result, fact);
          result := result + {fact};
      }
      done := done + {gs};
      todo := todo - {fs};
    }
    forall gs | gs in Tuples(sfacts, |rule.body|)
      ensures gs in done
    {
      var fs := TupleOfResolved(t, facts, |rule.body|, gs);
    }
    assert done == Tuples(sfacts, |rule.body|);
    AllDone(regexp, srule, block, sfacts, ResolveFacts(t', result));
    r := Some(result);
  }

  method FireTuple(regexp: Regexp, t: Table, rule: Rule<nat>, facts: seq<Fact<nat>>) returns (t': Table, y: FiringIds)
    requires |facts| == |rule.body|
    ensures (t', y) == FireIds(regexp, t, rule, facts)
  {
    var both := FireIds(regexp, t, rule, facts);
    t', y := both.0, both.1;
  }

  lemma BodyLength(t: Table, rule: Rule<nat>)
    ensures |ResolveRule(t, rule).body| == |rule.body|
  {
  }

  lemma NoFacts(t: Table)
    ensures DefinedFacts(t, {}) && ResolveFacts(t, {}) == {}
  {
  }

  lemma NothingDone(regexp: Regexp, rule: DRule, block: BlockId)
    ensures DoneIds(regexp, rule, block, {}, {})
  {
  }

  lemma OneMoreFact(t: Table, facts: set<IFact>, f: IFact)
    requires DefinedFacts(t, facts) && DefinedFact(t, f)
    ensures DefinedFacts(t, facts + {f}) && ResolveFacts(t, facts + {f}) == ResolveFacts(t, facts) + {ResolveFact(t, f)}
  {
    hide DefinedFact, ResolveFact;
  }

  lemma ErrsAt(eval: Eval, rule: DRule, block: BlockId, facts: set<DFact>, gs: seq<DFact>)
    requires gs in Tuples(facts, |rule.body|) && |gs| == |rule.body| && Fire(eval, rule, block, gs).Error?
    ensures Errs(eval, rule, block, facts)
  {
    hide Fire;
  }

  /** Firing on a tuple, after the table has grown, is firing on what the tuple stands for. */
  lemma TupleFires(regexp: Regexp, t: Table, t': Table, rule: Rule<nat>, block: BlockId, facts: set<IFact>,
                   fs: seq<IFact>)
    requires NoDup(t) && DefinedRule(t, rule) && DefinedFacts(t, facts) && Grows(t, t')
    requires fs in Tuples(facts, |rule.body|)
    ensures |fs| == |rule.body| == |ResolveRule(t, rule).body|
    ensures var (t'', r) := FireIds(regexp, t', rule, FactsOfIds(fs));
            var y := Fire(EvalOf(regexp), ResolveRule(t, rule), block, ResolveTuple(t, fs));
            && Grows(t', t'')
            && match r
               case SilentIds => y.Silent?
               case ErrorIds => y.Error?
               case YieldsIds(f) =>
                 var fact := OriginFact({block} + OriginsOfIds(fs), f);
                 y.Yields? && DefinedFact(t'', fact) && y.fact == ResolveFact(t'', fact)
  {
    TupleParts(t, facts, |rule.body|, fs);
    PredicatesGrow(t, t', FactsOfIds(fs));
    RuleGrows(t, t', rule);
    FireCommutes(regexp, t', rule, block, FactsOfIds(fs), ResolveTuple(t, fs));
    YieldsOrigin(EvalOf(regexp), ResolveRule(t, rule), block, ResolveTuple(t, fs));
    hide NoDup, DefinedRule, Fire, FireIds, EvalOf, DefinedPredicate, ResolvePredicate, OriginsOf, OriginsOfIds;
  }

  lemma YieldsOrigin(eval: Eval, rule: DRule, block: BlockId, gs: seq<DFact>)
    requires |gs| == |rule.body|
    ensures var y := Fire(eval, rule, block, gs); y.Yields? ==> y.fact.origin == {block} + OriginsOf(gs)
  {
    hide Unify, Judge, Instantiate;
  }

  // ---- A round and a run ----

  /** FactSet.WithOrigin does not look at symbols. */
  function VisibleIds(facts: set<IFact>, trusted: Origin): set<IFact> { set f | f in facts && f.origin <= trusted }

  lemma VisibleResolves(t: Table, facts: set<IFact>, trusted: Origin)
    ensures ResolveFacts(t, VisibleIds(facts, trusted)) == Visible(ResolveFacts(t, facts), trusted)
    ensures DefinedFacts(t, facts) ==> DefinedFacts(t, VisibleIds(facts, trusted))
  {
    hide DefinedFact, ResolvePredicate;
  }

  /** One pass over the rules on ids, in any order: all that they produce, or None when one errs. */
  method RoundIds(regexp: Regexp, t: Table, rules: set<IRule>, facts: set<IFact>)
      returns (t': Table, r: Option<set<IFact>>)
    requires NoDup(t) && DefinedRuleSet(t, rules) && DefinedFacts(t, facts)
    ensures Grows(t, t')
    ensures r.None? <==> RoundErrs(EvalOf(regexp), ResolveRuleSet(t, rules), ResolveFacts(t, facts))
    ensures r.Some? ==>
              && DefinedFacts(t', r.value)
              && ResolveFacts(t', r.value)
                 == AllProduced(EvalOf(regexp), ResolveRuleSet(t, rules), ResolveFacts(t, facts))
  {
    hide NoDup, EvalOf, DefinedFacts, ResolveFacts, DefinedRule, RuleErrs, AllProduced, ResolveRuleIn, Produced,
         Errs, Derived, Visible, VisibleIds, ResolveRule, ResolveRuleSet, RoundErrs;
    RoundErrsIff(t, EvalOf(regexp), rules, ResolveFacts(t, facts));
    ghost var eval, sfacts := EvalOf(regexp), ResolveFacts(t, facts);
    t' := t;
    var result: set<IFact> := {};
    NoFacts(t);
    NoRules(t, eval, sfacts);
    ghost var done: set<IRule> := {};
    var todo := rules;
    while todo != {}
      invariant todo <= rules && done == rules - todo && Grows(t, t')
      invariant DefinedFacts(t', result)
      invariant ResolveFacts(t', result) == AllProduced(eval, ResolveRuleSet(t, done), sfacts)
      invariant forall rule :: rule in done ==> !RuleErrs(eval, ResolveRuleIn(t, rule), sfacts)
      decreases todo
    {
      var rule :| rule in todo;
      ghost var before := t';
      var visible := VisibleIds(facts, rule.trusted);
      FactsGrow(t, t', facts);
      RuleGrows(t, t', rule.rule);
      VisibleResolves(t', facts, rule.trusted);
      var produced;
      t', produced := ApplyIds(regexp, t', rule.rule, rule.block, visible);
      RuleAlike(eval, t, before, rule, sfacts);
      if produced.None? {
        return t', None;
      }
      FactsGrow(before, t', result);
      FactsUnion(t', result, produced.value);
      OneMoreRule(t, eval, done, rule, sfacts);
      result := result + produced.value;
      done := done + {rule};
      todo := todo - {rule};
    }
    assert done == rules;
    r := Some(result);
  }

  lemma RoundErrsIff(t: Table, eval: Eval, rules: set<IRule>, facts: set<DFact>)
    ensures RoundErrs(eval, ResolveRuleSet(t, rules), facts)
            <==> exists rule :: rule in rules && RuleErrs(eval, ResolveRuleIn(t, rule), facts)
  {
    hide RuleErrs, ResolveRuleIn;
    if rule :| rule in rules && RuleErrs(eval, ResolveRuleIn(t, rule), facts) {
      assert ResolveRuleIn(t, rule) in ResolveRuleSet(t, rules);
    }
  }

  lemma NoRules(t: Table, eval: Eval, facts: set<DFact>)
    ensures AllProduced(eval, ResolveRuleSet(t, {}), facts) == {}
  {
  }

  lemma RuleAlike(eval: Eval, t: Table, t': Table, rule: IRule, facts: set<DFact>)
    requires ResolveRule(t', rule.rule) == ResolveRule(t, rule.rule)
    ensures var tr, visible := ResolveRuleIn(t, rule), Visible(facts, rule.trusted);
            && (RuleErrs(eval, tr, facts) <==> Errs(eval, ResolveRule(t', rule.rule), rule.block, visible))
            && Produced(eval, tr, facts) == Derived(eval, ResolveRule(t', rule.rule), rule.block, visible)
  {
    hide Errs, Derived, Visible, ResolveRule;
  }

  lemma FactsUnion(t: Table, a: set<IFact>, b: set<IFact>)
    requires DefinedFacts(t, a) && DefinedFacts(t, b)
    ensures DefinedFacts(t, a + b) && ResolveFacts(t, a + b) == ResolveFacts(t, a) + ResolveFacts(t, b)
  {
    hide DefinedFact, ResolveFact;
  }

  lemma OneMoreRule(t: Table, eval: Eval, done: set<IRule>, rule: IRule, facts: set<DFact>)
    ensures AllProduced(eval, ResolveRuleSet(t, done + {rule}), facts)
            == AllProduced(eval, ResolveRuleSet(t, done), facts) + Produced(eval, ResolveRuleIn(t, rule), facts)
  {
    hide Produced, ResolveRuleIn;
    assert ResolveRuleSet(t, done + {rule}) == ResolveRuleSet(t, done) + {ResolveRuleIn(t, rule)};
    hide ResolveRuleSet;
    AddProduced(eval, ResolveRuleSet(t, done), ResolveRuleIn(t, rule), facts);
  }

  /** World.Run on ids: it ends as the run on the symbols does, and leaves facts that stand for the facts
      that run leaves. */
  method RunWithIds(regexp: Regexp, t: Table, rules: set<IRule>, start: set<IFact>, limits: Limits)
      returns (t': Table, outcome: Outcome, left: set<IFact>)
    requires NoDup(t) && DefinedRuleSet(t, rules) && DefinedFacts(t, start)
    ensures Grows(t, t') && DefinedFacts(t', left)
    ensures (outcome, ResolveFacts(t', left))
            == RunOf(EvalOf(regexp), ResolveRuleSet(t, rules), ResolveFacts(t, start), limits)
  {
    hide NoDup, EvalOf, DefinedFacts, ResolveFacts, DefinedRuleSet, ResolveRuleSet, RoundErrs, AllProduced, RunFrom;
    ghost var srules := ResolveRuleSet(t, rules);
    ghost var step, errs := RoundOf(EvalOf(regexp), srules), ErrsOf(EvalOf(regexp), srules);
    var n := IterationLimit(limits);
    t', left := t, start;
    for i := 0 to n
      invariant Grows(t, t') && DefinedFacts(t', left)
      invariant RunFrom(step, errs, ResolveFacts(t', left), FactLimit(limits), n - i)
                == RunFrom(step, errs, ResolveFacts(t, start), FactLimit(limits), n)
    {
      ghost var before := t';
      var had := left;
      RuleSetGrows(t, t', rules);
      var produced;
      t', produced := RoundIds(regexp, t', rules, left);
      RunUnfolds(step, errs, ResolveFacts(before, had), FactLimit(limits), n - i);
      FactsGrow(before, t', left);
      if produced.None? {
        return t', RuleError, left;
      }
      FactsUnion(t', left, produced.value);
      FactsCount(t', left);
      left := left + produced.value;
      FactsCount(t', left);
      if |left| >= FactLimit(limits) {
        return t', TooManyFacts, left;
      }
      if |left| == |had| {
        return t', Done, left;
      }
    }
    NoRunLeft(step, errs, ResolveFacts(t', left), FactLimit(limits));
    outcome := TooManyIterations;
  }
}
