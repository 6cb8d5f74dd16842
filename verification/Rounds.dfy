/** Rounds and errors of a run in terms of the tuples of facts its rules read (datalog/datalog.go). */
module Rounds {
  import opened Datalog
  import opened Worlds
  import opened Iteration

  /** A rule may read this tuple: facts that are there, all of whose blocks it trusts. */
  ghost predicate MayRead(tr: TrustedRule, facts: set<DFact>, fs: seq<DFact>) {
    && |fs| == |tr.rule.body|
    && forall i :: 0 <= i < |fs| ==> fs[i] in facts && forall b :: b in fs[i].origin ==> b in tr.trusted
  }

  lemma TuplesRead(tr: TrustedRule, facts: set<DFact>, fs: seq<DFact>)
    ensures fs in Tuples(Visible(facts, tr.trusted), |tr.rule.body|) <==> MayRead(tr, facts, fs)
  {
    TuplesExact(Visible(facts, tr.trusted), |tr.rule.body|, fs);
    if MayRead(tr, facts, fs) {
      forall f | f in fs
        ensures f in Visible(facts, tr.trusted)
      {
        var i :| 0 <= i < |fs| && fs[i] == f;
      }
    }
    if fs in Tuples(Visible(facts, tr.trusted), |tr.rule.body|) {
      forall i | 0 <= i < |fs|
        ensures fs[i] in Visible(facts, tr.trusted)
      {
      }
    }
  }

  /** A round adds exactly what the rules yield on the tuples they may read. */
  lemma RoundExact(eval: Eval, rules: set<TrustedRule>, facts: set<DFact>, f: DFact)
    ensures f in RoundOf(eval, rules)(facts) <==>
              f in facts || exists tr, fs :: tr in rules && MayRead(tr, facts, fs)
                                             && Fire(eval, tr.rule, tr.block, fs) == Yields(f)
  {
    forall tr: TrustedRule, fs
      ensures fs in Tuples(Visible(facts, tr.trusted), |tr.rule.body|) <==> MayRead(tr, facts, fs)
    {
      TuplesRead(tr, facts, fs);
    }
    hide Fire, MayRead, Tuples, Visible;
    if tr, fs :| tr in rules && MayRead(tr, facts, fs) && |fs| == |tr.rule.body|
                 && Fire(eval, tr.rule, tr.block, fs) == Yields(f) {
      assert f in Produced(eval, tr, facts);
      assert f in AllProduced(eval, rules, facts);
    }
  }

  /** A round errs exactly when some rule errs on a tuple it may read. */
  lemma RoundErrsExact(eval: Eval, rules: set<TrustedRule>, facts: set<DFact>)
    ensures ErrsOf(eval, rules)(facts) <==>
              exists tr, fs :: tr in rules && MayRead(tr, facts, fs) && Fire(eval, tr.rule, tr.block, fs).Error?
  {
    forall tr: TrustedRule, fs
      ensures fs in Tuples(Visible(facts, tr.trusted), |tr.rule.body|) <==> MayRead(tr, facts, fs)
    {
      TuplesRead(tr, facts, fs);
    }
    hide Fire, MayRead, Tuples, Visible;
    if tr, fs :| tr in rules && MayRead(tr, facts, fs) && |fs| == |tr.rule.body|
                 && Fire(eval, tr.rule, tr.block, fs).Error? {
      assert RuleErrs(eval, tr, facts);
    }
  }

  /** Limits that are not negative are what they say; a negative fact limit is out of reach, and a negative number of
      iterations is none. */
  lemma LimitsMean(limits: Limits)
    ensures if limits.maxFacts >= 0 then FactLimit(limits) == limits.maxFacts
            else FactLimit(limits) >= 0x8000_0000_0000_0000
    ensures if limits.maxIterations >= 0 then IterationLimit(limits) == limits.maxIterations
            else IterationLimit(limits) == 0
  {
  }

  /** Without iterations, or when a rule errs on the facts a run starts from, the run ends there. */
  lemma RunFailsAtOnce(eval: Eval, rules: set<TrustedRule>, facts: set<DFact>, limits: Limits, tr: TrustedRule,
                       fs: seq<DFact>)
    requires tr in rules && MayRead(tr, facts, fs) && Fire(eval, tr.rule, tr.block, fs).Error?
    ensures RunOf(eval, rules, facts, limits)
            == (if limits.maxIterations <= 0 then TooManyIterations else RuleError, facts)
  {
    RoundErrsExact(eval, rules, facts);
    hide ErrsOf, RoundOf, Fire, MayRead;
    var n := IterationLimit(limits);
    if n > 0 {
      RunUnfolds(RoundOf(eval, rules), ErrsOf(eval, rules), facts, FactLimit(limits), n);
    }
  }

  /** After a successful run no rule errs, and none has anything to add. */
  lemma DoneIsQuiet(eval: Eval, rules: set<TrustedRule>, facts: set<DFact>, limits: Limits, tr: TrustedRule,
                    fs: seq<DFact>)
    requires RunOf(eval, rules, facts, limits).0 == Done && tr in rules
    requires MayRead(tr, RunOf(eval, rules, facts, limits).1, fs)
    ensures match Fire(eval, tr.rule, tr.block, fs)
            case Silent => true
            case Error => false
            case Yields(f) => f in RunOf(eval, rules, facts, limits).1
  {
    var left := RunOf(eval, rules, facts, limits).1;
    RoundErrsExact(eval, rules, left);
    var y := Fire(eval, tr.rule, tr.block, fs);
    if y.Yields? {
      RoundExact(eval, rules, left, y.fact);
    }
    hide ErrsOf, RoundOf, Fire, MayRead;
    LastRound(eval, rules, facts, limits);
  }

  lemma LastRound(eval: Eval, rules: set<TrustedRule>, facts: set<DFact>, limits: Limits)
    requires RunOf(eval, rules, facts, limits).0 == Done
    ensures var left := RunOf(eval, rules, facts, limits).1;
            !ErrsOf(eval, rules)(left) && RoundOf(eval, rules)(left) == left
  {
    var step, errs := RoundOf(eval, rules), ErrsOf(eval, rules);
    var limit, n := FactLimit(limits), IterationLimit(limits);
    assert Inflating(step);
    hide RoundOf, ErrsOf;
    LastStep(step, errs, facts, limit, n);
  }

  lemma {:induction false} LastStep(step: Step<DFact>, errs: Failing<DFact>, s: set<DFact>, limit: nat, n: nat)
    requires Inflating(step) && RunFrom(step, errs, s, limit, n).0 == Done
    ensures var left := RunFrom(step, errs, s, limit, n).1; !errs(left) && step(left) == left
    decreases n
  {
    if |step(s)| == |s| {
      SubsetCount(s, step(s));
    } else {
      LastStep(step, errs, step(s), limit, n - 1);
    }
  }
}
