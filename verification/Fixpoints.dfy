/** What a run computes: the least set of facts that contains the start and is closed
    under every rule over its trusted origin. */
module Fixpoints {
  import opened Datalog
  import opened Worlds
  import opened Iteration

  lemma ProducedMonotone(eval: Eval, tr: TrustedRule, facts: set<DFact>, more: set<DFact>)
    requires facts <= more
    ensures Produced(eval, tr, facts) <= Produced(eval, tr, more)
    ensures RuleErrs(eval, tr, facts) ==> RuleErrs(eval, tr, more)
  {
    DerivedMonotone(eval, tr.rule, tr.block, Visible(facts, tr.trusted), Visible(more, tr.trusted));
  }

  /** More facts lead to more facts, and to no fewer errors. */
  lemma RoundMonotone(eval: Eval, rules: set<TrustedRule>, facts: set<DFact>, more: set<DFact>)
    requires facts <= more
    ensures Round(eval, rules, facts) <= Round(eval, rules, more)
    ensures RoundErrs(eval, rules, facts) ==> RoundErrs(eval, rules, more)
  {
    forall tr | tr in rules
      ensures Produced(eval, tr, facts) <= Produced(eval, tr, more)
      ensures RuleErrs(eval, tr, facts) ==> RuleErrs(eval, tr, more)
    {
      ProducedMonotone(eval, tr, facts, more);
    }
    hide Produced, RuleErrs;
  }

  lemma RoundIterates(eval: Eval, rules: set<TrustedRule>)
    ensures Inflating(RoundOf(eval, rules)) && Monotone(RoundOf(eval, rules))
  {
    forall a, b: set<DFact> | a <= b
      ensures RoundOf(eval, rules)(a) <= RoundOf(eval, rules)(b)
    {
      RoundMonotone(eval, rules, a, b);
    }
    hide AllProduced;
  }

  /** Closed under every rule over its trusted origin. */
  ghost predicate Closed(eval: Eval, rules: set<TrustedRule>, facts: set<DFact>) {
    forall tr :: tr in rules ==> Produced(eval, tr, facts) <= facts
  }

  lemma ClosedIsFixpoint(eval: Eval, rules: set<TrustedRule>, facts: set<DFact>)
    ensures Closed(eval, rules, facts) <==> RoundOf(eval, rules)(facts) == facts
  {
    hide Produced;
    if Round(eval, rules, facts) == facts {
      forall tr, f | tr in rules && f in Produced(eval, tr, facts)
        ensures f in facts
      {
        assert f in AllProduced(eval, rules, facts);
      }
    }
  }

  /** Run returns without an error exactly when, within the iteration limit, the rounds reach
      a set that a further round does not change, smaller than the fact limit, and no rule errs
      on the way. */
  lemma RunSucceeds(eval: Eval, rules: set<TrustedRule>, facts: set<DFact>, limits: Limits)
    ensures RunOf(eval, rules, facts, limits).0.Done?
            <==> exists k :: 0 <= k < IterationLimit(limits)
                             && StabilisesAt(RoundOf(eval, rules), ErrsOf(eval, rules), facts, FactLimit(limits), k)
  {
    RoundIterates(eval, rules);
    RunSucceedsIff(RoundOf(eval, rules), ErrsOf(eval, rules), facts, FactLimit(limits), IterationLimit(limits));
    hide RoundOf, ErrsOf;
  }

  /** A successful run leaves the least closed set of facts around its start, whatever the
      order of rules and facts was, and running again changes nothing. */
  lemma RunLeavesLeastClosed(eval: Eval, rules: set<TrustedRule>, facts: set<DFact>, limits: Limits)
    ensures RunOf(eval, rules, facts, limits).0.Done? ==>
              var left := RunOf(eval, rules, facts, limits).1;
              && facts <= left && Closed(eval, rules, left)
              && (forall s :: facts <= s && Closed(eval, rules, s) ==> left <= s)
              && RunOf(eval, rules, left, limits) == (Done, left)
  {
    if !RunOf(eval, rules, facts, limits).0.Done? {
      return;
    }
    RoundIterates(eval, rules);
    var left := RunOf(eval, rules, facts, limits).1;
    RunIsLeastFixpoint(RoundOf(eval, rules), ErrsOf(eval, rules), facts, FactLimit(limits), IterationLimit(limits));
    ClosedIsFixpoint(eval, rules, left);
    forall s | facts <= s && Closed(eval, rules, s)
      ensures left <= s
    {
      ClosedIsFixpoint(eval, rules, s);
    }
    hide RoundOf, ErrsOf, Closed;
  }
}
