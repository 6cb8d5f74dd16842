/** World.Run of datalog/datalog.go: rules applied in rounds up to a fixpoint or a limit. */
module Worlds {
  import opened Wrappers
  import opened Types
  import opened Datalog
  import opened Evaluation
  import opened Iteration

  /** A rule with the block it comes from and the origins it may read. */
  datatype TrustedRule = TrustedRule(trusted: Origin, block: BlockId, rule: DRule)

  /** FactSet.WithOrigin. */
  function Visible(facts: set<DFact>, trusted: Origin): set<DFact> {
    set f | f in facts && f.origin <= trusted
  }

  function Produced(eval: Eval, tr: TrustedRule, facts: set<DFact>): set<DFact> {
    Derived(eval, tr.rule, tr.block, Visible(facts, tr.trusted))
  }

  /** What all the rules produce from the facts. */
  function AllProduced(eval: Eval, rules: set<TrustedRule>, facts: set<DFact>): set<DFact> {
    set tr, f | tr in rules && f in Produced(eval, tr, facts) :: f
  }

  /** One round: every rule reads the facts of the round before. */
  function Round(eval: Eval, rules: set<TrustedRule>, facts: set<DFact>): set<DFact> {
    facts + AllProduced(eval, rules, facts)
  }

  predicate RuleErrs(eval: Eval, tr: TrustedRule, facts: set<DFact>) {
    Errs(eval, tr.rule, tr.block, Visible(facts, tr.trusted))
  }

  predicate RoundErrs(eval: Eval, rules: set<TrustedRule>, facts: set<DFact>) {
    exists tr | tr in rules :: RuleErrs(eval, tr, facts)
  }

  /** The rounds of a set of rules, as a step to iterate. */
  function RoundOf(eval: Eval, rules: set<TrustedRule>): Step<DFact> {
    facts => Round(eval, rules, facts)
  }

  function ErrsOf(eval: Eval, rules: set<TrustedRule>): Failing<DFact> {
    facts => RoundErrs(eval, rules, facts)
  }

  datatype Limits = Limits(maxFacts: int64, maxIterations: int64)

  /** The fact limit is compared as an unsigned number, so a negative one wraps around. */
  function FactLimit(limits: Limits): uint64 {
    if limits.maxFacts < 0 then limits.maxFacts + 0x1_0000_0000_0000_0000 else limits.maxFacts
  }

  function IterationLimit(limits: Limits): nat {
    if limits.maxIterations < 0 then 0 else limits.maxIterations
  }

  /** The outcome of running the rules from some facts, and the facts it leaves. */
  function RunOf(eval: Eval, rules: set<TrustedRule>, facts: set<DFact>, limits: Limits): (Outcome, set<DFact>) {
    RunFrom(RoundOf(eval, rules), ErrsOf(eval, rules), facts, FactLimit(limits), IterationLimit(limits))
  }

  /** getFactWithOrigins: the facts in the order some map iteration gives them. */
  method ListFacts(facts: set<DFact>) returns (r: seq<DFact>)
    ensures Lists(r, facts)
  {
    r := [];
    var todo := facts;
    while todo != {}
      invariant todo <= facts && Lists(r, facts - todo)
      decreases todo
    {
      var f :| f in todo;
      r := r + [f];
      todo := todo - {f};
      assert facts - todo == (facts - (todo + {f})) + {f};
    }
    assert facts - todo == facts;
  }

  class World {
    var facts: set<DFact>
    var rules: set<TrustedRule>
    const limits: Limits
    const eval: Eval

    constructor (eval: Eval, limits: Limits)
      ensures facts == {} && rules == {} && this.eval == eval && this.limits == limits
    {
      this.eval, this.limits, facts, rules := eval, limits, {}, {};
    }

    method AddFact(origin: Origin, fact: Fact<string>)
      modifies this`facts
      ensures facts == old(facts) + {OriginFact(origin, fact)}
    {
      facts := facts + {OriginFact(origin, fact)};
    }

    method AddRule(trusted: Origin, block: BlockId, rule: DRule)
      modifies this`rules
      ensures rules == old(rules) + {TrustedRule(trusted, block, rule)}
    {
      rules := rules + {TrustedRule(trusted, block, rule)};
    }

    /** One pass over the rules, in the order some map iteration gives them: the new facts
        of the round, or None when a rule errs. */
    method ApplyRules() returns (r: Option<set<DFact>>)
      ensures r.None? <==> RoundErrs(eval, rules, facts)
      ensures r.Some? ==> r.value == AllProduced(eval, rules, facts)
    {
      var newFacts: set<DFact> := {};
      var todo := rules;
      while todo != {}
        invariant todo <= rules
        invariant forall tr :: tr in rules - todo ==> !RuleErrs(eval, tr, facts)
        invariant newFacts == AllProduced(eval, rules - todo, facts)
        decreases todo
      {
        var tr :| tr in todo;
        var listed := ListFacts(Visible(facts, tr.trusted));
        var produced := Apply(eval, tr.rule, tr.block, listed, Visible(facts, tr.trusted));
        if produced.None? {
          assert RuleErrs(eval, tr, facts);
          return None;
        }
        newFacts := newFacts + produced.value;
        AddProduced(eval, rules - todo, tr, facts);
        assert rules - (todo - {tr}) == (rules - todo) + {tr};
        todo := todo - {tr};
      }
      assert rules - todo == rules;
      r := Some(newFacts);
    }

    /** One turn of the loop of Run: the outcome if the run ends with it. */
    method RunRound() returns (ended: Option<Outcome>)
      modifies this`facts
      ensures ErrsOf(eval, rules)(old(facts)) ==> ended == Some(RuleError) && facts == old(facts)
      ensures !ErrsOf(eval, rules)(old(facts)) ==>
                && facts == RoundOf(eval, rules)(old(facts))
                && ended == if |facts| >= FactLimit(limits) then Some(TooManyFacts)
                            else if |facts| == |old(facts)| then Some(Done) else None
    {
      hide AllProduced, RoundErrs;
      var newFacts := ApplyRules();
      if newFacts.None? {
        return Some(RuleError);
      }
      var prevCount := |facts|;
      facts := facts + newFacts.value;
      if |facts| >= FactLimit(limits) {
        return Some(TooManyFacts);
      }
      if |facts| == prevCount {
        return Some(Done);
      }
      ended := None;
    }

    /** World.Run. */
    method Run() returns (outcome: Outcome)
      modifies this`facts
      ensures (outcome, facts) == RunOf(eval, rules, old(facts), limits)
    {
      hide RoundOf, ErrsOf, RunFrom;
      ghost var step, errs := RoundOf(eval, rules), ErrsOf(eval, rules);
      var n := IterationLimit(limits);
      for i := 0 to n
        invariant RunFrom(step, errs, facts, FactLimit(limits), n - i)
                  == RunFrom(step, errs, old(facts), FactLimit(limits), n)
      {
        ghost var before := facts;
        var ended := RunRound();
        RunUnfolds(step, errs, before, FactLimit(limits), n - i);
        if ended.Some? {
          return ended.value;
        }
      }
      NoRunLeft(step, errs, facts, FactLimit(limits));
      outcome := TooManyIterations;
    }
  }

  lemma AddProduced(eval: Eval, rules: set<TrustedRule>, tr: TrustedRule, facts: set<DFact>)
    ensures AllProduced(eval, rules + {tr}, facts) == AllProduced(eval, rules, facts) + Produced(eval, tr, facts)
  {
  }
}
