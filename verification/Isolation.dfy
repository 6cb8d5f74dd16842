/** Rules that do not trust a block never see it: adding the facts and rules of a block leaves
    everything the block is not part of exactly as it was. */
module Isolation {
  import opened Types
  import opened Datalog
  import opened Worlds
  import opened Iteration
  import opened Fixpoints

  /** The facts block n is not part of. */
  function Without(n: BlockId, facts: set<DFact>): set<DFact> {
    set f | f in facts && n !in f.origin
  }

  /** Rules of other blocks that do not trust block n. */
  ghost predicate Apart(n: BlockId, rules: set<TrustedRule>) {
    forall tr :: tr in rules ==> tr.block != n && n !in tr.trusted
  }

  /** Rules of block n. */
  ghost predicate OfBlock(n: BlockId, rules: set<TrustedRule>) {
    forall tr :: tr in rules ==> tr.block == n
  }

  lemma VisibleWithout(n: BlockId, facts: set<DFact>, trusted: Origin)
    requires n !in trusted
    ensures Visible(facts, trusted) == Visible(Without(n, facts), trusted)
  {
    forall f | f in facts && f.origin <= trusted
      ensures n !in f.origin
    {
    }
  }

  /** What a rule yields carries its block and what it read, nothing else. */
  lemma ProducedOrigin(eval: Eval, tr: TrustedRule, facts: set<DFact>, f: DFact)
    requires f in Produced(eval, tr, facts)
    ensures {tr.block} <= f.origin <= {tr.block} + tr.trusted
  {
    var visible := Visible(facts, tr.trusted);
    var fs: seq<DFact> :| fs in Tuples(visible, |tr.rule.body|) && |fs| == |tr.rule.body|
                          && Fire(eval, tr.rule, tr.block, fs) == Yields(f);
    TuplesExact(visible, |tr.rule.body|, fs);
    assert OriginsOf(fs) <= tr.trusted;
  }

  /** One round: outside block n it is the round of the other rules alone. */
  lemma RoundIsolated(eval: Eval, kept: set<TrustedRule>, added: set<TrustedRule>, facts: set<DFact>, n: BlockId)
    requires Apart(n, kept) && OfBlock(n, added)
    ensures Without(n, Round(eval, kept + added, facts)) == Round(eval, kept, Without(n, facts))
    ensures RoundErrs(eval, kept, Without(n, facts)) ==> RoundErrs(eval, kept + added, facts)
  {
    forall tr | tr in kept
      ensures Produced(eval, tr, facts) == Produced(eval, tr, Without(n, facts))
      ensures RuleErrs(eval, tr, facts) == RuleErrs(eval, tr, Without(n, facts))
    {
      VisibleWithout(n, facts, tr.trusted);
    }
    hide Produced, RuleErrs;
    forall tr, f | tr in kept + added && f in Produced(eval, tr, facts)
      ensures n in f.origin <==> tr in added
    {
      ProducedOrigin(eval, tr, facts, f);
    }
    assert Without(n, AllProduced(eval, kept + added, facts)) == AllProduced(eval, kept, Without(n, facts));
  }

  /** Leaving out block n, as a projection of sets of facts. */
  function WithoutBlock(n: BlockId): Step<DFact> {
    facts => Without(n, facts)
  }

  lemma RoundProjects(eval: Eval, kept: set<TrustedRule>, added: set<TrustedRule>, n: BlockId)
    requires Apart(n, kept) && OfBlock(n, added)
    ensures Projects(RoundOf(eval, kept + added), ErrsOf(eval, kept + added), RoundOf(eval, kept), ErrsOf(eval, kept),
                     WithoutBlock(n))
  {
    hide Round, RoundErrs;
    forall facts
      ensures Without(n, Round(eval, kept + added, facts)) == Round(eval, kept, Without(n, facts))
      ensures RoundErrs(eval, kept, Without(n, facts)) ==> RoundErrs(eval, kept + added, facts)
    {
      RoundIsolated(eval, kept, added, facts, n);
    }
  }

  /** After any number of rounds, the facts block n is not part of are those that the rounds
      without block n reach. */
  lemma RoundsIsolated(eval: Eval, kept: set<TrustedRule>, added: set<TrustedRule>, start: set<DFact>, n: BlockId,
                       k: nat)
    requires Apart(n, kept) && OfBlock(n, added)
    ensures Without(n, Iterate(RoundOf(eval, kept + added), start, k)) ==
            Iterate(RoundOf(eval, kept), Without(n, start), k)
  {
    RoundProjects(eval, kept, added, n);
    IterateProjects(RoundOf(eval, kept + added), ErrsOf(eval, kept + added), RoundOf(eval, kept), ErrsOf(eval, kept),
                    WithoutBlock(n), start, k);
    hide RoundOf, ErrsOf, Without;
  }

  /** If the run with block n succeeds, the run without it succeeds under the same limits and
      leaves exactly the facts block n is not part of. */
  lemma RunIsolated(eval: Eval, kept: set<TrustedRule>, added: set<TrustedRule>, start: set<DFact>, n: BlockId,
                    limits: Limits)
    requires Apart(n, kept) && OfBlock(n, added)
    ensures RunOf(eval, kept + added, start, limits).0.Done? ==>
              RunOf(eval, kept, Without(n, start), limits) ==
                  (Done, Without(n, RunOf(eval, kept + added, start, limits).1))
  {
    if !RunOf(eval, kept + added, start, limits).0.Done? {
      return;
    }
    RoundIterates(eval, kept + added);
    RoundIterates(eval, kept);
    RoundProjects(eval, kept, added, n);
    RunProjects(RoundOf(eval, kept + added), ErrsOf(eval, kept + added), RoundOf(eval, kept), ErrsOf(eval, kept),
                WithoutBlock(n), start, FactLimit(limits), IterationLimit(limits));
    hide RoundOf, ErrsOf, Without;
  }
}
