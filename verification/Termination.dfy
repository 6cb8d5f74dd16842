/** Without an iteration limit the rounds still end: rules invent neither terms nor blocks. */
module Termination {
  import opened Types
  import opened Matching
  import opened Datalog
  import opened Worlds
  import opened Iteration
  import opened Fixpoints

  type DTerm = Term<string>

  /** The terms of the start facts and of the rule heads. */
  function TermsUsed(rules: set<TrustedRule>, start: set<DFact>): set<DTerm> {
    (set f, t | f in start && t in f.fact.terms :: t) + (set tr, t | tr in rules && t in tr.rule.head.terms :: t)
  }

  /** The blocks of the start facts and of the rules. */
  function BlocksUsed(rules: set<TrustedRule>, start: set<DFact>): set<BlockId> {
    (set f, b | f in start && b in f.origin :: b) + (set tr | tr in rules :: tr.block)
  }

  /** The names and arities of the start facts and of the rule heads. */
  function ShapesUsed(rules: set<TrustedRule>, start: set<DFact>): set<(string, nat)> {
    (set f | f in start :: (f.fact.name, |f.fact.terms|)) +
        (set tr | tr in rules :: (tr.rule.head.name, |tr.rule.head.terms|))
  }

  /** All the facts that can be made of these blocks, shapes and terms. */
  function Universe(rules: set<TrustedRule>, start: set<DFact>): set<DFact> {
    set origin, shape, terms
      | origin <= BlocksUsed(rules, start) && shape in ShapesUsed(rules, start)
        && terms in Tuples(TermsUsed(rules, start), shape.1)
      :: OriginFact(origin, Predicate(shape.0, terms))
  }

  lemma InUniverse(rules: set<TrustedRule>, start: set<DFact>, f: DFact)
    ensures f in Universe(rules, start) <==>
            && f.origin <= BlocksUsed(rules, start)
            && (f.fact.name, |f.fact.terms|) in ShapesUsed(rules, start)
            && forall t :: t in f.fact.terms ==> t in TermsUsed(rules, start)
  {
    hide BlocksUsed, ShapesUsed, TermsUsed;
    TuplesExact(TermsUsed(rules, start), |f.fact.terms|, f.fact.terms);
    if f in Universe(rules, start) {
      var origin, shape, terms :|
        && origin <= BlocksUsed(rules, start) && shape in ShapesUsed(rules, start)
        && terms in Tuples(TermsUsed(rules, start), shape.1)
        && f == OriginFact(origin, Predicate(shape.0, terms));
      TuplesExact(TermsUsed(rules, start), shape.1, terms);
    }
    var shape: (string, nat) := (f.fact.name, |f.fact.terms|);
    assert f == OriginFact(f.origin, Predicate(shape.0, f.fact.terms));
  }

  lemma StartInUniverse(rules: set<TrustedRule>, start: set<DFact>)
    ensures start <= Universe(rules, start)
  {
    hide Universe;
    forall f | f in start
      ensures f in Universe(rules, start)
    {
      InUniverse(rules, start, f);
    }
  }

  /** A rule that fires on facts of the universe yields a fact of the universe. */
  lemma FiringInUniverse(eval: Eval, rules: set<TrustedRule>, start: set<DFact>, tr: TrustedRule, fs: seq<DFact>)
    requires tr in rules && |fs| == |tr.rule.body|
    requires forall f :: f in fs ==> f in Universe(rules, start)
    requires Fire(eval, tr.rule, tr.block, fs).Yields?
    ensures Fire(eval, tr.rule, tr.block, fs).fact in Universe(rules, start)
  {
    hide Universe, Judge;
    var y := Fire(eval, tr.rule, tr.block, fs).fact;
    var m := Unify(tr.rule.body, FactsOf(fs)).value;
    UnifyExact(tr.rule.body, FactsOf(fs), m);
    forall f | f in fs
      ensures f.origin <= BlocksUsed(rules, start) && forall t :: t in f.fact.terms ==> t in TermsUsed(rules, start)
    {
      InUniverse(rules, start, f);
    }
    BoundTermsUsed(tr.rule.body, FactsOf(fs), m, TermsUsed(rules, start));
    var head := tr.rule.head;
    forall i | 0 <= i < |head.terms|
      ensures y.fact.terms[i] in TermsUsed(rules, start)
    {
      assert head.terms[i] in tr.rule.head.terms;
    }
    InUniverse(rules, start, y);
  }

  lemma BoundTermsUsed(preds: seq<Predicate<string>>, facts: seq<Fact<string>>, m: Bindings<string>, terms: set<DTerm>)
    requires |preds| == |facts| && Unifies(preds, facts, m)
    requires forall f, t :: f in facts && t in f.terms ==> t in terms
    ensures forall v :: v in m ==> m[v] in terms
  {
    forall v | v in m
      ensures m[v] in terms
    {
      assert v in Variables(preds);
      var pred :| pred in preds && v in TermVariables(pred.terms);
      var p :| 0 <= p < |preds| && preds[p] == pred;
      var t :| t in pred.terms && t.Variable? && t.v == v;
      var i :| 0 <= i < |pred.terms| && pred.terms[i] == t;
      assert Match(facts[p], preds[p]);
      assert preds[p].terms[i].Variable? && m[v] == facts[p].terms[i];
      assert facts[p] in facts && facts[p].terms[i] in facts[p].terms;
    }
  }

  lemma RoundInUniverse(eval: Eval, rules: set<TrustedRule>, start: set<DFact>, facts: set<DFact>)
    requires facts <= Universe(rules, start)
    ensures Round(eval, rules, facts) <= Universe(rules, start)
  {
    hide Universe, Fire, Visible;
    forall tr, f | tr in rules && f in Produced(eval, tr, facts)
      ensures f in Universe(rules, start)
    {
      var visible := Visible(facts, tr.trusted);
      var fs: seq<DFact> :| fs in Tuples(visible, |tr.rule.body|) && |fs| == |tr.rule.body|
                && Fire(eval, tr.rule, tr.block, fs) == Yields(f);
      TuplesExact(visible, |tr.rule.body|, fs);
      assert visible <= facts by { VisibleIsSubset(facts, tr.trusted); }
      FiringInUniverse(eval, rules, start, tr, fs);
    }
    hide Produced;
  }

  lemma VisibleIsSubset(facts: set<DFact>, trusted: Origin)
    ensures Visible(facts, trusted) <= facts
  {
  }

  lemma {:induction false} RoundsInUniverse(eval: Eval, rules: set<TrustedRule>, start: set<DFact>, n: nat)
    ensures Iterate(RoundOf(eval, rules), start, n) <= Universe(rules, start)
    decreases n
  {
    hide Universe, Round;
    if n == 0 {
      StartInUniverse(rules, start);
    } else {
      RoundsInUniverse(eval, rules, start, n - 1);
      RoundInUniverse(eval, rules, start, Iterate(RoundOf(eval, rules), start, n - 1));
    }
  }

  /** The rounds reach a set that no rule adds to, in no more rounds than the universe has
      facts, so a run with more iterations than that never ends for want of iterations. */
  lemma RoundsEnd(eval: Eval, rules: set<TrustedRule>, start: set<DFact>, limits: Limits) returns (k: nat)
    ensures k <= |Universe(rules, start)|
    ensures Closed(eval, rules, Iterate(RoundOf(eval, rules), start, k))
    ensures IterationLimit(limits) > |Universe(rules, start)| ==>
            !RunOf(eval, rules, start, limits).0.TooManyIterations?
  {
    var step, errs := RoundOf(eval, rules), ErrsOf(eval, rules);
    var n := |Universe(rules, start)|;
    RoundIterates(eval, rules);
    forall i: nat
      ensures Iterate(step, start, i) <= Universe(rules, start)
    {
      RoundsInUniverse(eval, rules, start, i);
    }
    k := IterateReachesFixpoint(step, start, Universe(rules, start));
    ClosedIsFixpoint(eval, rules, Iterate(step, start, k));
    hide RoundOf, ErrsOf, Closed, Universe;
    if IterationLimit(limits) > n && RunOf(eval, rules, start, limits).0.TooManyIterations? {
      EndlessRunGrows(step, errs, start, FactLimit(limits), IterationLimit(limits));
      SubsetCount(Iterate(step, start, IterationLimit(limits)), Universe(rules, start));
      assert false;
    }
  }
}
