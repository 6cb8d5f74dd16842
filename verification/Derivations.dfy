/** Every fact of a world has a derivation, and its origin names exactly the blocks the
    derivation uses. */
module Derivations {
  import opened Types
  import opened Datalog
  import opened Worlds
  import opened Iteration
  import opened Fixpoints

  /** A derivation tree: a given fact, or a rule with its premises and their derivations. */
  datatype Derivation =
    | Given(fact: DFact)
    | ByRule(tr: TrustedRule, premises: seq<DFact>, proofs: seq<Derivation>)

  /** d derives f: leaves are start facts, and every rule fires on premises it may read. */
  ghost predicate Derives(eval: Eval, rules: set<TrustedRule>, start: set<DFact>, d: Derivation, f: DFact)
    decreases d
  {
    match d
    case Given(g) => f == g && g in start
    case ByRule(tr, premises, proofs) =>
      && tr in rules
      && |premises| == |proofs| == |tr.rule.body|
      && (forall i :: 0 <= i < |premises| ==>
            premises[i].origin <= tr.trusted && Derives(eval, rules, start, proofs[i], premises[i]))
      && Fire(eval, tr.rule, tr.block, premises) == Yields(f)
  }

  ghost predicate Derivable(eval: Eval, rules: set<TrustedRule>, start: set<DFact>, f: DFact) {
    exists d :: Derives(eval, rules, start, d, f)
  }

  /** The blocks of the leaves and of the rules of a derivation. */
  function BlocksOf(d: Derivation): set<BlockId>
    decreases d
  {
    match d
    case Given(g) => g.origin
    case ByRule(tr, _, proofs) => {tr.block} + set i, b | 0 <= i < |proofs| && b in BlocksOf(proofs[i]) :: b
  }

  /** The origin of a derived fact is the union of the blocks its derivation goes through. */
  lemma {:induction false} OriginIsBlocks(eval: Eval, rules: set<TrustedRule>, start: set<DFact>, d: Derivation,
                                          f: DFact)
    requires Derives(eval, rules, start, d, f)
    ensures f.origin == BlocksOf(d)
    decreases d
  {
    match d
    case Given(g) =>
    case ByRule(tr, premises, proofs) =>
      forall i | 0 <= i < |proofs|
        ensures premises[i].origin == BlocksOf(proofs[i])
      {
        OriginIsBlocks(eval, rules, start, proofs[i], premises[i]);
      }
      forall b
        ensures b in OriginsOf(premises) <==> exists i :: 0 <= i < |proofs| && b in BlocksOf(proofs[i])
      {
        if b in OriginsOf(premises) {
          var p :| p in premises && b in p.origin;
          var i :| 0 <= i < |premises| && premises[i] == p;
          assert b in BlocksOf(proofs[i]);
        }
        if i :| 0 <= i < |proofs| && b in BlocksOf(proofs[i]) {
          assert premises[i] in premises && b in premises[i].origin;
        }
      }
  }

  /** Derivations stay inside any closed set around the start. */
  lemma {:induction false} DerivedIsInClosed(eval: Eval, rules: set<TrustedRule>, start: set<DFact>, d: Derivation,
                                             f: DFact, closed: set<DFact>)
    requires Derives(eval, rules, start, d, f)
    requires start <= closed && Closed(eval, rules, closed)
    ensures f in closed
    decreases d
  {
    match d
    case Given(g) =>
    case ByRule(tr, premises, proofs) =>
      forall p | p in premises
        ensures p in Visible(closed, tr.trusted)
      {
        var i :| 0 <= i < |premises| && premises[i] == p;
        DerivedIsInClosed(eval, rules, start, proofs[i], p, closed);
      }
      TuplesExact(Visible(closed, tr.trusted), |tr.rule.body|, premises);
      assert f in Produced(eval, tr, closed);
  }

  /** One derivation per premise. */
  lemma {:induction false} ProofsOf(eval: Eval, rules: set<TrustedRule>, start: set<DFact>,
                                    premises: seq<DFact>) returns (proofs: seq<Derivation>)
    requires forall p :: p in premises ==> Derivable(eval, rules, start, p)
    ensures |proofs| == |premises|
    ensures forall i :: 0 <= i < |premises| ==> Derives(eval, rules, start, proofs[i], premises[i])
    decreases |premises|
  {
    hide Derives;
    if premises == [] {
      proofs := [];
    } else {
      var n := |premises| - 1;
      var rest := ProofsOf(eval, rules, start, premises[..n]);
      assert premises[n] in premises;
      var d :| Derives(eval, rules, start, d, premises[n]);
      proofs := rest + [d];
    }
  }

  lemma ProducedIsDerivable(eval: Eval, rules: set<TrustedRule>, start: set<DFact>, facts: set<DFact>, tr: TrustedRule,
                            f: DFact)
    requires forall g :: g in facts ==> Derivable(eval, rules, start, g)
    requires tr in rules && f in Produced(eval, tr, facts)
    ensures Derivable(eval, rules, start, f)
  {
    var visible := Visible(facts, tr.trusted);
    var fs: seq<DFact> :| fs in Tuples(visible, |tr.rule.body|) && |fs| == |tr.rule.body|
                            && Fire(eval, tr.rule, tr.block, fs) == Yields(f);
    TuplesExact(visible, |tr.rule.body|, fs);
    var proofs := ProofsOf(eval, rules, start, fs);
    forall i | 0 <= i < |fs|
      ensures fs[i].origin <= tr.trusted
    {
      assert fs[i] in visible;
    }
    assert Derives(eval, rules, start, ByRule(tr, fs, proofs), f);
  }

  lemma RoundIsDerivable(eval: Eval, rules: set<TrustedRule>, start: set<DFact>, before: set<DFact>)
    requires forall f :: f in before ==> Derivable(eval, rules, start, f)
    ensures forall f :: f in RoundOf(eval, rules)(before) ==> Derivable(eval, rules, start, f)
  {
    hide Derivable, Produced, RoundOf;
    forall f | f in RoundOf(eval, rules)(before)
      ensures Derivable(eval, rules, start, f)
    {
      if f !in before {
        var tr := ProducerOf(eval, rules, before, f);
        ProducedIsDerivable(eval, rules, start, before, tr, f);
      }
    }
  }

  lemma GivenIsDerivable(eval: Eval, rules: set<TrustedRule>, start: set<DFact>, f: DFact)
    requires f in start
    ensures Derivable(eval, rules, start, f)
  {
    assert Derives(eval, rules, start, Given(f), f);
  }

  /** After any number of rounds, every fact is derivable. */
  lemma {:induction false} RoundsAreDerivable(eval: Eval, rules: set<TrustedRule>, start: set<DFact>, n: nat)
    ensures forall f :: f in Iterate(RoundOf(eval, rules), start, n) ==> Derivable(eval, rules, start, f)
    decreases n
  {
    hide Derivable, Produced, RoundOf;
    if n == 0 {
      forall f | f in start
        ensures Derivable(eval, rules, start, f)
      {
        GivenIsDerivable(eval, rules, start, f);
      }
    } else {
      RoundsAreDerivable(eval, rules, start, n - 1);
      RoundIsDerivable(eval, rules, start, Iterate(RoundOf(eval, rules), start, n - 1));
    }
  }

  lemma ProducerOf(eval: Eval, rules: set<TrustedRule>, facts: set<DFact>, f: DFact) returns (tr: TrustedRule)
    requires f in RoundOf(eval, rules)(facts) && f !in facts
    ensures tr in rules && f in Produced(eval, tr, facts)
  {
    hide Produced;
    tr :| tr in rules && f in Produced(eval, tr, facts);
  }

  /** f has a derivation, and the blocks of the derivation are its origin. */
  ghost predicate Justified(eval: Eval, rules: set<TrustedRule>, start: set<DFact>, f: DFact) {
    exists d :: Derives(eval, rules, start, d, f) && BlocksOf(d) == f.origin
  }

  lemma DerivableIsJustified(eval: Eval, rules: set<TrustedRule>, start: set<DFact>, f: DFact)
    ensures Derivable(eval, rules, start, f) <==> Justified(eval, rules, start, f)
  {
    hide Derives, BlocksOf;
    if Derivable(eval, rules, start, f) {
      var d :| Derives(eval, rules, start, d, f);
      OriginIsBlocks(eval, rules, start, d, f);
    }
  }

  /** However a run ends, each fact it leaves has a derivation, whose blocks are its origin.
      When the run succeeds, a fact is left exactly when it has one. */
  lemma RunLeavesDerivable(eval: Eval, rules: set<TrustedRule>, start: set<DFact>, limits: Limits)
    ensures forall f :: f in RunOf(eval, rules, start, limits).1 ==> Justified(eval, rules, start, f)
    ensures RunOf(eval, rules, start, limits).0.Done? ==>
              forall f :: f in RunOf(eval, rules, start, limits).1 <==> Justified(eval, rules, start, f)
  {
    RoundIterates(eval, rules);
    var left := RunOf(eval, rules, start, limits).1;
    var k := RunIsIterate(RoundOf(eval, rules), ErrsOf(eval, rules), start, FactLimit(limits), IterationLimit(limits));
    RoundsAreDerivable(eval, rules, start, k);
    hide RoundOf, ErrsOf, Derives, RunFrom, Justified;
    forall f
      ensures Derivable(eval, rules, start, f) <==> Justified(eval, rules, start, f)
    {
      DerivableIsJustified(eval, rules, start, f);
    }
    if RunOf(eval, rules, start, limits).0.Done? {
      RunLeavesLeastClosed(eval, rules, start, limits);
      hide Closed;
      forall f | Derivable(eval, rules, start, f)
        ensures f in left
      {
        var d :| Derives(eval, rules, start, d, f);
        DerivedIsInClosed(eval, rules, start, d, f, left);
      }
    }
  }
}
