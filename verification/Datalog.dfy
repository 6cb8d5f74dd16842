/** What one rule means: which facts it produces from which tuples of facts.
    The module is about resolved symbols, and works for every deterministic way
    of evaluating expressions. */
module Datalog {
  import opened Wrappers
  import opened Types
  import opened Matching

  type DFact = OriginFact<string>
  type DRule = Rule<string>

  /** Evaluates an expression under bindings; None is an evaluation error. */
  type Eval = (Expression<string>, Bindings<string>) -> Option<Term<string>>

  datatype Verdict = Holds | Fails | Broken

  /** Expressions are evaluated in order, up to the first that errs or is not true. */
  function Judge(eval: Eval, exprs: seq<Expression<string>>, m: Bindings<string>): Verdict {
    if exprs == [] then Holds
    else
      match eval(exprs[0], m)
      case None => Broken
      case Some(t) => if t == Bool(true) then Judge(eval, exprs[1..], m) else Fails
  }

  function FactsOf(fs: seq<DFact>): (r: seq<Fact<string>>)
    ensures |r| == |fs| && forall i :: 0 <= i < |fs| ==> r[i] == fs[i].fact
  {
    seq(|fs|, i requires 0 <= i < |fs| => fs[i].fact)
  }

  /** The ids of all the blocks behind a tuple of facts. */
  function OriginsOf(fs: seq<DFact>): Origin {
    set f, b | f in fs && b in f.origin :: b
  }

  /** What a rule does with one tuple of facts. */
  datatype Firing = Silent | Error | Yields(fact: DFact)

  function Fire(eval: Eval, rule: DRule, block: BlockId, fs: seq<DFact>): Firing
    requires |fs| == |rule.body|
  {
    match Unify(rule.body, FactsOf(fs))
    case None => Silent
    case Some(m) =>
      match Judge(eval, rule.expressions, m)
      case Fails => Silent
      case Broken => Error
      case Holds =>
        match Instantiate(m, rule.head)
        case None => Error
        case Some(f) => Yields(OriginFact({block} + OriginsOf(fs), f))
  }

  /** All tuples of k elements. */
  function Tuples<T>(elems: set<T>, k: nat): set<seq<T>> {
    if k == 0 then {[]}
    else set xs, x | xs in Tuples(elems, k - 1) && x in elems :: xs + [x]
  }

  lemma {:induction false} TuplesExact<T>(elems: set<T>, k: nat, xs: seq<T>)
    ensures xs in Tuples(elems, k) <==> |xs| == k && forall x :: x in xs ==> x in elems
  {
    if k > 0 {
      if xs in Tuples(elems, k) {
        var ys, y :| ys in Tuples(elems, k - 1) && y in elems && xs == ys + [y];
        TuplesExact(elems, k - 1, ys);
      }
      if |xs| == k && forall x :: x in xs ==> x in elems {
        TuplesExact(elems, k - 1, xs[..k - 1]);
        assert xs == xs[..k - 1] + [xs[k - 1]];
      }
    }
  }

  /** The facts a rule produces from a set of facts. */
  function Derived(eval: Eval, rule: DRule, block: BlockId, facts: set<DFact>): set<DFact> {
    set fs | fs in Tuples(facts, |rule.body|) && |fs| == |rule.body| && Fire(eval, rule, block, fs).Yields?
      :: Fire(eval, rule, block, fs).fact
  }

  /** Applying the rule to these facts reports an error. */
  predicate Errs(eval: Eval, rule: DRule, block: BlockId, facts: set<DFact>) {
    exists fs | fs in Tuples(facts, |rule.body|) :: |fs| == |rule.body| && Fire(eval, rule, block, fs).Error?
  }

  lemma DerivedMonotone(eval: Eval, rule: DRule, block: BlockId, facts: set<DFact>, more: set<DFact>)
    requires facts <= more
    ensures Derived(eval, rule, block, facts) <= Derived(eval, rule, block, more)
    ensures Errs(eval, rule, block, facts) ==> Errs(eval, rule, block, more)
  {
    forall fs | fs in Tuples(facts, |rule.body|)
      ensures fs in Tuples(more, |rule.body|)
    {
      TuplesExact(facts, |rule.body|, fs);
      TuplesExact(more, |rule.body|, fs);
    }
  }
}
