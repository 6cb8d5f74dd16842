/** The evaluator of datalog/evaluator.go: matches found by walking the odometer,
    rule application on top of them, and the three ways a check reads them. */
module Evaluation {
  import opened Wrappers
  import opened Types
  import opened Matching
  import opened Odometer
  import opened Datalog

  type DPredicate = Predicate<string>

  /** matchedVariables: one slot per variable of the body, empty until it is bound. */
  type Slots = map<string, Option<Term<string>>>

  datatype MatchResult = MatchResult(origin: Option<Origin>, variables: Bindings<string>)

  /** The slots hold the bindings m, the other variables of `names` being empty. */
  ghost predicate Holding(slots: Slots, names: set<string>, m: Bindings<string>) {
    && slots.Keys == names
    && m.Keys <= names
    && forall v :: v in names ==> slots[v] == if v in m then Some(m[v]) else None
  }

  /** newMatchedVariables. */
  method NewSlots(preds: seq<DPredicate>) returns (slots: Slots)
    ensures Holding(slots, Variables(preds), map[])
  {
    slots := map[];
    for p := 0 to |preds|
      invariant Holding(slots, Variables(preds[..p]), map[])
    {
      var ts := preds[p].terms;
      for i := 0 to |ts|
        invariant Holding(slots, Variables(preds[..p]) + TermVariables(ts[..i]), map[])
      {
        assert ts[..i + 1] == ts[..i] + [ts[i]];
        if ts[i].Variable? {
          slots := slots[ts[i].v := None];
        }
      }
      assert ts[..|ts|] == ts;
      VariablesSnoc(preds, p + 1);
    }
    assert preds[..|preds|] == preds;
  }

  /** matchedVariables.insert. */
  method InsertSlot(slots: Slots, k: string, v: Term<string>, ghost names: set<string>, ghost m: Bindings<string>)
      returns (slots': Slots, ok: bool)
    requires Holding(slots, names, m) && k in names
    ensures ok == BindTerm(m, Variable(k), v).Some?
    ensures ok ==> Holding(slots', names, BindTerm(m, Variable(k), v).value)
  {
    slots' := slots;
    match slots[k]
    case None =>
      slots' := slots[k := Some(v)];
      ok := true;
    case Some(existing) =>
      ok := v == existing;
  }

  /** matchedVariables.complete: nil when a variable is left unbound. */
  method Complete(slots: Slots) returns (r: Option<Bindings<string>>)
    ensures r.Some? <==> forall v :: v in slots ==> slots[v].Some?
    ensures r.Some? ==> r.value.Keys == slots.Keys && forall v :: v in slots ==> r.value[v] == slots[v].value
  {
    var todo := slots.Keys;
    var m: Bindings<string> := map[];
    while todo != {}
      invariant todo <= slots.Keys
      invariant forall v :: v in slots && v !in todo ==> slots[v].Some?
      invariant m.Keys == slots.Keys - todo
      invariant forall v :: v in m ==> m[v] == slots[v].value
      decreases todo
    {
      var v :| v in todo;
      if slots[v].None? {
        return None;
      }
      m := m[v := slots[v].value];
      todo := todo - {v};
    }
    r := Some(m);
  }

  /** The facts at the positions of an index tuple. */
  function At(facts: seq<DFact>, t: seq<nat>): (fs: seq<DFact>)
    requires IsTuple(t, |facts|)
    ensures |fs| == |t| && forall i :: 0 <= i < |t| ==> fs[i] == facts[t[i]]
  {
    seq(|t|, i requires 0 <= i < |t| => facts[t[i]])
  }

  /** The bindings under which an index tuple is a match, if it is one. */
  function MatchAt(preds: seq<DPredicate>, facts: seq<DFact>, t: seq<nat>): Option<Bindings<string>>
    requires |t| == |preds| && IsTuple(t, |facts|)
  {
    Unify(preds, FactsOf(At(facts, t)))
  }

  /** r is what matches yields for the index tuple t. */
  ghost predicate IsMatch(preds: seq<DPredicate>, facts: seq<DFact>, t: seq<nat>, r: MatchResult) {
    && IsTupleOf(preds, facts, t)
    && MatchAt(preds, facts, t) == Some(r.variables)
    && r.origin == if preds == [] then None else Some(OriginsOf(At(facts, t)))
  }

  /** One fact index per predicate. */
  ghost predicate IsTupleOf(preds: seq<DPredicate>, facts: seq<DFact>, t: seq<nat>) {
    |t| == |preds| && IsTuple(t, |facts|)
  }

  /** The index tuple t is not a match. */
  ghost predicate NoMatch(preds: seq<DPredicate>, facts: seq<DFact>, t: seq<nat>) {
    IsTupleOf(preds, facts, t) ==> MatchAt(preds, facts, t).None?
  }

  // ---- A failure depends on the prefix of the tuple only ----

  lemma {:induction false} BindFirstPrefix(preds: seq<DPredicate>, f: seq<Fact<string>>, g: seq<Fact<string>>, n: nat)
    requires n <= |preds| == |f| == |g|
    requires forall i :: 0 <= i < n ==> f[i] == g[i] && |preds[i].terms| == |f[i].terms|
    ensures BindFirst(preds, f, n) == BindFirst(preds, g, n)
  {
    if n > 0 {
      BindFirstPrefix(preds, f, g, n - 1);
    }
  }

  lemma {:induction false} BindFirstStaysNone(preds: seq<DPredicate>, f: seq<Fact<string>>, n: nat, m: nat)
    requires n <= m <= |preds| == |f|
    requires forall i :: 0 <= i < m ==> |preds[i].terms| == |f[i].terms|
    requires BindFirst(preds, f, n).None?
    ensures BindFirst(preds, f, m).None?
  {
    if n < m {
      BindFirstStaysNone(preds, f, n, m - 1);
    }
  }

  lemma {:induction false} BindTermsStaysNone(b: Bindings<string>, pts: seq<Term<string>>, fts: seq<Term<string>>,
                                              n: nat, m: nat)
    requires n <= m <= |pts| <= |fts|
    requires BindTerms(b, pts, fts, n).None?
    ensures BindTerms(b, pts, fts, m).None?
  {
    if n < m {
      BindTermsStaysNone(b, pts, fts, n, m - 1);
    }
  }

  /** If the first n facts of a tuple cannot all match and bind, no tuple that starts
      with the same n indexes is a match. */
  lemma FailedPrefix(preds: seq<DPredicate>, facts: seq<DFact>, t: seq<nat>, n: nat, u: seq<nat>)
    requires IsTupleOf(preds, facts, t) && IsTupleOf(preds, facts, u) && n <= |t|
    requires t[..n] == u[..n]
    requires
      (exists i :: 0 <= i < n && !Match(facts[t[i]].fact, preds[i]))
      || (AllMatch(preds, FactsOf(At(facts, t))) && BindFirst(preds, FactsOf(At(facts, t)), n).None?)
    ensures NoMatch(preds, facts, u)
  {
    var f, g := FactsOf(At(facts, t)), FactsOf(At(facts, u));
    forall i | 0 <= i < n
      ensures f[i] == g[i]
    {
      assert t[i] == t[..n][i] == u[..n][i] == u[i];
    }
    if AllMatch(preds, g) {
      assert forall i :: 0 <= i < n ==> Match(f[i], preds[i]);
      forall i | 0 <= i < |preds|
        ensures |preds[i].terms| == |g[i].terms|
      {
        assert Match(g[i], preds[i]);
      }
      BindFirstPrefix(preds, f, g, n);
      BindFirstStaysNone(preds, g, n, |preds|);
    }
  }

  /** No match starts like t up to and including position p. */
  ghost predicate RulesOut(preds: seq<DPredicate>, facts: seq<DFact>, t: seq<nat>, p: nat) {
    && p < |preds| == |t|
    && forall u :: IsTupleOf(preds, facts, u) && u[..p + 1] == t[..p + 1] ==> NoMatch(preds, facts, u)
  }

  lemma FailureRulesOut(preds: seq<DPredicate>, facts: seq<DFact>, t: seq<nat>, p: nat)
    requires IsTupleOf(preds, facts, t) && p < |t|
    requires
      !Match(facts[t[p]].fact, preds[p])
      || (AllMatch(preds, FactsOf(At(facts, t))) && BindFirst(preds, FactsOf(At(facts, t)), p + 1).None?)
    ensures RulesOut(preds, facts, t, p)
  {
    forall u | IsTupleOf(preds, facts, u) && u[..p + 1] == t[..p + 1]
      ensures NoMatch(preds, facts, u)
    {
      FailedPrefix(preds, facts, t, p + 1, u);
    }
  }

  // ---- The match iterator ----

  class CombineIt {
    const predicates: seq<DPredicate>
    const allFacts: seq<DFact>
    const slots: Slots
    const c: Combinations

    /** Every index tuple of smaller rank has been yielded or ruled out. */
    ghost var horizon: nat

    ghost predicate Valid()
      reads this, c, c.indexes
    {
      && c.Valid()
      && c.predicateCount == |predicates|
      && c.factCount == |allFacts|
      && Holding(slots, Variables(predicates), map[])
    }

    /** The odometer is just past the horizon. */
    ghost predicate Ready()
      reads this, c, c.indexes
    {
      && Valid()
      && forall u :: c.Ahead(u) <==> IsTupleOf(predicates, allFacts, u) && horizon <= Rank(u, |allFacts|)
    }

    constructor (predicates: seq<DPredicate>, allFacts: seq<DFact>)
      ensures Ready() && fresh(c) && fresh(c.indexes) && horizon == 0
      ensures this.predicates == predicates && this.allFacts == allFacts
    {
      this.predicates, this.allFacts := predicates, allFacts;
      var empty := NewSlots(predicates);
      slots := empty;
      c := new Combinations(|predicates|, |allFacts|);
      horizon := 0;
    }

    /** The first loop of matches: the position of the first predicate that its fact
        does not match, if any. */
    method FirstMismatch() returns (failedAt: Option<nat>)
      requires Valid() && IsTuple(c.indexes[..], |allFacts|)
      ensures failedAt.Some? ==> RulesOut(predicates, allFacts, c.indexes[..], failedAt.value)
      ensures failedAt.None? ==> AllMatch(predicates, FactsOf(At(allFacts, c.indexes[..])))
    {
      for p := 0 to |predicates|
        invariant forall i :: 0 <= i < p ==> Match(allFacts[c.indexes[i]].fact, predicates[i])
      {
        if !Match(allFacts[c.indexes[p]].fact, predicates[p]) {
          FailureRulesOut(predicates, allFacts, c.indexes[..], p);
          return Some(p);
        }
      }
      failedAt := None;
    }

    /** One turn of the second loop of matches: gathers the variables of one predicate,
        up to the first conflict. */
    method GatherOne(slots: Slots, p: nat, fact: Fact<string>, ghost m: Bindings<string>)
      returns (filled: Slots, ok: bool)
      requires p < |predicates| && |fact.terms| == |predicates[p].terms|
      requires Holding(slots, Variables(predicates), m)
      ensures var m' := BindTerms(m, predicates[p].terms, fact.terms, |fact.terms|);
              ok == m'.Some? && (ok ==> Holding(filled, Variables(predicates), m'.value))
    {
      var ts := predicates[p].terms;
      ghost var names := Variables(predicates);
      ghost var b := m;
      filled := slots;
      for i := 0 to |ts|
        invariant BindTerms(m, ts, fact.terms, i) == Some(b)
        invariant Holding(filled, names, b)
      {
        if ts[i].Variable? {
          assert ts[i].v in TermVariables(ts) && predicates[p] in predicates;
          var next;
          next, ok := InsertSlot(filled, ts[i].v, fact.terms[i], names, b);
          if !ok {
            BindTermsStaysNone(m, ts, fact.terms, i + 1, |ts|);
            return;
          }
          filled := next;
          b := BindTerm(b, ts[i], fact.terms[i]).value;
        }
      }
      ok := true;
    }

    /** The second loop of matches, over all the predicates. */
    method Gather() returns (filled: Slots, failedAt: Option<nat>, ghost m: Bindings<string>)
      requires Valid() && IsTuple(c.indexes[..], |allFacts|)
      requires AllMatch(predicates, FactsOf(At(allFacts, c.indexes[..])))
      ensures failedAt.Some? ==> RulesOut(predicates, allFacts, c.indexes[..], failedAt.value)
      ensures failedAt.None? ==> MatchAt(predicates, allFacts, c.indexes[..]) == Some(m) && Holding(filled, m.Keys, m)
    {
      ghost var f := FactsOf(At(allFacts, c.indexes[..]));
      m := map[];
      filled := slots;
      for p := 0 to |predicates|
        invariant BindFirst(predicates, f, p) == Some(m)
        invariant Holding(filled, Variables(predicates), m)
      {
        var fact := allFacts[c.indexes[p]].fact;
        assert f[p] == fact && Match(f[p], predicates[p]);
        var ok;
        filled, ok := GatherOne(filled, p, fact, m);
        if !ok {
          FailureRulesOut(predicates, allFacts, c.indexes[..], p);
          return filled, Some(p), m;
        }
        m := BindTerms(m, predicates[p].terms, fact.terms, |fact.terms|).value;
      }
      UnifyExact(predicates, f, m);
      failedAt := None;
    }

    /** Whether the current index tuple is a match; if not, a position that rules it out. */
    method TestCurrent() returns (m: Option<Bindings<string>>, failedAt: nat)
      requires Valid() && IsTuple(c.indexes[..], |allFacts|)
      ensures m.Some? ==> MatchAt(predicates, allFacts, c.indexes[..]) == m
      ensures m.None? ==> RulesOut(predicates, allFacts, c.indexes[..], failedAt)
    {
      var failed := FirstMismatch();
      if failed.Some? {
        return None, failed.value;
      }
      var filled;
      ghost var b;
      filled, failed, b := Gather();
      if failed.Some? {
        return None, failed.value;
      }
      m := Complete(filled);
      assert m.value == b;
      failedAt := 0;
    }

    /** The union of the origins of the current facts; none for an empty body. */
    method CurrentOrigin() returns (origin: Option<Origin>)
      requires Valid() && IsTuple(c.indexes[..], |allFacts|)
      ensures origin == if predicates == [] then None else Some(OriginsOf(At(allFacts, c.indexes[..])))
    {
      if |predicates| == 0 {
        return None;
      }
      ghost var fs := At(allFacts, c.indexes[..]);
      var o := allFacts[c.indexes[0]].origin;
      for i := 1 to |predicates|
        invariant o == OriginsOf(fs[..i])
      {
        assert fs[..i + 1] == fs[..i] + [fs[i]];
        o := o + allFacts[c.indexes[i]].origin;
      }
      assert fs[..|fs|] == fs;
      origin := Some(o);
    }

    /** matches: the next match in lexicographic order of its index tuple t. */
    method Next() returns (r: Option<MatchResult>, t: seq<nat>)
      requires Ready()
      modifies this, c, c.indexes
      ensures Valid()
      ensures r.Some? ==>
                && Ready() && c.Left() < old(c.Left())
                && IsMatch(predicates, allFacts, t, r.value)
                && old(horizon) <= Rank(t, |allFacts|) && horizon == Rank(t, |allFacts|) + 1
      ensures forall u :: IsTupleOf(predicates, allFacts, u) && old(horizon) <= Rank(u, |allFacts|)
                          && (r.Some? ==> Rank(u, |allFacts|) < horizon && u != t) ==>
                NoMatch(predicates, allFacts, u)
    {
      hide NoMatch, MatchAt, PrefixRank, Power, Holding, At;
      t := [];
      while true
        invariant Valid() && c.Left() <= old(c.Left()) && horizon == old(horizon)
        invariant forall u :: c.Ahead(u) ==> IsTupleOf(predicates, allFacts, u) && horizon <= Rank(u, |allFacts|)
        invariant forall u :: IsTupleOf(predicates, allFacts, u) && horizon <= Rank(u, |allFacts|) && !c.Ahead(u) ==>
                    NoMatch(predicates, allFacts, u)
        decreases c.Left()
      {
        var more := c.Next();
        if !more {
          return None, t;
        }
        t := c.indexes[..];
        var m, failedAt := TestCurrent();
        if m.Some? {
          var origin := CurrentOrigin();
          horizon := Rank(t, |allFacts|) + 1;
          return Some(MatchResult(origin, m.value)), t;
        }
        c.FailedAtIndex(failedAt);
      }
    }
  }

  /** Index tuples and their matches, in order, as far as a horizon. */
  ghost predicate Collected(preds: seq<DPredicate>, facts: seq<DFact>, ms: seq<MatchResult>, ts: seq<seq<nat>>,
                            horizon: nat) {
    && |ms| == |ts|
    && (forall i :: 0 <= i < |ts| ==> IsMatch(preds, facts, ts[i], ms[i]) && Rank(ts[i], |facts|) < horizon)
    && (forall i, j :: 0 <= i < j < |ts| ==> Rank(ts[i], |facts|) < Rank(ts[j], |facts|))
  }

  lemma CollectNext(preds: seq<DPredicate>, facts: seq<DFact>, ms: seq<MatchResult>, ts: seq<seq<nat>>, horizon: nat,
                    r: MatchResult, t: seq<nat>)
    requires Collected(preds, facts, ms, ts, horizon)
    requires IsMatch(preds, facts, t, r) && horizon <= Rank(t, |facts|)
    ensures Collected(preds, facts, ms + [r], ts + [t], Rank(t, |facts|) + 1)
  {
    hide IsMatch, PrefixRank;
  }

  /** Draining the iterator: exactly the matches, each once, in lexicographic order. */
  method AllMatches(preds: seq<DPredicate>, facts: seq<DFact>) returns (ms: seq<MatchResult>, ts: seq<seq<nat>>)
    ensures |ms| == |ts|
    ensures forall i :: 0 <= i < |ts| ==> IsMatch(preds, facts, ts[i], ms[i])
    ensures forall i, j :: 0 <= i < j < |ts| ==> |ts[i]| == |ts[j]| && LexLess(ts[i], ts[j])
    ensures forall t :: IsTupleOf(preds, facts, t) && t !in ts ==> NoMatch(preds, facts, t)
  {
    hide NoMatch, MatchAt, PrefixRank, Power, At;
    ms, ts := [], [];
    var it := new CombineIt(preds, facts);
    var r, t := it.Next();
    ghost var from: nat := 0;
    while r.Some?
      invariant fresh(it) && fresh(it.c) && fresh(it.c.indexes)
      invariant it.predicates == preds && it.allFacts == facts
      invariant r.Some? ==> it.Ready() && IsMatch(preds, facts, t, r.value)
                            && from <= Rank(t, |facts|) && it.horizon == Rank(t, |facts|) + 1
      invariant Collected(preds, facts, ms, ts, from)
      invariant forall u :: IsTupleOf(preds, facts, u) && u !in ts
                            && (r.Some? ==> Rank(u, |facts|) < it.horizon && u != t) ==>
                  NoMatch(preds, facts, u)
      decreases if r.Some? then it.c.Left() + 1 else 0
    {
      CollectNext(preds, facts, ms, ts, from, r.value, t);
      ms, ts := ms + [r.value], ts + [t];
      from := it.horizon;
      r, t := it.Next();
    }
    forall i, j | 0 <= i < j < |ts|
      ensures LexLess(ts[i], ts[j])
    {
      RankIsLexicographic(ts[i], ts[j], |facts|);
    }
  }

  // ---- Rule application ----

  /** allFacts lists the set of facts; the order is that of a map iteration. */
  ghost predicate Lists(allFacts: seq<DFact>, facts: set<DFact>) {
    && (forall f :: f in allFacts <==> f in facts)
    && |allFacts| == |facts|
  }

  lemma AtIsTuple(allFacts: seq<DFact>, facts: set<DFact>, t: seq<nat>)
    requires Lists(allFacts, facts) && IsTuple(t, |allFacts|)
    ensures At(allFacts, t) in Tuples(facts, |t|)
  {
    TuplesExact(facts, |t|, At(allFacts, t));
  }

  lemma TupleIsAt(allFacts: seq<DFact>, facts: set<DFact>, k: nat, fs: seq<DFact>) returns (t: seq<nat>)
    requires Lists(allFacts, facts) && fs in Tuples(facts, k)
    ensures |t| == k && IsTuple(t, |allFacts|) && At(allFacts, t) == fs
  {
    TuplesExact(facts, k, fs);
    t := [];
    while |t| < k
      invariant |t| <= k && IsTuple(t, |allFacts|)
      invariant forall i :: 0 <= i < |t| ==> allFacts[t[i]] == fs[i]
    {
      assert fs[|t|] in allFacts;
      var j: nat :| j < |allFacts| && allFacts[j] == fs[|t|];
      t := t + [j];
    }
  }

  /** The expression loop shared by getValidMatches, verifyAnyMatches and verifyAllMatches. */
  method JudgeAll(eval: Eval, exprs: seq<Expression<string>>, m: Bindings<string>) returns (v: Verdict)
    ensures v == Judge(eval, exprs, m)
  {
    for i := 0 to |exprs|
      invariant Judge(eval, exprs, m) == Judge(eval, exprs[i..], m)
    {
      var res := eval(exprs[i], m);
      if res.None? {
        return Verdict.Broken;
      }
      if res.value != Bool(true) {
        return Fails;
      }
    }
    v := Holds;
  }

  /** The head loop of getNewFacts: None when a head variable is unbound. */
  method InstantiateHead(head: DPredicate, m: Bindings<string>) returns (r: Option<Fact<string>>)
    ensures r == Instantiate(m, head)
  {
    var ts := head.terms;
    for i := 0 to |ts|
      invariant |ts| == |head.terms|
      invariant forall j :: 0 <= j < i ==>
                  (head.terms[j].Variable? ==> head.terms[j].v in m)
                  && ts[j] == if head.terms[j].Variable? then m[head.terms[j].v] else head.terms[j]
      invariant forall j :: i <= j < |ts| ==> ts[j] == head.terms[j]
    {
      if ts[i].Variable? {
        if ts[i].v !in m {
          return None;
        }
        ts := ts[i := m[ts[i].v]];
      }
    }
    r := Some(Predicate(head.name, ts));
    assert SubstTerms(m, head.terms).value == ts;
  }

  /** The rule does not err on the tuple, and what it yields is among the results. */
  ghost predicate Settled(eval: Eval, rule: DRule, block: BlockId, fs: seq<DFact>, result: set<DFact>)
    requires |fs| == |rule.body|
  {
    var y := Fire(eval, rule, block, fs);
    !y.Error? && (y.Yields? ==> y.fact in result)
  }

  /** One turn of getNewFacts: what a match yields. */
  method FireMatch(eval: Eval, rule: DRule, block: BlockId, r: MatchResult, ghost fs: seq<DFact>) returns (y: Firing)
    requires |fs| == |rule.body| && Unify(rule.body, FactsOf(fs)) == Some(r.variables)
    requires r.origin == if rule.body == [] then None else Some(OriginsOf(fs))
    ensures y == Fire(eval, rule, block, fs)
  {
    var v := JudgeAll(eval, rule.expressions, r.variables);
    match v
    case Broken => return Error;
    case Fails => return Silent;
    case Holds =>
      var origin := {block};
      if r.origin.Some? {
        origin := origin + r.origin.value;
      }
      var fact := InstantiateHead(rule.head, r.variables);
      match fact
      case None => return Error;
      case Some(f) => return Yields(OriginFact(origin, f));
  }

  /** The first n index tuples are settled by results the rule derives. */
  ghost predicate FirstSettled(eval: Eval, rule: DRule, block: BlockId, allFacts: seq<DFact>, facts: set<DFact>,
                               ts: seq<seq<nat>>, n: nat, result: set<DFact>)
    requires n <= |ts|
  {
    && result <= Derived(eval, rule, block, facts)
    && forall j :: 0 <= j < n ==>
         IsTupleOf(rule.body, allFacts, ts[j]) && Settled(eval, rule, block, At(allFacts, ts[j]), result)
  }

  /** A yield of some tuple of the facts is among the derived facts, an error of one is reported. */
  lemma FiringCounts(eval: Eval, rule: DRule, block: BlockId, allFacts: seq<DFact>, facts: set<DFact>, t: seq<nat>)
    requires Lists(allFacts, facts) && IsTupleOf(rule.body, allFacts, t)
    ensures var y := Fire(eval, rule, block, At(allFacts, t));
            (y.Yields? ==> y.fact in Derived(eval, rule, block, facts)) && (y.Error? ==> Errs(eval, rule, block, facts))
  {
    AtIsTuple(allFacts, facts, t);
  }

  lemma SettleNext(eval: Eval, rule: DRule, block: BlockId, allFacts: seq<DFact>, facts: set<DFact>, ts: seq<seq<nat>>,
                   n: nat, result: set<DFact>, y: Firing)
    requires Lists(allFacts, facts) && n < |ts|
    requires FirstSettled(eval, rule, block, allFacts, facts, ts, n, result)
    requires IsTupleOf(rule.body, allFacts, ts[n]) && y == Fire(eval, rule, block, At(allFacts, ts[n]))
    ensures y.Error? ==> Errs(eval, rule, block, facts)
    ensures y.Silent? ==> FirstSettled(eval, rule, block, allFacts, facts, ts, n + 1, result)
    ensures y.Yields? ==> FirstSettled(eval, rule, block, allFacts, facts, ts, n + 1, result + {y.fact})
  {
    hide Derived, Errs, Fire, At, Lists, IsTuple;
    FiringCounts(eval, rule, block, allFacts, facts, ts[n]);
    var more := if y.Yields? then result + {y.fact} else result;
    forall j | 0 <= j < n
      ensures Settled(eval, rule, block, At(allFacts, ts[j]), more)
    {
      assert Settled(eval, rule, block, At(allFacts, ts[j]), result);
    }
  }

  /** The matches are settled, so all tuples of facts are. */
  lemma MatchesSettleAll(eval: Eval, rule: DRule, block: BlockId, allFacts: seq<DFact>, facts: set<DFact>,
                         ts: seq<seq<nat>>, result: set<DFact>)
    requires Lists(allFacts, facts)
    requires FirstSettled(eval, rule, block, allFacts, facts, ts, |ts|, result)
    requires forall t :: IsTupleOf(rule.body, allFacts, t) && t !in ts ==> NoMatch(rule.body, allFacts, t)
    ensures result == Derived(eval, rule, block, facts) && !Errs(eval, rule, block, facts)
  {
    forall fs | fs in Tuples(facts, |rule.body|) && |fs| == |rule.body|
      ensures Settled(eval, rule, block, fs, result)
    {
      var t := TupleIsAt(allFacts, facts, |rule.body|, fs);
      if t in ts {
        var j :| 0 <= j < |ts| && ts[j] == t;
        assert Settled(eval, rule, block, At(allFacts, ts[j]), result);
      } else {
        assert NoMatch(rule.body, allFacts, t);
      }
    }
  }

  /** Rule.Apply and getNewFacts: the derived facts, or None on an error. Neither depends
      on the order of the facts. */
  method Apply(eval: Eval, rule: DRule, block: BlockId, allFacts: seq<DFact>, ghost facts: set<DFact>)
      returns (r: Option<set<DFact>>)
    requires Lists(allFacts, facts)
    ensures r.None? <==> Errs(eval, rule, block, facts)
    ensures r.Some? ==> r.value == Derived(eval, rule, block, facts)
  {
    var result: set<DFact> := {};
    var ms, ts := AllMatches(rule.body, allFacts);
    for i := 0 to |ms|
      invariant FirstSettled(eval, rule, block, allFacts, facts, ts, i, result)
    {
      assert IsMatch(rule.body, allFacts, ts[i], ms[i]);
      var y := FireMatch(eval, rule, block, ms[i], At(allFacts, ts[i]));
      SettleNext(eval, rule, block, allFacts, facts, ts, i, result, y);
      match y
      case Error => return None;
      case Silent =>
      case Yields(fact) => result := result + {fact};
    }
    MatchesSettleAll(eval, rule, block, allFacts, facts, ts, result);
    r := Some(result);
  }
}
